/**
 What redaction keeps and what it replaces: each pass splits its text into
 characters that are kept and matches of its pattern, leftmost first and as long
 as possible, and shows a mark in place of every match.
 */
module RedactionMeaning {
  import opened Redaction
  import opened RedactionPattern
  import opened Sequences
  import opened Text

  /** A character that is kept, a key with its separated value, or the word `bearer` with its token. */
  datatype Piece = Kept(c: char) | Pair(key: string, tail: string) | Token(word: string, tail: string)

  /** The text that the pieces show: the key of a pair stays, and a mark stands for what is secret. */
  function Shown(pieces: seq<Piece>): string {
    if pieces == [] then []
    else
      (match pieces[0]
       case Kept(c) => [c]
       case Pair(key, _) => key + "=[REDACTED]"
       case Token(_, _) => "Bearer [REDACTED]") + Shown(pieces[1..])
  }

  lemma ShownNext(piece: Piece, rest: seq<Piece>)
    ensures Shown([piece] + rest) ==
            (match piece
             case Kept(c) => [c]
             case Pair(key, _) => key + "=[REDACTED]"
             case Token(_, _) => "Bearer [REDACTED]") + Shown(rest)
  {
    assert ([piece] + rest)[1..] == rest;
  }

  // ---------- keys and values ----------

  /** One of the key words, in any case. */
  predicate IsKey(word: string) {
    LowerAll(word) in {"api_key", "api-key", "apikey", "token", "password", "secret", "authorization"}
  }

  /** Spaces, a separator, spaces and text, and nothing else. */
  ghost predicate IsValue(tail: string) {
    exists i, j :: ValueShape(tail, i, j, |tail|)
  }

  /** A key of this length and then a value stand at the start of the text. */
  ghost predicate PairStarts(s: string, k: nat) {
    k <= |s| && IsKey(s[..k]) && exists i, j, n :: ValueShape(s[k..], i, j, n)
  }

  /**
   The pieces are the text; a character is kept where no pair starts, and a pair's value goes on up to white
   space or the end.
   */
  ghost predicate SplitAtPairs(pieces: seq<Piece>, s: string) {
    if pieces == [] then s == []
    else
      match pieces[0]
      case Kept(c) =>
        s != [] && s[0] == c && (forall k :: !PairStarts(s, k)) && SplitAtPairs(pieces[1..], s[1..])
      case Pair(key, tail) =>
        && key + tail <= s && IsKey(key) && IsValue(tail)
        && var rest := s[|key + tail|..];
           (rest == [] || IsSpace(rest[0])) && SplitAtPairs(pieces[1..], rest)
      case Token(_, _) => false
  }

  lemma KeysAreKeys(word: string)
    ensures IsKey(word) <==> LowerAll(word) in KEYS
  {
    assert KEYS[0] == "api_key" && KEYS[1] == "api-key" && KEYS[2] == "apikey" && KEYS[3] == "token";
    assert KEYS[4] == "password" && KEYS[5] == "secret" && KEYS[6] == "authorization";
  }

  lemma StartsExactly(word: string, s: string)
    ensures StartsWith(word, s) <==> |word| <= |s| && LowerAll(s[..|word|]) == word
  {
    if |word| <= |s| {
      assert forall i :: 0 <= i < |word| ==> LowerAll(s[..|word|])[i] == Lower(s[i]);
    }
  }

  lemma PairStartsExactly(s: string, k: nat)
    ensures PairStarts(s, k) <==> k <= |s| && LowerAll(s[..k]) in KEYS && KeyValueAt(LowerAll(s[..k]), s)
  {
    if k <= |s| {
      var word := LowerAll(s[..k]);
      KeysAreKeys(s[..k]);
      StartsExactly(word, s);
      PairIsPattern(word, s);
    }
  }

  lemma NoPairHere(s: string)
    requires FindKey(KEYS, s).None?
    ensures forall k :: !PairStarts(s, k)
  {
    forall k: nat ensures !PairStarts(s, k) {
      PairStartsExactly(s, k);
    }
  }

  lemma SpacesTaken(s: string) returns (front: string)
    ensures s == front + SkipSpaces(s)
  {
    SpacesSpan(s);
    front := s[..|s| - |SkipSpaces(s)|];
    assert s == front + s[|front|..];
  }

  lemma TextTaken(s: string) returns (front: string)
    ensures s == front + SkipText(s)
  {
    TextSpan(s);
    front := s[..|s| - |SkipText(s)|];
    assert s == front + s[|front|..];
  }

  lemma TokenCharsTaken(s: string) returns (front: string)
    ensures s == front + SkipToken(s)
  {
    TokenSpan(s);
    front := s[..|s| - |SkipToken(s)|];
    assert s == front + s[|front|..];
  }

  lemma TextFront(s: string) returns (front: string)
    ensures s == front + SkipText(SkipSpaces(s))
  {
    var a := SpacesTaken(s);
    var b := TextTaken(SkipSpaces(s));
    front := a + b;
    Associative(a, b, SkipText(SkipSpaces(s)));
  }

  lemma SeparatorTaken(s: string) returns (front: string)
    requires SkipSpaces(s) != []
    ensures s == front + SkipSpaces(s)[1..]
  {
    var a := SpacesTaken(s);
    var t := SkipSpaces(s);
    front := a + [t[0]];
    Associative(a, [t[0]], t[1..]);
    assert t == [t[0]] + t[1..];
  }

  lemma ValueFront(s: string) returns (front: string)
    requires SeparatedValue(s)
    ensures s == front + AfterValue(s)
  {
    SeparatorFound(s);
    var u := SkipSpaces(s)[1..];
    var a := SeparatorTaken(s);
    var b := TextFront(u);
    front := a + b;
    Associative(a, b, SkipText(SkipSpaces(u)));
  }

  lemma ShapeOfWhole(s: string, i: nat, j: nat, n: nat)
    requires ValueShape(s, i, j, n)
    ensures ValueShape(s[..n], i, j, n)
  {
    assert s[..n][..i] == s[..i] && s[..n][i + 1..j] == s[i + 1..j] && s[..n][j..n] == s[j..n];
  }

  /** What the first pass takes away at a key is a value, and goes on up to white space or the end. */
  lemma ValueTaken(u: string) returns (tail: string)
    requires SeparatedValue(u)
    ensures u == tail + AfterValue(u) && IsValue(tail)
  {
    var i, j := ScannedHasShape(u);
    tail := ValueFront(u);
    ShapeOfWhole(u, i, j, |tail|);
    assert u[..|tail|] == tail;
  }

  lemma PairTaken(s: string, key: string) returns (head: string, tail: string)
    requires key in KEYS && KeyValueAt(key, s) && |key| <= |s| && SeparatedValue(s[|key|..])
    ensures head == s[..|key|] && IsKey(head) && IsValue(tail)
    ensures s == head + tail + AfterValue(s[|key|..])
  {
    head := s[..|key|];
    PairIsPattern(key, s);
    StartsExactly(key, s);
    KeysAreKeys(head);
    tail := ValueTaken(s[|key|..]);
    Associative(head, tail, AfterValue(s[|key|..]));
    assert s == head + s[|key|..];
  }

  lemma PairNext(pieces: seq<Piece>, head: string, tail: string, rest: string)
    requires IsKey(head) && IsValue(tail) && (rest == [] || IsSpace(rest[0])) && SplitAtPairs(pieces, rest)
    ensures SplitAtPairs([Pair(head, tail)] + pieces, head + tail + rest)
  {
    var s := head + tail + rest;
    assert ([Pair(head, tail)] + pieces)[1..] == pieces && s[|head + tail|..] == rest;
  }

  lemma KeptNext(pieces: seq<Piece>, s: string)
    requires s != [] && (forall k :: !PairStarts(s, k)) && SplitAtPairs(pieces, s[1..])
    ensures SplitAtPairs([Kept(s[0])] + pieces, s)
  {
    assert ([Kept(s[0])] + pieces)[1..] == pieces;
  }

  lemma {:induction false} FirstPassSplits(s: string) returns (pieces: seq<Piece>)
    ensures SplitAtPairs(pieces, s) && Shown(pieces) == RedactKeyValues(KEYS, s)
    decreases |s|
  {
    if s == [] {
      pieces := [];
    } else {
      match FindKey(KEYS, s)
      case Some(key) =>
        KeyFits(key, s);
        var rest := AfterValue(s[|key|..]);
        var head, tail := PairTaken(s, key);
        var more := FirstPassSplits(rest);
        PairNext(more, head, tail, rest);
        ShownNext(Pair(head, tail), more);
        pieces := [Pair(head, tail)] + more;
      case None =>
        var more := FirstPassSplits(s[1..]);
        NoPairHere(s);
        KeptNext(more, s);
        ShownNext(Kept(s[0]), more);
        pieces := [Kept(s[0])] + more;
    }
  }

  // ---------- bearer tokens ----------

  /** Letters, digits and seven signs. */
  lemma TokenCharsExactly(c: char)
    ensures IsTokenChar(c) <==>
            || 97 <= Lower(c) as int <= 122 || 48 <= c as int <= 57
            || c in {'.', '_', '~', '+', '/', '=', '-'}
  {
    LowerExactly(c);
  }

  /** At least one space and then token characters, and nothing else. */
  ghost predicate IsTokenTail(tail: string) {
    exists i :: TokenShape(tail, i, |tail|)
  }

  /** The word `bearer`, in any case, and then a token stand at the start of the text. */
  ghost predicate TokenStarts(s: string) {
    |s| >= 6 && LowerAll(s[..6]) == "bearer" && exists i, n :: TokenShape(s[6..], i, n)
  }

  /** The pieces are the text; a character is kept where no token starts, and a token goes on as long as it can. */
  ghost predicate SplitAtTokens(pieces: seq<Piece>, s: string) {
    if pieces == [] then s == []
    else
      match pieces[0]
      case Kept(c) => s != [] && s[0] == c && !TokenStarts(s) && SplitAtTokens(pieces[1..], s[1..])
      case Token(word, tail) =>
        && word + tail <= s && LowerAll(word) == "bearer" && IsTokenTail(tail)
        && var rest := s[|word + tail|..];
           (rest == [] || !IsTokenChar(rest[0])) && SplitAtTokens(pieces[1..], rest)
      case Pair(_, _) => false
  }

  lemma TokenStartsExactly(s: string)
    ensures TokenStarts(s) <==> BearerAt(BEARER, s)
  {
    StartsExactly(BEARER, s);
    BearerIsPattern(BEARER, s);
  }

  lemma TokenFront(s: string) returns (front: string)
    ensures s == front + AfterToken(s)
  {
    var a := SpacesTaken(s);
    var b := TokenCharsTaken(SkipSpaces(s));
    front := a + b;
    Associative(a, b, AfterToken(s));
  }

  lemma TokenShapeOfWhole(s: string, i: nat, n: nat)
    requires TokenShape(s, i, n)
    ensures TokenShape(s[..n], i, n)
  {
    assert s[..n][..i] == s[..i] && s[..n][i..n] == s[i..n];
  }

  lemma {:induction false} BearerRest(word: string, s: string)
    requires BearerAt(word, s)
    ensures |word| <= |s| && BearerAt([], s[|word|..])
  {
    if word == [] {
      assert s[0..] == s;
    } else {
      BearerRest(word[1..], s[1..]);
      assert s[1..][|word[1..]|..] == s[|word|..];
    }
  }

  lemma TokenTail(u: string) returns (tail: string)
    requires BearerAt([], u)
    ensures u == tail + AfterToken(u) && IsTokenTail(tail)
  {
    var i := ScannedTokenHasShape(u);
    tail := TokenFront(u);
    TokenShapeOfWhole(u, i, |tail|);
    assert u[..|tail|] == tail;
  }

  /** What the second pass takes away is the word and its token, as far as it goes. */
  lemma TokenTaken(s: string) returns (word: string, tail: string)
    requires BearerAt(BEARER, s) && |BEARER| <= |s|
    ensures word == s[..|BEARER|] && LowerAll(word) == "bearer" && IsTokenTail(tail)
    ensures s == word + tail + AfterToken(s[|BEARER|..])
  {
    var u := s[|BEARER|..];
    word := s[..|BEARER|];
    TokenStartsExactly(s);
    BearerRest(BEARER, s);
    tail := TokenTail(u);
    Associative(word, tail, AfterToken(u));
    assert s == word + u;
  }

  lemma TokenNext(pieces: seq<Piece>, word: string, tail: string, rest: string)
    requires LowerAll(word) == "bearer" && IsTokenTail(tail)
    requires (rest == [] || !IsTokenChar(rest[0])) && SplitAtTokens(pieces, rest)
    ensures SplitAtTokens([Token(word, tail)] + pieces, word + tail + rest)
  {
    var s := word + tail + rest;
    assert ([Token(word, tail)] + pieces)[1..] == pieces && s[|word + tail|..] == rest;
  }

  lemma KeptBeforeToken(pieces: seq<Piece>, s: string)
    requires s != [] && !TokenStarts(s) && SplitAtTokens(pieces, s[1..])
    ensures SplitAtTokens([Kept(s[0])] + pieces, s)
  {
    assert ([Kept(s[0])] + pieces)[1..] == pieces;
  }

  lemma {:induction false} SecondPassSplits(s: string) returns (pieces: seq<Piece>)
    ensures SplitAtTokens(pieces, s) && Shown(pieces) == RedactBearers(s)
    decreases |s|
  {
    if s == [] {
      pieces := [];
    } else {
      TokenStartsExactly(s);
      if BearerAt(BEARER, s) {
        BearerFits(BEARER, s);
        var rest := AfterToken(s[|BEARER|..]);
        var word, tail := TokenTaken(s);
        var more := SecondPassSplits(rest);
        TokenNext(more, word, tail, rest);
        ShownNext(Token(word, tail), more);
        pieces := [Token(word, tail)] + more;
      } else {
        var more := SecondPassSplits(s[1..]);
        KeptBeforeToken(more, s);
        ShownNext(Kept(s[0]), more);
        pieces := [Kept(s[0])] + more;
      }
    }
  }

  // ---------- there is one way to split ----------

  lemma ShapeExtends(tail: string, u: string, i: nat, j: nat)
    requires tail <= u && ValueShape(tail, i, j, |tail|)
    ensures ValueShape(u, i, j, |tail|)
  {
    assert tail[..i] == u[..i] && tail[i + 1..j] == u[i + 1..j] && tail[j..|tail|] == u[j..|tail|];
  }

  lemma TokenShapeExtends(tail: string, u: string, i: nat)
    requires tail <= u && TokenShape(tail, i, |tail|)
    ensures TokenShape(u, i, |tail|)
  {
    assert tail[..i] == u[..i] && tail[i..|tail|] == u[i..|tail|];
  }

  lemma Parted(s: string, key: string, tail: string)
    requires key + tail <= s
    ensures |key| <= |s| && s[..|key|] == key && tail <= s[|key|..] && s[|key|..][|tail|..] == s[|key + tail|..]
  {
    assert (key + tail)[..|key|] == key && (key + tail)[|key|..] == tail;
    assert s[..|key + tail|] == key + tail;
  }

  lemma PairIsThere(s: string, key: string, tail: string)
    requires key + tail <= s && IsKey(key) && IsValue(tail)
    ensures PairStarts(s, |key|)
  {
    Parted(s, key, tail);
    var i, j :| ValueShape(tail, i, j, |tail|);
    ShapeExtends(tail, s[|key|..], i, j);
  }

  lemma TokenIsThere(s: string, word: string, tail: string)
    requires word + tail <= s && LowerAll(word) == "bearer" && IsTokenTail(tail)
    ensures TokenStarts(s)
  {
    Parted(s, word, tail);
    var i :| TokenShape(tail, i, |tail|);
    TokenShapeExtends(tail, s[|word|..], i);
  }

  lemma KeyLetters(word: string, k: nat)
    requires IsKey(word) && k < |word|
    ensures !IsSpace(word[k]) && word[k] != '=' && word[k] != ':'
  {
    KeysAreKeys(word);
    KeysAreSpelled();
    var i :| 0 <= i < |KEYS| && KEYS[i] == LowerAll(word);
    assert GoodKey(KEYS[i]) && KeyChar(LowerAll(word)[k]);
  }

  lemma ValueBegins(u: string, i: nat, j: nat, n: nat)
    requires ValueShape(u, i, j, n)
    ensures IsSpace(u[0]) || u[0] == '=' || u[0] == ':'
  {
    assert i > 0 ==> u[..i][0] == u[0];
  }

  /** No key of a pair goes on beyond the key of another. */
  lemma NoLongerKey(s: string, k: nat, l: nat)
    requires PairStarts(s, k) && PairStarts(s, l)
    ensures l <= k
  {
    var i, j, n :| ValueShape(s[k..], i, j, n);
    ValueBegins(s[k..], i, j, n);
    if k < l {
      KeyLetters(s[..l], k);
    }
  }

  lemma BlankBefore(s: string, j: nat, p: nat)
    requires j <= |s| && Blank(s[..j]) && p < |s| && !IsSpace(s[p])
    ensures j <= p
  {
    forall k | 0 <= k < j ensures IsSpace(s[k]) {
      assert s[..j][k] == s[k];
    }
  }

  lemma BlankBetween(s: string, i: nat, j: nat, p: nat)
    requires i <= j <= |s| && Blank(s[i..j]) && i <= p < |s| && !IsSpace(s[p])
    ensures j <= p
  {
    forall k | i <= k < j ensures IsSpace(s[k]) {
      assert s[i..j][k - i] == s[k];
    }
  }

  /** No value goes on beyond another that is followed by white space. */
  lemma NoLongerValue(x: string, y: string)
    requires IsValue(x) && IsValue(y) && x <= y && |x| < |y|
    ensures !IsSpace(y[|x|])
  {
    var i: nat, j: nat :| ValueShape(x, i, j, |x|);
    var k: nat, l: nat :| ValueShape(y, k, l, |y|);
    assert x[j..|x|][0] == x[j] == y[j];
    BlankBefore(x, i, k);
    BlankBefore(y, k, i);
    BlankBetween(y, k + 1, l, j);
    assert y[l..|y|][|x| - l] == y[|x|];
  }

  lemma NoLongerToken(x: string, y: string)
    requires IsTokenTail(x) && IsTokenTail(y) && x <= y && |x| < |y|
    ensures IsTokenChar(y[|x|])
  {
    var i: nat :| TokenShape(x, i, |x|);
    var k: nat :| TokenShape(y, k, |y|);
    assert x[i..|x|][0] == x[i] == y[i];
    BlankBefore(y, k, i);
    assert y[k..|y|][|x| - k] == y[|x|];
  }

  lemma SameValue(u: string, x: string, y: string)
    requires x <= u && y <= u && IsValue(x) && IsValue(y)
    requires |x| < |u| ==> IsSpace(u[|x|])
    requires |y| < |u| ==> IsSpace(u[|y|])
    ensures x == y
  {
    if |x| < |y| {
      NoLongerValue(x, y);
    } else if |y| < |x| {
      NoLongerValue(y, x);
    }
  }

  lemma SameToken(u: string, x: string, y: string)
    requires x <= u && y <= u && IsTokenTail(x) && IsTokenTail(y)
    requires |x| < |u| ==> !IsTokenChar(u[|x|])
    requires |y| < |u| ==> !IsTokenChar(u[|y|])
    ensures x == y
  {
    if |x| < |y| {
      NoLongerToken(x, y);
    } else if |y| < |x| {
      NoLongerToken(y, x);
    }
  }

  /** A pair at the start of the text, with a value that cannot go on. */
  ghost predicate PairHere(s: string, key: string, tail: string) {
    && key + tail <= s && IsKey(key) && IsValue(tail)
    && (|key + tail| < |s| ==> IsSpace(s[|key + tail|]))
  }

  lemma PairEnds(s: string, key: string, tail: string)
    requires PairHere(s, key, tail)
    ensures |key| <= |s| && s[..|key|] == key && tail <= s[|key|..]
    ensures |tail| < |s[|key|..]| ==> IsSpace(s[|key|..][|tail|])
  {
    Parted(s, key, tail);
    assert |tail| < |s[|key|..]| ==> s[|key|..][|tail|] == s[|key + tail|];
  }

  lemma SameKey(s: string, a: string, x: string, b: string, y: string)
    requires PairHere(s, a, x) && PairHere(s, b, y)
    ensures a == b
  {
    PairIsThere(s, a, x);
    PairIsThere(s, b, y);
    NoLongerKey(s, |a|, |b|);
    NoLongerKey(s, |b|, |a|);
    PairEnds(s, a, x);
    PairEnds(s, b, y);
  }

  lemma SamePair(s: string, a: string, x: string, b: string, y: string)
    requires PairHere(s, a, x) && PairHere(s, b, y)
    ensures a == b && x == y
  {
    SameKey(s, a, x, b, y);
    PairEnds(s, a, x);
    PairEnds(s, b, y);
    SameValue(s[|a|..], x, y);
  }

  ghost predicate TokenHere(s: string, word: string, tail: string) {
    && word + tail <= s && LowerAll(word) == "bearer" && IsTokenTail(tail)
    && (|word + tail| < |s| ==> !IsTokenChar(s[|word + tail|]))
  }

  lemma TokenEnds(s: string, word: string, tail: string)
    requires TokenHere(s, word, tail)
    ensures |word| == 6 <= |s| && s[..6] == word && tail <= s[6..]
    ensures |tail| < |s[6..]| ==> !IsTokenChar(s[6..][|tail|])
  {
    Parted(s, word, tail);
    assert |LowerAll(word)| == |word|;
    assert |tail| < |s[6..]| ==> s[6..][|tail|] == s[|word + tail|];
  }

  lemma SameTokens(s: string, a: string, x: string, b: string, y: string)
    requires TokenHere(s, a, x) && TokenHere(s, b, y)
    ensures a == b && x == y
  {
    TokenEnds(s, a, x);
    TokenEnds(s, b, y);
    SameToken(s[6..], x, y);
  }

  lemma FirstPair(pieces: seq<Piece>, s: string)
    requires pieces != [] && pieces[0].Pair? && SplitAtPairs(pieces, s)
    ensures PairHere(s, pieces[0].key, pieces[0].tail) && PairStarts(s, |pieces[0].key|)
    ensures SplitAtPairs(pieces[1..], s[|pieces[0].key + pieces[0].tail|..])
  {
    PairIsThere(s, pieces[0].key, pieces[0].tail);
    assert |pieces[0].key + pieces[0].tail| < |s| ==>
        s[|pieces[0].key + pieces[0].tail|..][0] == s[|pieces[0].key + pieces[0].tail|];
  }

  lemma FirstToken(pieces: seq<Piece>, s: string)
    requires pieces != [] && pieces[0].Token? && SplitAtTokens(pieces, s)
    ensures TokenHere(s, pieces[0].word, pieces[0].tail) && TokenStarts(s)
    ensures SplitAtTokens(pieces[1..], s[|pieces[0].word + pieces[0].tail|..])
  {
    TokenIsThere(s, pieces[0].word, pieces[0].tail);
    assert |pieces[0].word + pieces[0].tail| < |s| ==>
        s[|pieces[0].word + pieces[0].tail|..][0] == s[|pieces[0].word + pieces[0].tail|];
  }

  lemma SameFirstAtPairs(a: seq<Piece>, b: seq<Piece>, s: string)
    requires SplitAtPairs(a, s) && SplitAtPairs(b, s)
    ensures a == [] <==> b == []
    ensures a != [] ==> a[0] == b[0]
  {
    if a != [] && a[0].Pair? {
      FirstPair(a, s);
    }
    if b != [] && b[0].Pair? {
      FirstPair(b, s);
    }
    if a != [] && b != [] && a[0].Pair? && b[0].Pair? {
      SamePair(s, a[0].key, a[0].tail, b[0].key, b[0].tail);
    }
  }

  lemma SameFirstAtTokens(a: seq<Piece>, b: seq<Piece>, s: string)
    requires SplitAtTokens(a, s) && SplitAtTokens(b, s)
    ensures a == [] <==> b == []
    ensures a != [] ==> a[0] == b[0]
  {
    if a != [] && a[0].Token? {
      FirstToken(a, s);
    }
    if b != [] && b[0].Token? {
      FirstToken(b, s);
    }
    if a != [] && b != [] && a[0].Token? && b[0].Token? {
      SameTokens(s, a[0].word, a[0].tail, b[0].word, b[0].tail);
    }
  }

  /** A text is split at pairs in one way only. */
  lemma {:induction false} OneSplitAtPairs(a: seq<Piece>, b: seq<Piece>, s: string)
    requires SplitAtPairs(a, s) && SplitAtPairs(b, s)
    ensures a == b
    decreases |a|
  {
    SameFirstAtPairs(a, b, s);
    if a != [] {
      match a[0]
      case Kept(_) => OneSplitAtPairs(a[1..], b[1..], s[1..]);
      case Pair(key, tail) => OneSplitAtPairs(a[1..], b[1..], s[|key + tail|..]);
      assert a == [a[0]] + a[1..] && b == [b[0]] + b[1..];
    }
  }

  /** And at tokens. */
  lemma {:induction false} OneSplitAtTokens(a: seq<Piece>, b: seq<Piece>, s: string)
    requires SplitAtTokens(a, s) && SplitAtTokens(b, s)
    ensures a == b
    decreases |a|
  {
    SameFirstAtTokens(a, b, s);
    if a != [] {
      match a[0]
      case Kept(_) => OneSplitAtTokens(a[1..], b[1..], s[1..]);
      case Token(word, tail) => OneSplitAtTokens(a[1..], b[1..], s[|word + tail|..]);
      assert a == [a[0]] + a[1..] && b == [b[0]] + b[1..];
    }
  }

  // ---------- both passes ----------

  /**
   Redaction splits the text at keys with values and shows the rest verbatim with the marked keys between, and
   then does the same with that text at bearer tokens; what comes out is the redacted text.
   */
  lemma RedactionKeeps(s: string) returns (first: seq<Piece>, second: seq<Piece>)
    ensures SplitAtPairs(first, s)
    ensures SplitAtTokens(second, Shown(first))
    ensures RedactText(s) == Shown(second)
  {
    first := FirstPassSplits(s);
    second := SecondPassSplits(Shown(first));
  }

  /** There is no other way to do it, so that the redacted text is what any such splits show. */
  lemma RedactionExactly(s: string, first: seq<Piece>, second: seq<Piece>)
    requires SplitAtPairs(first, s) && SplitAtTokens(second, Shown(first))
    ensures RedactText(s) == Shown(second)
  {
    var a, b := RedactionKeeps(s);
    OneSplitAtPairs(a, first, s);
    OneSplitAtTokens(b, second, Shown(first));
  }
}
