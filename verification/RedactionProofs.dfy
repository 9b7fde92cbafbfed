/** Redacted text shows no secret, and is exactly the text that redaction leaves alone. */
module RedactionProofs {
  import opened Sequences
  import opened Text
  import opened Redaction

  // ---------- the first pass creates no key and value pair ----------

  lemma {:induction false} KeysKeepText(keys: seq<string>, s: string)
    requires Spelled(keys)
    ensures HasText(RedactKeyValues(keys, s)) ==> HasText(s)
    decreases |s|
  {
    if s == [] {
    } else {
      match FindKey(keys, s)
      case Some(key) => KeyStarts(keys, key, s);
      case None =>
        KeysKeepText(keys, s[1..]);
        assert RedactKeyValues(keys, s)[1..] == RedactKeyValues(keys, s[1..]);
    }
  }

  /** A match starts with a letter, and so does its replacement. */
  lemma KeyStarts(keys: seq<string>, key: string, s: string)
    requires Spelled(keys)
    requires key in keys && KeyValueAt(key, s)
    ensures |key| < |s|
    ensures !IsSpace(s[0]) && s[0] != '=' && s[0] != ':'
  {
    KeyFits(key, s);
    assert KeyChar(Lower(s[0]));
  }

  lemma {:induction false} KeysKeepSeparated(keys: seq<string>, s: string)
    requires Spelled(keys)
    ensures SeparatedValue(RedactKeyValues(keys, s)) ==> SeparatedValue(s)
    decreases |s|
  {
    if s == [] {
    } else {
      match FindKey(keys, s)
      case Some(key) =>
        KeyStarts(keys, key, s);
        assert RedactKeyValues(keys, s)[0] == s[0];
      case None =>
        KeysKeepSeparated(keys, s[1..]);
        KeysKeepText(keys, s[1..]);
        assert RedactKeyValues(keys, s)[1..] == RedactKeyValues(keys, s[1..]);
    }
  }

  /** The first `n` characters of `s` and `t` are the same. */
  predicate Agree(n: nat, s: string, t: string) {
    n == 0 || (s != [] && t != [] && s[0] == t[0] && Agree(n - 1, s[1..], t[1..]))
  }

  lemma {:induction false} AgreeSlices(n: nat, s: string, t: string)
    requires n <= |s| && n <= |t| && s[..n] == t[..n]
    ensures Agree(n, s, t)
  {
    if n == 0 {
    } else {
      assert s[0] == s[..n][0] == t[..n][0] == t[0];
      assert s[1..][..n - 1] == s[..n][1..] == t[..n][1..] == t[1..][..n - 1];
      AgreeSlices(n - 1, s[1..], t[1..]);
    }
  }

  lemma {:induction false} AgreeTail(n: nat, s: string, t: string, k: nat)
    requires Agree(n, s, t) && k <= n
    ensures k <= |s| && k <= |t| && Agree(n - k, s[k..], t[k..])
  {
    if k > 0 {
      AgreeTail(n - 1, s[1..], t[1..], k - 1);
      assert s[1..][k - 1..] == s[k..] && t[1..][k - 1..] == t[k..];
    } else {
      assert s[0..] == s && t[0..] == t;
    }
  }

  /** If `t` has the letters of the key end `a` and then no key letter, any key end found in `t` is as long as `a`. */
  lemma {:induction false} SameWord(a: string, b: string, s: string, t: string)
    requires KeyValueAt(a, s) && KeyValueAt(b, t) && KeyWord(a) && KeyWord(b)
    requires Agree(|a|, s, t) && |a| < |t| && !KeyChar(Lower(t[|a|]))
    ensures |a| == |b|
    decreases |a|
  {
    if a != [] && b != [] {
      assert t[1..][|a[1..]|] == t[|a|];
      SameWord(a[1..], b[1..], s[1..], t[1..]);
    }
  }

  /** A key end as long as one read in `s` can be read in `s` too when the letters agree. */
  lemma {:induction false} SameLetters(a: string, b: string, s: string, t: string)
    requires KeyValueAt(a, s) && KeyValueAt(b, t) && |a| == |b| && Agree(|a|, s, t)
    ensures KeyValueAt(b, s)
    decreases |a|
  {
    if a == [] {
    } else {
      SameLetters(a[1..], b[1..], s[1..], t[1..]);
    }
  }

  /** A key and value pair in the output of the first pass was one in its input. */
  lemma {:induction false} KeysKeepPairs(keys: seq<string>, word: string, s: string)
    requires Spelled(keys)
    requires KeyWord(word)
    ensures KeyValueAt(word, RedactKeyValues(keys, s)) ==> KeyValueAt(word, s)
    decreases |s|
  {
    var t := RedactKeyValues(keys, s);
    if s != [] && KeyValueAt(word, t) {
      match FindKey(keys, s)
      case Some(key) =>
        KeyFits(key, s);
        AgreeSlices(|key|, s, t);
        assert t[|key|] == '=';
        SameWord(key, word, s, t);
        SameLetters(key, word, s, t);
      case None =>
        assert t[1..] == RedactKeyValues(keys, s[1..]);
        if word == [] {
          KeysKeepSeparated(keys, s);
        } else {
          KeysKeepPairs(keys, word[1..], s[1..]);
        }
    } else if s == [] && KeyValueAt(word, t) {
      KeyFits(word, t);
    }
  }

  // ---------- the first pass leaves clean keys ----------

  lemma {:induction false} CleanSuffix(keys: seq<string>, s: string, k: nat)
    requires Spelled(keys)
    requires KeysClean(keys, s) && k <= |s|
    ensures KeysClean(keys, s[k..])
  {
    if k > 0 {
      CleanSuffix(keys, s[1..], k - 1);
      assert s[1..][k - 1..] == s[k..];
    } else {
      assert s[0..] == s;
    }
  }

  lemma KeyTwo(keys: seq<string>, key: string, s: string)
    requires Spelled(keys)
    requires key in keys && KeyValueAt(key, s)
    ensures |s| > 2 && KeyStart(Lower(s[0]), Lower(s[1]))
  {
    KeyFits(key, s);
    assert KeyValueAt(key[1..], s[1..]);
    assert s[1..][0] == s[1] && key[1..][0] == key[1];
  }

  lemma NoKeyHere(keys: seq<string>, s: string)
    requires Spelled(keys)
    requires |s| <= 2 || !KeyStart(Lower(s[0]), Lower(s[1]))
    ensures HeadClean(keys, s)
  {
    forall key | key in keys && KeyValueAt(key, s) ensures false {
      KeyTwo(keys, key, s);
    }
  }

  /** No key starts inside the mark. */
  lemma MarkHasNoKey(keys: seq<string>, s: string, k: nat)
    requires Spelled(keys)
    requires MARK <= s && k < |MARK|
    ensures HeadClean(keys, s[k..])
  {
    assert forall i :: 0 <= i < |MARK| ==> s[i] == MARK[i];
    assert k + 1 < |MARK| ==> !KeyStart(Lower(MARK[k]), Lower(MARK[k + 1]));
    NoKeyHere(keys, s[k..]);
  }

  lemma {:induction false} MarkThenClean(keys: seq<string>, s: string, k: nat)
    requires Spelled(keys)
    requires MARK <= s && k <= |MARK| && KeysClean(keys, s[|MARK|..])
    ensures KeysClean(keys, s[k..])
    decreases |MARK| - k
  {
    if k == |MARK| {
    } else {
      MarkHasNoKey(keys, s, k);
      MarkThenClean(keys, s, k + 1);
      assert s[k..][1..] == s[k + 1..];
    }
  }

  lemma {:induction false} KeyTail(word: string, s: string, k: nat)
    requires KeyValueAt(word, s) && k <= |word|
    ensures k <= |s| && KeyValueAt(word[k..], s[k..])
    decreases k
  {
    if k > 0 {
      KeyTail(word[1..], s[1..], k - 1);
      assert word[1..][k - 1..] == word[k..] && s[1..][k - 1..] == s[k..];
    } else {
      assert word[0..] == word && s[0..] == s;
    }
  }

  /** A key found inside another one ends with it. */
  lemma InnerKey(key: string, other: string, s: string, t: string, k: nat)
    requires KeyWord(key) && KeyWord(other) && KeyValueAt(key, s) && k < |key| < |t|
    requires Agree(|key|, s, t) && t[|key|] == '=' && KeyValueAt(other, t[k..])
    ensures |other| <= |t[k..]| && t[k..][|other|..] == t[|key|..]
  {
    KeyTail(key, s, k);
    AgreeTail(|key|, s, t, k);
    assert t[k..][|key[k..]|] == t[|key|];
    SameWord(key[k..], other, s[k..], t[k..]);
  }

  lemma InnerKeyClean(keys: seq<string>, key: string, s: string, t: string, k: nat)
    requires Spelled(keys)
    requires KeyWord(key) && KeyValueAt(key, s) && k < |key| < |t|
    requires Agree(|key|, s, t) && Marked(t[|key|..])
    ensures HeadClean(keys, t[k..])
  {
    assert t[|key|] == t[|key|..][0] == '=';
    forall other | other in keys && KeyValueAt(other, t[k..]) ensures |other| <= |t[k..]| && Marked(t[k..][|other|..]) {
      InnerKey(key, other, s, t, k);
    }
  }

  lemma {:induction false} KeyThenClean(keys: seq<string>, key: string, s: string, t: string, k: nat)
    requires Spelled(keys)
    requires KeyWord(key) && KeyValueAt(key, s) && k <= |key| < |t|
    requires Agree(|key|, s, t) && Marked(t[|key|..]) && KeysClean(keys, t[|key|..])
    ensures KeysClean(keys, t[k..])
    decreases |key| - k
  {
    if k == |key| {
    } else {
      InnerKeyClean(keys, key, s, t, k);
      KeyThenClean(keys, key, s, t, k + 1);
      assert t[k..][1..] == t[k + 1..];
    }
  }

  lemma StartsAlike(keys: seq<string>, s: string)
    requires Spelled(keys)
    ensures s == [] ==> RedactKeyValues(keys, s) == []
    ensures s != [] ==> RedactKeyValues(keys, s) != [] && RedactKeyValues(keys, s)[0] == s[0]
    ensures s == [] ==> RedactBearers(s) == []
    ensures s != [] && Lower(s[0]) != 'b' ==> RedactBearers(s) != [] && RedactBearers(s)[0] == s[0]
  {
    if s != [] && FindKey(keys, s).Some? {
      KeyStarts(keys, FindKey(keys, s).value, s);
      assert s[..|FindKey(keys, s).value|][0] == s[0];
    }
  }

  /** A replaced pair, followed by clean text that starts with a space or is empty, is clean. */
  lemma ReplacementClean(keys: seq<string>, key: string, s: string, rest: string)
    requires Spelled(keys)
    requires KeyWord(key) && KeyValueAt(key, s) && |key| <= |s|
    requires KeysClean(keys, rest) && (rest == [] || IsSpace(rest[0]))
    ensures KeysClean(keys, s[..|key|] + MARK + rest)
  {
    MarkClean(keys, rest);
    KeyBeforeMark(keys, key, s, MARK + rest);
    Associative(s[..|key|], MARK, rest);
  }

  lemma KeyBeforeMark(keys: seq<string>, key: string, s: string, u: string)
    requires Spelled(keys)
    requires KeyWord(key) && KeyValueAt(key, s) && |key| <= |s|
    requires KeysClean(keys, u) && Marked(u)
    ensures KeysClean(keys, s[..|key|] + u)
  {
    var t := s[..|key|] + u;
    assert t[|key|..] == u && t[..|key|] == s[..|key|];
    AgreeSlices(|key|, s, t);
    KeyThenClean(keys, key, s, t, 0);
    assert t[0..] == t;
  }

  lemma MarkClean(keys: seq<string>, rest: string)
    requires Spelled(keys)
    requires KeysClean(keys, rest) && (rest == [] || IsSpace(rest[0]))
    ensures KeysClean(keys, MARK + rest) && Marked(MARK + rest)
  {
    var u := MARK + rest;
    assert u[|MARK|..] == rest;
    MarkThenClean(keys, u, 0);
    assert u[0..] == u;
  }

  lemma {:induction false} FirstPassCleans(keys: seq<string>, s: string)
    requires Spelled(keys)
    ensures KeysClean(keys, RedactKeyValues(keys, s))
    decreases |s|
  {
    if s == [] {
    } else {
      match FindKey(keys, s)
      case Some(key) =>
        KeyFits(key, s);
        var rest := AfterValue(s[|key|..]);
        FirstPassCleans(keys, rest);
        StartsAlike(keys, rest);
        ReplacementClean(keys, key, s, RedactKeyValues(keys, rest));
      case None =>
        FirstPassCleans(keys, s[1..]);
        NothingNewAtHead(keys, s);
        assert RedactKeyValues(keys, s)[1..] == RedactKeyValues(keys, s[1..]);
    }
  }

  lemma NothingNewAtHead(keys: seq<string>, s: string)
    requires Spelled(keys)
    requires s != [] && FindKey(keys, s).None?
    ensures HeadClean(keys, RedactKeyValues(keys, s))
  {
    forall key | key in keys && KeyValueAt(key, RedactKeyValues(keys, s)) ensures false {
      KeysKeepPairs(keys, key, s);
    }
  }

  // ---------- the second pass ----------

  /** Text without a `b` passes the second pass unread. */
  lemma {:induction false} PassesUnread(a: string, s: string)
    requires forall i :: 0 <= i < |a| ==> Lower(a[i]) != 'b'
    ensures RedactBearers(a + s) == a + RedactBearers(s)
  {
    if a == [] {
      assert a + s == s;
    } else {
      PassesUnread(a[1..], s);
      Associative([a[0]], a[1..], s);
      assert a == [a[0]] + a[1..];
      OneUnread(a[0], a[1..] + s);
      Associative([a[0]], a[1..], RedactBearers(s));
    }
  }

  lemma OneUnread(c: char, s: string)
    requires Lower(c) != 'b'
    ensures RedactBearers([c] + s) == [c] + RedactBearers(s)
  {
    assert ([c] + s)[1..] == s;
    NoBearerStarts([c] + s);
  }

  lemma BearerStarts(s: string)
    requires BearerAt(BEARER, s)
    ensures Lower(s[0]) == 'b'
  {
  }

  /** The start of the output of the second pass is `B` or the start of its input. */
  lemma SecondPassHead(s: string)
    ensures s == [] ==> RedactBearers(s) == []
    ensures s != [] && BearerAt(BEARER, s) ==> RedactBearers(s) != [] && RedactBearers(s)[0] == 'B'
    ensures s != [] && !BearerAt(BEARER, s) ==>
              RedactBearers(s) != [] && RedactBearers(s)[0] == s[0] && RedactBearers(s)[1..] == RedactBearers(s[1..])
  {
  }

  lemma {:induction false} BearersKeepText(s: string)
    ensures HasText(RedactBearers(s)) ==> HasText(s)
    decreases |s|
  {
    SecondPassHead(s);
    if s == [] {
    } else {
      if BearerAt(BEARER, s) {
        BearerStarts(s);
      } else {
        BearersKeepText(s[1..]);
      }
    }
  }

  lemma {:induction false} BearersKeepSeparated(s: string)
    ensures SeparatedValue(RedactBearers(s)) ==> SeparatedValue(s)
    decreases |s|
  {
    SecondPassHead(s);
    if s != [] && !BearerAt(BEARER, s) {
      BearersKeepSeparated(s[1..]);
      BearersKeepText(s[1..]);
    }
  }

  /** A key and value pair in the output of the second pass was one in its input. */
  lemma {:induction false} BearersKeepPairs(word: string, s: string)
    requires KeyWord(word)
    ensures KeyValueAt(word, RedactBearers(s)) ==> KeyValueAt(word, s)
    decreases |s|
  {
    SecondPassHead(s);
    if s != [] {
      if word == [] {
        BearersKeepSeparated(s);
      } else if !BearerAt(BEARER, s) {
        BearersKeepPairs(word[1..], s[1..]);
      } else {
        assert KeyChar(word[0]);
      }
    } else if KeyValueAt(word, RedactBearers(s)) {
      KeyFits(word, RedactBearers(s));
    }
  }

  lemma {:induction false} NoBInKey(word: string, s: string)
    requires KeyWord(word) && KeyValueAt(word, s)
    ensures |word| <= |s| && forall i :: 0 <= i < |word| ==> Lower(s[i]) != 'b'
  {
    if word == [] {
    } else {
      NoBInKey(word[1..], s[1..]);
      assert forall i :: 0 < i < |word| ==> s[i] == s[1..][i - 1];
      assert KeyChar(word[0]);
    }
  }

  /** A clean head stays clean in the second pass. */
  lemma MarkSurvives(key: string, s: string)
    requires KeyWord(key) && KeyValueAt(key, s) && |key| <= |s| && Marked(s[|key|..])
    ensures |key| <= |RedactBearers(s)| && Marked(RedactBearers(s)[|key|..])
  {
    NoBInKey(key, s);
    var a, u := s[..|key|], s[|key|..];
    assert s == a + u;
    PassesUnread(a, u);
    MarkedSurvives(u);
    assert (a + RedactBearers(u))[|key|..] == RedactBearers(u);
  }

  lemma MarkedSurvives(s: string)
    requires Marked(s)
    ensures Marked(RedactBearers(s))
  {
    var rest := s[|MARK|..];
    assert s == MARK + rest;
    PassesUnread(MARK, rest);
    SecondPassHead(rest);
    assert rest != [] ==> rest[0] == s[|MARK|];
    if rest != [] && BearerAt(BEARER, rest) {
      BearerStarts(rest);
    }
  }

  lemma SecondPassHeadClean(keys: seq<string>, s: string)
    requires Spelled(keys)
    requires HeadClean(keys, s)
    ensures HeadClean(keys, RedactBearers(s))
  {
    forall key | key in keys && KeyValueAt(key, RedactBearers(s))
      ensures |key| <= |RedactBearers(s)| && Marked(RedactBearers(s)[|key|..])
    {
      BearersKeepPairs(key, s);
      MarkSurvives(key, s);
    }
  }

  lemma {:induction false} AfterTokenIsEnd(s: string)
    ensures exists k :: 0 <= k <= |s| && AfterToken(s) == s[k..]
  {
    SkipSpacesIsEnd(s);
    var i :| 0 <= i <= |s| && SkipSpaces(s) == s[i..];
    SkipTokenIsEnd(s[i..]);
    var j :| 0 <= j <= |s[i..]| && SkipToken(s[i..]) == s[i..][j..];
    assert s[i..][j..] == s[i + j..];
  }

  lemma {:induction false} SkipSpacesIsEnd(s: string)
    ensures exists k :: 0 <= k <= |s| && SkipSpaces(s) == s[k..]
  {
    if s != [] && IsSpace(s[0]) {
      SkipSpacesIsEnd(s[1..]);
      var k :| 0 <= k <= |s[1..]| && SkipSpaces(s[1..]) == s[1..][k..];
      assert s[1..][k..] == s[k + 1..];
    } else {
      assert s == s[0..];
    }
  }

  lemma {:induction false} SkipTokenIsEnd(s: string)
    ensures exists k :: 0 <= k <= |s| && SkipToken(s) == s[k..]
  {
    if s != [] && IsTokenChar(s[0]) {
      SkipTokenIsEnd(s[1..]);
      var k :| 0 <= k <= |s[1..]| && SkipToken(s[1..]) == s[1..][k..];
      assert s[1..][k..] == s[k + 1..];
    } else {
      assert s == s[0..];
    }
  }

  /** The letter at `i`, followed by `next`, begins no key. */
  predicate NoKeyFrom(mark: string, i: int, next: char) {
    0 <= i < |mark| && (i + 1 < |mark| ==> next == mark[i + 1]) ==> !KeyStart(Lower(mark[i]), Lower(next))
  }

  /** No key starts inside a mark without the first two letters of a key, whatever follows it. */
  lemma {:induction false} LettersClean(keys: seq<string>, mark: string, rest: string, k: nat)
    requires Spelled(keys) && KeysClean(keys, rest) && k <= |mark|
    requires forall i, next :: NoKeyFrom(mark, i, next)
    ensures KeysClean(keys, mark[k..] + rest)
    decreases |mark| - k
  {
    var u := mark[k..] + rest;
    if k == |mark| {
      assert mark[k..] == [];
      assert [] + rest == rest;
    } else {
      LettersClean(keys, mark, rest, k + 1);
      NextLetter(mark, k, rest);
      assert NoKeyFrom(mark, k, if |u| > 1 then u[1] else ' ');
      NoKeyHere(keys, u);
    }
  }

  lemma BearerMarkClean(keys: seq<string>, rest: string)
    requires Spelled(keys) && KeysClean(keys, rest)
    ensures KeysClean(keys, BEARER_MARK + rest)
  {
    forall i: int, next ensures NoKeyFrom(BEARER_MARK, i, next) {
      if 0 <= i < |BEARER_MARK| && (i + 1 < |BEARER_MARK| ==> next == BEARER_MARK[i + 1]) {
        BearerMarkLetters(i, next);
      }
    }
    LettersClean(keys, BEARER_MARK, rest, 0);
    assert BEARER_MARK[0..] == BEARER_MARK;
  }

  lemma NextLetter(mark: string, k: nat, rest: string)
    requires k < |mark|
    ensures var u := mark[k..] + rest;
            u[1..] == mark[k + 1..] + rest && u[0] == mark[k] && (k + 1 < |mark| ==> |u| > 1 && u[1] == mark[k + 1])
  {
  }

  lemma BearerMarkLetters(k: nat, next: char)
    requires k < |BEARER_MARK| && (k + 1 < |BEARER_MARK| ==> next == BEARER_MARK[k + 1])
    ensures !KeyStart(Lower(BEARER_MARK[k]), Lower(next))
  {
  }

  lemma {:induction false} SecondPassKeepsClean(keys: seq<string>, s: string)
    requires Spelled(keys)
    requires KeysClean(keys, s)
    ensures KeysClean(keys, RedactBearers(s))
    decreases |s|
  {
    if s == [] {
    } else {
      if BearerAt(BEARER, s) {
        BearerFits(BEARER, s);
        var tail := s[|BEARER|..];
        CleanSuffix(keys, s, |BEARER|);
        AfterTokenIsEnd(tail);
        var k :| 0 <= k <= |tail| && AfterToken(tail) == tail[k..];
        CleanSuffix(keys, tail, k);
        SecondPassKeepsClean(keys, AfterToken(tail));
        BearerMarkClean(keys, RedactBearers(AfterToken(tail)));
      } else {
        SecondPassKeepsClean(keys, s[1..]);
        SecondPassHeadClean(keys, s);
        SecondPassHead(s);
      }
    }
  }

  // ---------- no bearer token is left ----------

  lemma {:induction false} BearersKeepToken(s: string)
    ensures TokenAfterSpaces(RedactBearers(s)) ==> TokenAfterSpaces(s)
    decreases |s|
  {
    SecondPassHead(s);
    if s == [] {
    } else {
      if BearerAt(BEARER, s) {
        BearerStarts(s);
      } else {
        BearersKeepToken(s[1..]);
      }
    }
  }

  /** An end of the word `bearer`. */
  predicate BearerEnd(word: string) {
    |word| <= |BEARER| && word == BEARER[|BEARER| - |word|..]
  }

  /** A bearer token in the output of the second pass would have been one in its input. */
  lemma {:induction false} BearersKeepBearer(word: string, s: string)
    requires BearerEnd(word)
    requires word == BEARER ==> !BearerAt(BEARER, s)
    ensures BearerAt(word, RedactBearers(s)) ==> BearerAt(word, s)
    decreases |s|
  {
    SecondPassHead(s);
    if s == [] {
    } else {
      if !BearerAt(BEARER, s) {
        if word == [] {
          BearersKeepToken(s[1..]);
        } else {
          assert BearerEnd(word[1..]);
          BearersKeepBearer(word[1..], s[1..]);
        }
      }
    }
  }

  /** Nothing starts a token before the clean rest. */
  lemma {:induction false} MarkFree(mark: string, rest: string, k: nat)
    requires NoBearer(rest) && 0 < k <= |mark| && forall i :: 0 < i < |mark| ==> Lower(mark[i]) != 'b'
    ensures NoBearer(mark[k..] + rest)
    decreases |mark| - k
  {
    if k == |mark| {
      assert mark[k..] == [];
      assert [] + rest == rest;
    } else {
      MarkFree(mark, rest, k + 1);
      NextLetter(mark, k, rest);
      NoBearerStarts(mark[k..] + rest);
    }
  }

  /** The mark of a bearer token starts no token itself. */
  lemma BearerMarkFree(rest: string)
    requires NoBearer(rest)
    ensures NoBearer(BEARER_MARK + rest)
  {
    forall i | 0 < i < |BEARER_MARK| ensures Lower(BEARER_MARK[i]) != 'b' {
      OneBInMark(i);
    }
    MarkFree(BEARER_MARK, rest, 1);
    NextLetter(BEARER_MARK, 0, rest);
    assert BEARER_MARK[0..] == BEARER_MARK;
    MarkIsNoToken(rest);
  }

  lemma OneBInMark(k: nat)
    requires 0 < k < |BEARER_MARK|
    ensures Lower(BEARER_MARK[k]) != 'b'
  {
  }

  lemma NoBearerStarts(s: string)
    requires s != [] && Lower(s[0]) != 'b'
    ensures !BearerAt(BEARER, s)
  {
    if BearerAt(BEARER, s) {
      BearerStarts(s);
    }
  }

  lemma MarkIsNoToken(rest: string)
    ensures !BearerAt(BEARER, BEARER_MARK + rest)
  {
    var u := BEARER_MARK + rest;
    assert u[|BEARER| + 1] == BEARER_MARK[|BEARER| + 1] == '[';
    NoTokenHere(u[|BEARER| + 1..]);
    if BearerAt(BEARER, u) {
      BearerTail(BEARER, u);
    }
  }

  lemma NoTokenHere(s: string)
    requires s != [] && !IsTokenChar(s[0]) && !IsSpace(s[0])
    ensures !TokenAfterSpaces(s)
  {
  }

  lemma {:induction false} BearerTail(word: string, s: string)
    requires BearerAt(word, s)
    ensures |word| < |s| && TokenAfterSpaces(s[|word| + 1..])
    decreases |word|
  {
    if word == [] {
    } else {
      BearerTail(word[1..], s[1..]);
      assert s[1..][|word[1..]| + 1..] == s[|word| + 1..];
    }
  }

  lemma {:induction false} SecondPassFrees(s: string)
    ensures NoBearer(RedactBearers(s))
    decreases |s|
  {
    if s == [] {
      assert RedactBearers(s) == [] && NoBearer([]);
    } else {
      if BearerAt(BEARER, s) {
        BearerFits(BEARER, s);
        SecondPassFrees(AfterToken(s[|BEARER|..]));
        BearerMarkFree(RedactBearers(AfterToken(s[|BEARER|..])));
        assert RedactBearers(s) == BEARER_MARK + RedactBearers(AfterToken(s[|BEARER|..]));
      } else {
        SecondPassFrees(s[1..]);
        SecondPassHead(s);
        assert BearerEnd(BEARER);
        BearersKeepBearer(BEARER, s);
        assert !BearerAt(BEARER, RedactBearers(s));
      }
    }
  }

  // ---------- main results ----------

  /** Redacted text shows no value of a secret-like key and no bearer token. */
  lemma RedactedShowsNoSecret(s: string)
    ensures KeysClean(KEYS, RedactText(s)) && NoBearer(RedactText(s))
  {
    KeysAreSpelled();
    FirstPassCleans(KEYS, s);
    SecondPassKeepsClean(KEYS, RedactKeyValues(KEYS, s));
    SecondPassFrees(RedactKeyValues(KEYS, s));
  }

  lemma {:induction false} NoBearerFixed(s: string)
    requires NoBearer(s)
    ensures RedactBearers(s) == s
  {
    if s == [] {
    } else {
      NoBearerFixed(s[1..]);
    }
  }

  /** Taking the mark as the value of a key gives the same text back. */
  lemma MarkReplaced(s: string)
    requires Marked(s) && SeparatedValue(s)
    ensures s == MARK + AfterValue(s)
  {
    assert s[0] == '=' && SkipSpaces(s) == s;
    var u := s[1..];
    assert u[0] == '[' && SkipSpaces(u) == u;
    MarkSkipped(u, |MARK| - 1);
    assert u[|MARK| - 1..] == s[|MARK|..];
  }

  lemma {:induction false} MarkSkipped(u: string, n: nat)
    requires n <= |u| && (forall i :: 0 <= i < n ==> !IsSpace(u[i])) && (n == |u| || IsSpace(u[n]))
    ensures SkipText(u) == u[n..]
    decreases n
  {
    if n == 0 {
    } else {
      MarkSkipped(u[1..], n - 1);
      assert u[1..][n - 1..] == u[n..];
    }
  }

  lemma CleanMatch(keys: seq<string>, key: string, s: string)
    requires Spelled(keys)
    requires KeysClean(keys, s) && key in keys && KeyValueAt(key, s) && |key| <= |s| && SeparatedValue(s[|key|..])
    ensures s == s[..|key|] + MARK + AfterValue(s[|key|..])
    ensures KeysClean(keys, AfterValue(s[|key|..]))
  {
    CleanMarked(keys, key, s);
    MarkReplaced(s[|key|..]);
    Rejoined(s, |key|, MARK, AfterValue(s[|key|..]));
    CleanSuffix(keys, s, |key|);
    CleanAfterMark(keys, s[|key|..], AfterValue(s[|key|..]));
  }

  lemma CleanMarked(keys: seq<string>, key: string, s: string)
    requires KeysClean(keys, s) && key in keys && KeyValueAt(key, s) && |key| <= |s|
    ensures Marked(s[|key|..])
  {
  }

  lemma Rejoined(s: string, k: nat, a: string, b: string)
    requires k <= |s| && s[k..] == a + b
    ensures s == s[..k] + a + b
  {
    Associative(s[..k], a, b);
    assert s == s[..k] + s[k..];
  }

  lemma CleanAfterMark(keys: seq<string>, tail: string, rest: string)
    requires Spelled(keys) && KeysClean(keys, tail) && tail == MARK + rest
    ensures KeysClean(keys, rest)
  {
    CleanSuffix(keys, tail, |MARK|);
    assert tail[|MARK|..] == rest;
  }

  lemma {:induction false} KeysCleanFixed(keys: seq<string>, s: string)
    requires Spelled(keys)
    requires KeysClean(keys, s)
    ensures RedactKeyValues(keys, s) == s
    decreases |s|
  {
    if s == [] {
    } else {
      match FindKey(keys, s)
      case Some(key) =>
        KeyFits(key, s);
        CleanMatch(keys, key, s);
        KeysCleanFixed(keys, AfterValue(s[|key|..]));
      case None =>
        KeysCleanFixed(keys, s[1..]);
    }
  }

  /**
   Redaction leaves a text alone exactly when it shows no secret; the guards of propose and apply,
   which compare a text with its redaction, therefore accept exactly such texts.
   */
  lemma UnchangedExactlyWhenClean(s: string)
    ensures RedactText(s) == s <==> KeysClean(KEYS, s) && NoBearer(s)
  {
    RedactedShowsNoSecret(s);
    if KeysClean(KEYS, s) && NoBearer(s) {
      KeysAreSpelled();
      KeysCleanFixed(KEYS, s);
      NoBearerFixed(s);
    }
  }

  /** Redacting a second time changes nothing. */
  lemma RedactionIsIdempotent(s: string)
    ensures RedactText(RedactText(s)) == RedactText(s)
  {
    RedactedShowsNoSecret(s);
    UnchangedExactlyWhenClean(RedactText(s));
  }
}
