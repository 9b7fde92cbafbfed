/** The scanners of the two redaction passes read exactly the patterns they stand for, as far as they go. */
module RedactionPattern {
  import opened Text
  import opened Redaction

  predicate AllText(s: string) {
    forall i :: 0 <= i < |s| ==> !IsSpace(s[i])
  }

  /** Up to `n`, `s` consists of spaces, a separator at `i`, spaces, and text from `j` on. */
  predicate ValueShape(s: string, i: nat, j: nat, n: nat) {
    && i < j < n <= |s|
    && Blank(s[..i]) && (s[i] == '=' || s[i] == ':')
    && Blank(s[i + 1..j]) && AllText(s[j..n])
  }

  lemma {:induction false} SpacesSpan(s: string)
    ensures var k := |s| - |SkipSpaces(s)|; Blank(s[..k]) && s[k..] == SkipSpaces(s)
  {
    if s != [] && IsSpace(s[0]) {
      SpacesSpan(s[1..]);
      var k := |s| - |SkipSpaces(s)|;
      assert s[1..][..k - 1] == s[1..k] && s[1..][k - 1..] == s[k..];
      assert s[..k] == [s[0]] + s[1..k];
    }
  }

  lemma {:induction false} TextSpan(s: string)
    ensures var k := |s| - |SkipText(s)|; AllText(s[..k]) && s[k..] == SkipText(s)
  {
    if s != [] && !IsSpace(s[0]) {
      TextSpan(s[1..]);
      var k := |s| - |SkipText(s)|;
      assert s[1..][..k - 1] == s[1..k] && s[1..][k - 1..] == s[k..];
      assert s[..k] == [s[0]] + s[1..k];
    }
  }

  lemma {:induction false} TextFound(s: string)
    requires HasText(s)
    ensures SkipSpaces(s) != []
  {
    if IsSpace(s[0]) {
      TextFound(s[1..]);
    }
  }

  /** What the scanner takes for a separated value has the shape of one. */
  lemma ScannedHasShape(s: string) returns (i: nat, j: nat)
    requires SeparatedValue(s)
    ensures ValueShape(s, i, j, |s| - |AfterValue(s)|)
  {
    SeparatorFound(s);
    SpacesSpan(s);
    i := |s| - |SkipSpaces(s)|;
    var t := SkipSpaces(s)[1..];
    assert t == s[i + 1..];
    var w := ScannedText(t);
    j := i + 1 + w;
    ShapeFromParts(s, i, w, |t| - |AfterValue(s)|);
  }

  lemma ShapeFromParts(s: string, i: nat, w: nat, n: nat)
    requires i < |s| && Blank(s[..i]) && (s[i] == '=' || s[i] == ':')
    requires w < n <= |s| - i - 1 && Blank(s[i + 1..][..w]) && AllText(s[i + 1..][w..n])
    ensures ValueShape(s, i, i + 1 + w, i + 1 + n)
  {
    SliceOfTail(s, i + 1, 0, w);
    SliceOfTail(s, i + 1, w, n);
    assert s[i + 1..][0..w] == s[i + 1..][..w];
  }

  lemma SliceOfTail<T>(s: seq<T>, m: nat, a: nat, b: nat)
    requires m <= |s| && a <= b <= |s| - m
    ensures s[m..][a..b] == s[m + a..m + b]
  {
  }

  lemma ScannedText(t: string) returns (w: nat)
    requires HasText(t)
    ensures w < |t| - |SkipText(SkipSpaces(t))| && Blank(t[..w]) && AllText(t[w..|t| - |SkipText(SkipSpaces(t))|])
  {
    SpacesSpan(t);
    TextFound(t);
    var u := SkipSpaces(t);
    w := |t| - |u|;
    TextSpan(u);
    assert t[w..|t| - |SkipText(u)|] == u[..|u| - |SkipText(u)|];
  }

  lemma {:induction false} SpacesForced(s: string, i: nat)
    requires i < |s| && Blank(s[..i]) && !IsSpace(s[i])
    ensures SkipSpaces(s) == s[i..]
    decreases i
  {
    if i == 0 {
    } else {
      assert s[..i][0] == s[0];
      assert s[1..][..i - 1] == s[..i][1..] && s[1..][i - 1..] == s[i..];
      SpacesForced(s[1..], i - 1);
    }
  }

  lemma {:induction false} TextAtLeast(s: string, n: nat)
    requires n <= |s| && AllText(s[..n])
    ensures |SkipText(s)| <= |s| - n
    decreases n
  {
    if n == 0 {
    } else {
      assert s[..n][0] == s[0];
      assert s[1..][..n - 1] == s[..n][1..];
      TextAtLeast(s[1..], n - 1);
    }
  }

  lemma {:induction false} SeparatorForced(s: string, i: nat)
    requires i < |s| && Blank(s[..i]) && (s[i] == '=' || s[i] == ':')
    ensures SeparatedValue(s) <==> HasText(s[i + 1..])
    decreases i
  {
    if i == 0 {
    } else {
      assert s[..i][0] == s[0];
      assert s[1..][..i - 1] == s[..i][1..] && s[1..][i..] == s[i + 1..];
      SeparatorForced(s[1..], i - 1);
    }
  }

  lemma {:induction false} TextSomewhere(s: string, k: nat)
    requires k < |s| && !IsSpace(s[k])
    ensures HasText(s)
    decreases k
  {
    if k == 0 {
    } else {
      TextSomewhere(s[1..], k - 1);
    }
  }

  /** Spaces and then text are scanned at least as far. */
  lemma TextIsScanned(t: string, m: nat, n: nat)
    requires m < n <= |t| && Blank(t[..m]) && AllText(t[m..n])
    ensures HasText(t) && n <= |t| - |SkipText(SkipSpaces(t))|
  {
    assert t[m..n][0] == t[m];
    TextSomewhere(t, m);
    SpacesForced(t, m);
    SliceOfTail(t, m, 0, n - m);
    assert t[m..][0..n - m] == t[m..][..n - m];
    TextAtLeast(t[m..], n - m);
  }

  /** Whatever has the shape of a separated value is found by the scanner, which reads at least as far. */
  lemma ShapeIsScanned(s: string, i: nat, j: nat, n: nat)
    requires ValueShape(s, i, j, n)
    ensures SeparatedValue(s) && n <= |s| - |AfterValue(s)|
  {
    var t := s[i + 1..];
    SliceOfTail(s, i + 1, 0, j - i - 1);
    SliceOfTail(s, i + 1, j - i - 1, n - i - 1);
    assert t[0..j - i - 1] == t[..j - i - 1];
    TextIsScanned(t, j - i - 1, n - i - 1);
    SeparatorForced(s, i);
    SpacesForced(s, i);
    assert s[i..][1..] == t;
  }

  /** `s` starts with `word` in any case. */
  predicate StartsWith(word: string, s: string) {
    |word| <= |s| && forall i :: 0 <= i < |word| ==> Lower(s[i]) == word[i]
  }

  /** The scanner finds a key and value pair exactly where the pattern matches. */
  lemma {:induction false} PairIsPattern(word: string, s: string)
    ensures KeyValueAt(word, s) <==>
            StartsWith(word, s) && exists i, j, n :: ValueShape(s[|word|..], i, j, n)
    decreases |word|
  {
    if word == [] {
      assert s[0..] == s;
      if SeparatedValue(s) {
        var i, j := ScannedHasShape(s);
      }
      if exists i, j, n :: ValueShape(s, i, j, n) {
        var i, j, n :| ValueShape(s, i, j, n);
        ShapeIsScanned(s, i, j, n);
      }
    } else if s != [] {
      PairIsPattern(word[1..], s[1..]);
      assert |word| <= |s| ==> s[1..][|word[1..]|..] == s[|word|..];
      StartsWithNext(word, s);
    }
  }

  // ---------- the bearer pattern ----------

  predicate AllToken(s: string) {
    forall i :: 0 <= i < |s| ==> IsTokenChar(s[i])
  }

  /** Up to `n`, `s` consists of at least one space and then, from `i` on, of token characters. */
  predicate TokenShape(s: string, i: nat, n: nat) {
    0 < i < n <= |s| && Blank(s[..i]) && AllToken(s[i..n])
  }

  lemma {:induction false} TokenSpan(s: string)
    ensures var k := |s| - |SkipToken(s)|; AllToken(s[..k]) && s[k..] == SkipToken(s)
  {
    if s != [] && IsTokenChar(s[0]) {
      TokenSpan(s[1..]);
      var k := |s| - |SkipToken(s)|;
      assert s[1..][..k - 1] == s[1..k] && s[1..][k - 1..] == s[k..];
      assert s[..k] == [s[0]] + s[1..k];
    }
  }

  lemma {:induction false} TokenFound(s: string)
    requires TokenAfterSpaces(s)
    ensures SkipSpaces(s) != [] && IsTokenChar(SkipSpaces(s)[0])
  {
    if IsSpace(s[0]) {
      TokenFound(s[1..]);
    }
  }

  /** What the scanner takes for a token has the shape of one. */
  lemma ScannedTokenHasShape(s: string) returns (i: nat)
    requires BearerAt([], s)
    ensures TokenShape(s, i, |s| - |AfterToken(s)|)
  {
    SpacesSpan(s);
    TokenFound(s[1..]);
    var u := SkipSpaces(s);
    i := |s| - |u|;
    TokenSpan(u);
    var n := |u| - |SkipToken(u)|;
    SliceOfTail(s, i, 0, n);
    assert u[0..n] == u[..n];
  }

  lemma {:induction false} TokenSomewhere(s: string, i: nat)
    requires i < |s| && Blank(s[..i]) && IsTokenChar(s[i])
    ensures TokenAfterSpaces(s)
    decreases i
  {
    if i == 0 {
    } else {
      assert s[..i][0] == s[0];
      assert s[1..][..i - 1] == s[..i][1..];
      TokenSomewhere(s[1..], i - 1);
    }
  }

  lemma {:induction false} TokenAtLeast(s: string, n: nat)
    requires n <= |s| && AllToken(s[..n])
    ensures |SkipToken(s)| <= |s| - n
    decreases n
  {
    if n == 0 {
    } else {
      assert s[..n][0] == s[0];
      assert s[1..][..n - 1] == s[..n][1..];
      TokenAtLeast(s[1..], n - 1);
    }
  }

  /** Whatever has the shape of a token is found by the scanner, which reads at least as far. */
  lemma TokenShapeIsScanned(s: string, i: nat, n: nat)
    requires TokenShape(s, i, n)
    ensures BearerAt([], s) && n <= |s| - |AfterToken(s)|
  {
    assert s[i..n][0] == s[i] && s[..i][0] == s[0];
    assert s[1..][..i - 1] == s[..i][1..];
    TokenSomewhere(s[1..], i - 1);
    SpacesForced(s, i);
    assert s[i..][..n - i] == s[i..n];
    TokenAtLeast(s[i..], n - i);
  }

  /** The scanner finds a bearer token exactly where the pattern matches. */
  lemma {:induction false} BearerIsPattern(word: string, s: string)
    ensures BearerAt(word, s) <==> StartsWith(word, s) && exists i, n :: TokenShape(s[|word|..], i, n)
    decreases |word|
  {
    if word == [] {
      assert s[0..] == s;
      if BearerAt([], s) {
        var i := ScannedTokenHasShape(s);
      }
      if exists i, n :: TokenShape(s, i, n) {
        var i, n :| TokenShape(s, i, n);
        TokenShapeIsScanned(s, i, n);
      }
    } else if s != [] {
      BearerIsPattern(word[1..], s[1..]);
      assert |word| <= |s| ==> s[1..][|word[1..]|..] == s[|word|..];
      StartsWithNext(word, s);
    }
  }

  lemma StartsWithNext(word: string, s: string)
    requires word != [] && s != []
    ensures StartsWith(word, s) <==> Lower(s[0]) == word[0] && StartsWith(word[1..], s[1..])
  {
    if StartsWith(word, s) {
      assert forall i :: 0 <= i < |word[1..]| ==> Lower(s[1..][i]) == word[1..][i];
    }
    if Lower(s[0]) == word[0] && StartsWith(word[1..], s[1..]) {
      forall i | 0 <= i < |word| ensures Lower(s[i]) == word[i] {
        if i > 0 {
          assert s[1..][i - 1] == s[i] && word[1..][i - 1] == word[i];
        }
      }
    }
  }
}
