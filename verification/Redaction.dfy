/**
 The redactor that guards stored excerpts and proposed changes: a pass that
 blanks the values of secret-like keys and then one that blanks bearer tokens.
 Text is ASCII; each pass replaces leftmost matches from left to right.
 */
module Redaction {
  import opened Sequences
  import opened Text

  const KEYS: seq<string> := ["api_key", "api-key", "apikey", "token", "password", "secret", "authorization"]
  const BEARER: string := "bearer"
  const MARK: string := "=[REDACTED]"
  const BEARER_MARK: string := "Bearer [REDACTED]"

  predicate IsTokenChar(c: char) {
    || 'a' <= c <= 'z' || 'A' <= c <= 'Z' || '0' <= c <= '9'
    || c == '.' || c == '_' || c == '~' || c == '+' || c == '/' || c == '=' || c == '-'
  }

  function SkipSpaces(s: string): (r: string)
    ensures |r| <= |s|
    ensures r != [] ==> !IsSpace(r[0])
  {
    if s != [] && IsSpace(s[0]) then SkipSpaces(s[1..]) else s
  }

  function SkipText(s: string): (r: string)
    ensures |r| <= |s|
    ensures r != [] ==> IsSpace(r[0])
  {
    if s != [] && !IsSpace(s[0]) then SkipText(s[1..]) else s
  }

  function SkipToken(s: string): (r: string)
    ensures |r| <= |s|
    ensures r != [] ==> !IsTokenChar(r[0])
  {
    if s != [] && IsTokenChar(s[0]) then SkipToken(s[1..]) else s
  }

  // ---------- the key and value pattern ----------

  predicate HasText(s: string) {
    s != [] && (!IsSpace(s[0]) || HasText(s[1..]))
  }

  /** Spaces, a separator, spaces and at least one character that is no space. */
  predicate SeparatedValue(s: string) {
    s != [] && if IsSpace(s[0]) then SeparatedValue(s[1..]) else (s[0] == '=' || s[0] == ':') && HasText(s[1..])
  }

  /** `s` starts with `word`, in any case, and goes on with a separated value. */
  predicate KeyValueAt(word: string, s: string)
    decreases |word|
  {
    if word == [] then SeparatedValue(s)
    else s != [] && Lower(s[0]) == word[0] && KeyValueAt(word[1..], s[1..])
  }

  function FindKey(keys: seq<string>, s: string): (r: Option<string>)
    ensures r.Some? ==> r.value in keys && KeyValueAt(r.value, s)
    ensures r.None? ==> forall key :: key in keys ==> !KeyValueAt(key, s)
  {
    if keys == [] then None
    else if KeyValueAt(keys[0], s) then Some(keys[0])
    else FindKey(keys[1..], s)
  }

  /** What follows the separator and value that `s` starts with. */
  function AfterValue(s: string): (r: string)
    requires SeparatedValue(s)
    ensures |r| < |s|
    ensures r != [] ==> IsSpace(r[0])
  {
    SeparatorFound(s);
    SkipText(SkipSpaces(SkipSpaces(s)[1..]))
  }

  lemma {:induction false} SeparatorFound(s: string)
    requires SeparatedValue(s)
    ensures SkipSpaces(s) != []
    ensures HasText(SkipSpaces(s)[1..]) && (SkipSpaces(s)[0] == '=' || SkipSpaces(s)[0] == ':')
  {
    if IsSpace(s[0]) {
      SeparatorFound(s[1..]);
    }
  }

  lemma {:induction false} KeyFits(word: string, s: string)
    requires KeyValueAt(word, s)
    ensures |word| < |s| && SeparatedValue(s[|word|..])
  {
    if word != [] {
      KeyFits(word[1..], s[1..]);
      assert s[1..][|word[1..]|..] == s[|word|..];
    } else {
      assert s[0..] == s;
    }
  }

  function RedactKeyValues(keys: seq<string>, s: string): string
    decreases |s|
  {
    if s == [] then []
    else match FindKey(keys, s)
      case Some(key) =>
        KeyFits(key, s);
        s[..|key|] + MARK + RedactKeyValues(keys, AfterValue(s[|key|..]))
      case None => [s[0]] + RedactKeyValues(keys, s[1..])
  }

  // ---------- the bearer pattern ----------

  predicate TokenAfterSpaces(s: string) {
    s != [] && (IsTokenChar(s[0]) || (IsSpace(s[0]) && TokenAfterSpaces(s[1..])))
  }

  predicate BearerAt(word: string, s: string)
    decreases |word|
  {
    if word == [] then s != [] && IsSpace(s[0]) && TokenAfterSpaces(s[1..])
    else s != [] && Lower(s[0]) == word[0] && BearerAt(word[1..], s[1..])
  }

  lemma {:induction false} BearerFits(word: string, s: string)
    requires BearerAt(word, s)
    ensures |word| < |s|
  {
    if word == [] {
    } else {
      BearerFits(word[1..], s[1..]);
    }
  }

  function AfterToken(s: string): (r: string)
    ensures |r| <= |s|
    ensures r != [] ==> !IsTokenChar(r[0])
  {
    SkipToken(SkipSpaces(s))
  }

  function RedactBearers(s: string): string
    decreases |s|
  {
    if s == [] then []
    else if BearerAt(BEARER, s) then
      BearerFits(BEARER, s);
      BEARER_MARK + RedactBearers(AfterToken(s[|BEARER|..]))
    else [s[0]] + RedactBearers(s[1..])
  }

  function RedactText(s: string): string {
    RedactBearers(RedactKeyValues(KEYS, s))
  }

  // ---------- redacted text ----------

  predicate Marked(s: string) {
    MARK <= s && (|s| == |MARK| || IsSpace(s[|MARK|]))
  }

  /** A secret-like key at the start of `s` has nothing but the mark as its value. */
  ghost predicate HeadClean(keys: seq<string>, s: string) {
    forall key :: key in keys && KeyValueAt(key, s) ==> |key| <= |s| && Marked(s[|key|..])
  }

  /** Every secret-like key in `s` has nothing but the mark as its value. */
  ghost predicate KeysClean(keys: seq<string>, s: string) {
    s == [] || (HeadClean(keys, s) && KeysClean(keys, s[1..]))
  }

  /** There is no bearer token anywhere in `s`. */
  ghost predicate NoBearer(s: string) {
    s == [] || (!BearerAt(BEARER, s) && NoBearer(s[1..]))
  }

  predicate KeyChar(c: char) {
    ('a' <= c <= 'z' && c != 'b') || c == '_' || c == '-'
  }

  /** The first two letters of a key. */
  predicate KeyStart(c: char, d: char) {
    (c == 'a' && (d == 'p' || d == 'u')) || (c == 't' && d == 'o') || (c == 'p' && d == 'a') || (c == 's' && d == 'e')
  }

  /** Made of letters that occur in keys. */
  predicate KeyWord(word: string) {
    forall i :: 0 <= i < |word| ==> KeyChar(word[i])
  }

  predicate GoodKey(key: string) {
    |key| > 2 && KeyWord(key) && KeyStart(key[0], key[1])
  }

  /** What matters about the spelling of the keys. */
  ghost predicate Spelled(keys: seq<string>) {
    forall i :: 0 <= i < |keys| ==> GoodKey(keys[i])
  }

  lemma SpelledConcat(a: seq<string>, b: seq<string>)
    requires Spelled(a) && Spelled(b)
    ensures Spelled(a + b)
  {
  }

  lemma KeysAreSpelled()
    ensures Spelled(KEYS)
  {
    var a := ["api_key", "api-key"];
    var b := ["apikey", "token", "password"];
    var c := ["secret", "authorization"];
    assert Spelled(a);
    assert Spelled(b);
    assert Spelled(c);
    SpelledConcat(a, b);
    SpelledConcat(a + b, c);
    assert KEYS == a + b + c;
  }
}
