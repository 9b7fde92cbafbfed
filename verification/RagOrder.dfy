/**
 Retrieval told by words, counts, references and indexes: what a query's words
 are, what a score counts, which chunks may be returned and in what order.
 */
module RagOrder {
  import opened Domain
  import opened Ordering
  import opened Rag
  import opened RagProjection
  import opened RagRetrieval
  import opened Sequences
  import opened Text

  // ---------- words ----------

  /** The text between the two places is a word: no white space in it, and white space or an end around it. */
  ghost predicate WordAt(query: string, from: nat, to: nat) {
    && from < to <= |query|
    && (forall k :: from <= k < to ==> !IsSpace(query[k]))
    && (from == 0 || IsSpace(query[from - 1])) && (to == |query| || IsSpace(query[to]))
  }

  /** A character at `k` is in one of the words. */
  ghost predicate InAWord(at: seq<(nat, nat)>, k: nat) {
    exists w :: w in at && w.0 <= k < w.1
  }

  /** The terms are the words from `n` on, in order, and every character that is no white space is in one of them. */
  ghost predicate WordsFrom(query: string, n: nat, terms: seq<string>, at: seq<(nat, nat)>) {
    && |at| == |terms|
    && (forall i :: 0 <= i < |at| ==> n <= at[i].0 && WordAt(query, at[i].0, at[i].1)
                                      && terms[i] == query[at[i].0..at[i].1])
    && (forall i, j :: 0 <= i < j < |at| ==> at[i].1 < at[j].0)
    && (forall k :: n <= k < |query| && !IsSpace(query[k]) ==> InAWord(at, k))
  }

  lemma WordBefore(w: (nat, nat), at: seq<(nat, nat)>, k: nat)
    ensures InAWord([w] + at, k) <==> w.0 <= k < w.1 || InAWord(at, k)
  {
    assert forall x :: x in [w] + at <==> x == w || x in at;
  }

  lemma WordsFromNext(query: string, from: nat, to: nat, rest: seq<string>, at: seq<(nat, nat)>)
    requires WordAt(query, from, to) && WordsFrom(query, to, rest, at)
    ensures WordsFrom(query, from, [query[from..to]] + rest, [(from, to)] + at)
  {
    var terms, places := [query[from..to]] + rest, [(from, to)] + at;
    forall i | 0 <= i < |places|
      ensures from <= places[i].0 && WordAt(query, places[i].0, places[i].1)
              && terms[i] == query[places[i].0..places[i].1]
    {
      assert i > 0 ==> places[i] == at[i - 1] && terms[i] == rest[i - 1];
    }
    forall i, j | 0 <= i < j < |places| ensures places[i].1 < places[j].0 {
      assert places[j] == at[j - 1] && !IsSpace(query[at[j - 1].0]);
      assert i > 0 ==> places[i] == at[i - 1];
    }
    forall k | from <= k < |query| && !IsSpace(query[k]) ensures InAWord(places, k) {
      WordBefore((from, to), at, k);
    }
  }

  lemma WordsFromSkip(query: string, n: nat, terms: seq<string>, at: seq<(nat, nat)>)
    requires n < |query| && IsSpace(query[n]) && WordsFrom(query, n + 1, terms, at)
    ensures WordsFrom(query, n, terms, at)
  {
  }

  lemma {:induction false} WordEnds(s: string)
    ensures forall k :: 0 <= k < |Word(s)| ==> !IsSpace(s[k])
    ensures |Word(s)| < |s| ==> IsSpace(s[|Word(s)|])
  {
    if s != [] && !IsSpace(s[0]) {
      WordEnds(s[1..]);
      assert forall k :: 0 < k < |Word(s)| ==> s[k] == s[1..][k - 1];
    }
  }

  lemma FirstWordAt(query: string, n: nat)
    requires n < |query| && !IsSpace(query[n]) && (n == 0 || IsSpace(query[n - 1]))
    ensures var to := n + |Word(query[n..])|; WordAt(query, n, to) && query[n..to] == Word(query[n..])
  {
    var tail := query[n..];
    WordEnds(tail);
    assert Word(tail) == tail[..|Word(tail)|];
    forall k | n <= k < n + |Word(tail)| ensures !IsSpace(query[k]) {
      assert query[k] == tail[k - n];
    }
  }

  lemma FirstWord(query: string, n: nat) returns (to: nat)
    requires n < |query| && !IsSpace(query[n]) && (n == 0 || IsSpace(query[n - 1]))
    ensures WordAt(query, n, to) && Terms(query[n..]) == [query[n..to]] + Terms(query[to..])
  {
    to := n + |Word(query[n..])|;
    FirstWordAt(query, n);
    FirstTerm(query[n..]);
    assert query[n..][|Word(query[n..])|..] == query[to..];
  }

  /** No word goes on across this place. */
  predicate Boundary(query: string, n: nat)
    requires n <= |query|
  {
    n == 0 || n == |query| || IsSpace(query[n]) || IsSpace(query[n - 1])
  }

  lemma NoTermsLeft(query: string)
    ensures WordsFrom(query, |query|, Terms(query[|query|..]), [])
  {
  }

  lemma SpaceSkipped(query: string, n: nat)
    requires n < |query| && IsSpace(query[n])
    ensures Terms(query[n..]) == Terms(query[n + 1..])
  {
    assert query[n..][1..] == query[n + 1..];
  }

  lemma {:induction false} TermsFrom(query: string, n: nat) returns (at: seq<(nat, nat)>)
    requires n <= |query| && Boundary(query, n)
    ensures WordsFrom(query, n, Terms(query[n..]), at)
    decreases |query| - n
  {
    if n == |query| {
      NoTermsLeft(query);
      at := [];
    } else if IsSpace(query[n]) {
      SpaceSkipped(query, n);
      at := TermsFrom(query, n + 1);
      WordsFromSkip(query, n, Terms(query[n + 1..]), at);
    } else {
      var to := FirstWord(query, n);
      at := TermsFrom(query, to);
      WordsFromNext(query, n, to, Terms(query[to..]), at);
      at := [(n, to)] + at;
    }
  }

  /** The terms of a query are all its words, in order. */
  lemma TermsExactly(query: string) returns (at: seq<(nat, nat)>)
    ensures WordsFrom(query, 0, Terms(query), at)
  {
    assert query[0..] == query;
    at := TermsFrom(query, 0);
  }

  // ---------- scores ----------

  /** Apart from case the term stands in the text from `p` on. */
  predicate StandsAt(term: string, text: string, p: nat) {
    p + |term| <= |text| && forall k :: 0 <= k < |term| ==> Lower(text[p + k]) == Lower(term[k])
  }

  ghost predicate Occurs(term: string, text: string) {
    exists p: nat :: StandsAt(term, text, p)
  }

  lemma StandsExactly(term: string, text: string, p: nat)
    requires p <= |text|
    ensures StandsAt(term, text, p) <==> LowerAll(term) <= LowerAll(text)[p..]
  {
    var t, x := LowerAll(term), LowerAll(text)[p..];
    if StandsAt(term, text, p) {
      assert forall k :: 0 <= k < |t| ==> x[k] == LowerAll(text)[p + k] == t[k];
      assert x[..|t|] == t;
    }
    if t <= x {
      forall k | 0 <= k < |term| ensures Lower(text[p + k]) == Lower(term[k]) {
        assert t[k] == x[k] == LowerAll(text)[p + k];
      }
    }
  }

  lemma OccursExactly(term: string, text: string)
    ensures OccursIn(text)(term) <==> Occurs(term, text)
  {
    if OccursIn(text)(term) {
      var p :| 0 <= p <= |LowerAll(text)| && LowerAll(term) <= LowerAll(text)[p..];
      StandsExactly(term, text, p);
    }
    if Occurs(term, text) {
      var p: nat :| StandsAt(term, text, p);
      StandsExactly(term, text, p);
    }
  }

  /** The places of the terms that occur in the text. */
  ghost function Hits(terms: seq<string>, text: string): set<nat> {
    set i: nat | i < |terms| && Occurs(terms[i], text)
  }

  lemma HitsNext(terms: seq<string>, n: nat, text: string)
    requires |terms| == n + 1
    ensures |Hits(terms, text)| == |Hits(terms[..n], text)| + if Occurs(terms[n], text) then 1 else 0
  {
    var before := Hits(terms[..n], text);
    if Occurs(terms[n], text) {
      assert Hits(terms, text) == before + {n};
    } else {
      assert Hits(terms, text) == before;
    }
  }

  lemma {:induction false} FilterCounts(terms: seq<string>, text: string)
    ensures |Filter(terms, OccursIn(text))| == |Hits(terms, text)|
  {
    if terms == [] {
      assert Hits(terms, text) == {};
    } else {
      var n := |terms| - 1;
      assert terms[..n + 1] == terms;
      FilterCounts(terms[..n], text);
      FilterNext(terms, n, OccursIn(text));
      OccursExactly(terms[n], text);
      HitsNext(terms, n, text);
    }
  }

  /** A score counts the words of the query that occur in the text, a repeated word as often as it is repeated. */
  lemma ScoreCounts(query: string, text: string)
    ensures Score(query, text) == |Hits(Terms(query), text)|
  {
    FilterCounts(Terms(query), text);
  }

  // ---------- which chunks ----------

  /** A scope asks for nothing but what the other one has. */
  predicate Inside(requested: Scope, actual: Scope) {
    && (requested.hostId == None || requested.hostId == actual.hostId)
    && (requested.providerId == None || requested.providerId == actual.providerId)
    && (requested.projectId == None || requested.projectId == actual.projectId)
  }

  predicate InAllowedScope(config: Config, scope: Scope) {
    config.allowedScopes == [] || exists allowed <- config.allowedScopes :: Inside(allowed, scope)
  }

  lemma ScopeAllowedExactly(config: Config, scope: Scope)
    ensures ScopeAllowed(config, scope) <==> InAllowedScope(config, scope)
  {
    forall allowed | allowed in config.allowedScopes ensures ScopeMatches(allowed, scope) <==> Inside(allowed, scope) {
    }
  }

  /** The document may be indexed: of an allowed scope, active, and not like a secret. */
  predicate Fit(config: Config, d: Document) {
    InAllowedScope(config, d.scope) && d.lifecycle == Active && d.sensitivity != SecretLike
  }

  lemma AcceptedExactly(config: Config, d: Document)
    ensures Accepted(config, d) <==> Fit(config, d)
  {
    ScopeAllowedExactly(config, d.scope);
  }

  /** The chunk may be returned for the query. */
  predicate MayBeReturned(query: string, scope: Scope, c: Chunk) {
    c.lifecycle == Active && c.sensitivity != SecretLike && Inside(scope, c.scope) && Score(query, c.text) >= 1
  }

  lemma EligibleExactly(query: string, scope: Scope, c: Chunk)
    ensures Eligible(query, scope)(c) <==> MayBeReturned(query, scope, c)
  {
  }

  // ---------- in which order ----------

  /**
   More words of the query occur; or as many, and the reference precedes; or the reference is the same and the
   index is no larger.
   */
  ghost predicate ComesFirst(query: string, a: Chunk, b: Chunk) {
    || Score(query, a.text) > Score(query, b.text)
    || (Score(query, a.text) == Score(query, b.text) && Precedes(a.sourceReference, b.sourceReference))
    || (Score(query, a.text) == Score(query, b.text) && a.sourceReference == b.sourceReference && a.index <= b.index)
  }

  lemma RankExactly(query: string, a: Chunk, b: Chunk)
    ensures RankLe(query, a, b) <==> ComesFirst(query, a, b)
  {
    TextLessExactly(a.sourceReference, b.sourceReference);
  }

  /** Together the two lists hold the chunks that may be returned, each as often as it is there. */
  ghost predicate AllThatMay(chunks: seq<Chunk>, query: string, scope: Scope, chosen: seq<Chunk>, left: seq<Chunk>) {
    forall c :: multiset(chosen)[c] + multiset(left)[c] ==
                if MayBeReturned(query, scope, c) then multiset(chunks)[c] else 0
  }

  /** Each item and citation is that of the chosen chunk at its place. */
  ghost predicate MadeOf(r: Context, chosen: seq<Chunk>) {
    && |r.items| == |chosen| && |r.citations| == |chosen|
    && forall i :: 0 <= i < |chosen| ==>
         var c := chosen[i];
         && r.items[i] == c.title + ": " + c.text
         && r.citations[i] == Citation(c.recordId, c.sourceReference, c.sourceHash, c.index)
  }

  /**
   The chosen are in order, a chunk that may be returned is left out only when the limit is reached, and none
   that is left out comes before one that is chosen.
   */
  ghost predicate Best(
    chunks: seq<Chunk>, query: string, scope: Scope, limit: nat, chosen: seq<Chunk>, left: seq<Chunk>)
  {
    && AllThatMay(chunks, query, scope, chosen, left)
    && |chosen| <= limit && (left != [] ==> |chosen| == limit)
    && (forall i, j :: 0 <= i < j < |chosen| ==> ComesFirst(query, chosen[i], chosen[j]))
    && (forall c, d :: c in chosen && d in left ==> ComesFirst(query, c, d))
  }

  /** A retrieval returns the best chunks: a better score first, then the smaller reference, then the smaller index. */
  lemma TopK(config: Config, chunks: seq<Chunk>, query: string, scope: Scope, limit: nat)
    returns (chosen: seq<Chunk>, left: seq<Chunk>)
    ensures MadeOf(Retrieval(config, chunks, query, scope, limit), chosen)
    ensures Best(chunks, query, scope, limit, chosen, left)
  {
    var eligible := Filter(chunks, Eligible(query, scope));
    var ranked := Ranked(chunks, query, scope);
    RankOrder(query);
    SortSorted(eligible, Ranking(query));
    FirstOfSorted(ranked, Ranking(query), limit);
    chosen := Take(ranked, limit);
    left := ranked[|chosen|..];
    SplitBag(chunks, query, scope, chosen, left);
    InOrder(query, chosen);
    forall c, d | c in chosen && d in left ensures ComesFirst(query, c, d) {
      assert Ranking(query)(c, d);
      RankExactly(query, c, d);
    }
  }

  lemma InOrder(query: string, s: seq<Chunk>)
    requires SortedBy(s, Ranking(query))
    ensures forall i, j :: 0 <= i < j < |s| ==> ComesFirst(query, s[i], s[j])
  {
    forall i, j | 0 <= i < j < |s| ensures ComesFirst(query, s[i], s[j]) {
      assert Ranking(query)(s[i], s[j]);
      RankExactly(query, s[i], s[j]);
    }
  }

  lemma SplitBag(chunks: seq<Chunk>, query: string, scope: Scope, chosen: seq<Chunk>, left: seq<Chunk>)
    requires multiset(chosen + left) == multiset(Filter(chunks, Eligible(query, scope)))
    ensures AllThatMay(chunks, query, scope, chosen, left)
  {
    forall c ensures multiset(chosen)[c] + multiset(left)[c] ==
                     if MayBeReturned(query, scope, c) then multiset(chunks)[c] else 0 {
      assert multiset(chosen + left)[c] == multiset(chosen)[c] + multiset(left)[c];
      FilterMultiset(chunks, Eligible(query, scope));
      EligibleExactly(query, scope, c);
    }
  }

  /** The table is read back by record, and by index within a record. */
  lemma StoredInOrder(rows: seq<Chunk>)
    ensures multiset(Stored(rows)) == multiset(rows)
    ensures forall i, j :: 0 <= i < j < |rows| ==>
              var a, b := Stored(rows)[i], Stored(rows)[j];
              Precedes(a.recordId, b.recordId) || (a.recordId == b.recordId && a.index <= b.index)
  {
    RowOrder();
    SortSorted(rows, RowLe);
    assert |multiset(Stored(rows))| == |Stored(rows)| && |multiset(rows)| == |rows|;
    forall i, j | 0 <= i < j < |rows|
      ensures var a, b := Stored(rows)[i], Stored(rows)[j];
              Precedes(a.recordId, b.recordId) || (a.recordId == b.recordId && a.index <= b.index)
    {
      assert RowLe(Stored(rows)[i], Stored(rows)[j]);
      TextLessExactly(Stored(rows)[i].recordId, Stored(rows)[j].recordId);
    }
  }

  // ---------- evaluation ----------

  /** The places of the records that a citation names. */
  ghost function CitedAt(citations: seq<Citation>, records: seq<string>): set<nat> {
    set i: nat | i < |records| && exists c :: c in citations && c.recordId == records[i]
  }

  lemma CitedAtNext(citations: seq<Citation>, records: seq<string>, n: nat)
    requires |records| == n + 1
    ensures |CitedAt(citations, records)| ==
            |CitedAt(citations, records[..n])| + if records[n] in CitedRecords(citations) then 1 else 0
  {
    var before := CitedAt(citations, records[..n]);
    if records[n] in CitedRecords(citations) {
      assert CitedAt(citations, records) == before + {n};
    } else {
      assert CitedAt(citations, records) == before;
    }
  }

  lemma {:induction false} CountCited(citations: seq<Citation>, records: seq<string>)
    ensures |Filter(records, InSet(CitedRecords(citations)))| == |CitedAt(citations, records)|
  {
    if records == [] {
      assert CitedAt(citations, records) == {};
    } else {
      var n := |records| - 1;
      assert records[..n + 1] == records;
      CountCited(citations, records[..n]);
      FilterNext(records, n, InSet(CitedRecords(citations)));
      CitedAtNext(citations, records, n);
    }
  }

  /** What the report says of a case: how many items and citations its retrieval has, and how many records it cites. */
  lemma CaseExactly(config: Config, chunks: seq<Chunk>, limit: nat, c: EvaluationCase)
    ensures var r, found := CaseOutcome(config, chunks, limit, c), Retrieval(config, chunks, c.query, c.scope, limit);
            && r.id == c.id && r.items == |found.items| && r.citations == |found.citations|
            && r.expectedHits == |CitedAt(found.citations, c.expected)|
            && r.forbiddenHits == |CitedAt(found.citations, c.forbidden)|
  {
    var found := Retrieval(config, chunks, c.query, c.scope, limit);
    CountCited(found.citations, c.expected);
    CountCited(found.citations, c.forbidden);
  }
}
