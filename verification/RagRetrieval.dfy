/** What lexical retrieval returns, and when persisting the chunks leaves it unchanged. */
module RagRetrieval {
  import opened Domain
  import opened Ordering
  import opened Rag
  import opened RagProjection
  import opened Sequences
  import opened Text

  lemma RankTransitive(query: string, a: Chunk, b: Chunk, c: Chunk)
    requires RankLe(query, a, b) && RankLe(query, b, c)
    ensures RankLe(query, a, c)
  {
    if TextLess(a.sourceReference, b.sourceReference) && TextLess(b.sourceReference, c.sourceReference) {
      TextLessTransitive(a.sourceReference, b.sourceReference, c.sourceReference);
    }
  }

  lemma RankOrder(query: string)
    ensures TotalPreorder(Ranking(query))
  {
    forall a, b ensures Ranking(query)(a, b) || Ranking(query)(b, a) {
      TextLessTotal(a.sourceReference, b.sourceReference);
    }
    forall a, b, c | Ranking(query)(a, b) && Ranking(query)(b, c) ensures Ranking(query)(a, c) {
      RankTransitive(query, a, b, c);
    }
  }

  // ---------- scores ----------

  function NoSpace(): char -> bool {
    (c: char) => !IsSpace(c)
  }

  lemma {:induction false} WordIsText(s: string)
    ensures forall c :: c in Word(s) ==> !IsSpace(c)
  {
    if s != [] && !IsSpace(s[0]) {
      WordIsText(s[1..]);
    }
  }

  lemma {:induction false} WordSplits(s: string)
    ensures Filter(s, NoSpace()) == Word(s) + Filter(s[|Word(s)|..], NoSpace())
  {
    if s == [] || IsSpace(s[0]) {
      assert s[0..] == s;
    } else {
      WordSplits(s[1..]);
      assert s[1..][|Word(s[1..])|..] == s[|Word(s)|..];
      Associative([s[0]], Word(s[1..]), Filter(s[|Word(s)|..], NoSpace()));
    }
  }

  ghost predicate AllWords(terms: seq<string>) {
    forall t :: t in terms ==> t != [] && forall c :: c in t ==> !IsSpace(c)
  }

  /** The terms of a query are its words: not empty, without white space, and together all that is no white space. */
  lemma {:induction false} TermsAreWords(query: string)
    ensures AllWords(Terms(query))
    ensures Joined(Terms(query)) == Filter(query, NoSpace())
    decreases |query|
  {
    if query == [] {
    } else {
      if IsSpace(query[0]) {
        TermsAreWords(query[1..]);
      } else {
        WordIsText(query);
        WordSplits(query);
        TermsAreWords(query[|Word(query)|..]);
        JoinedNext(Word(query), Terms(query[|Word(query)|..]));
      }
    }
  }

  lemma SameLetters(s: string)
    ensures LowerAll(LowerAll(s)) == LowerAll(s)
  {
  }

  lemma {:induction false} ScoreOfTerms(terms: seq<string>, a: string, b: string)
    requires LowerAll(a) == LowerAll(b)
    ensures Filter(terms, OccursIn(a)) == Filter(terms, OccursIn(b))
  {
    FilterCongruent(terms, OccursIn(a), OccursIn(b));
  }

  lemma SpaceHasNoCase(c: char)
    ensures IsSpace(Lower(c)) <==> IsSpace(c)
  {
  }

  lemma {:induction false} LowerWord(s: string)
    ensures Word(LowerAll(s)) == LowerAll(Word(s))
  {
    if s == [] {
    } else {
      SpaceHasNoCase(s[0]);
      assert LowerAll(s)[1..] == LowerAll(s[1..]);
      LowerWord(s[1..]);
      assert IsSpace(s[0]) || LowerAll([s[0]] + Word(s[1..])) == [Lower(s[0])] + LowerAll(Word(s[1..]));
    }
  }

  lemma FirstTerm(query: string)
    requires query != [] && !IsSpace(query[0])
    ensures Terms(query) == [Word(query)] + Terms(query[|Word(query)|..])
  {
  }

  lemma MapNext<T, U>(x: T, rest: seq<T>, f: T -> U)
    ensures Map([x] + rest, f) == [f(x)] + Map(rest, f)
  {
  }

  lemma LowerTail(s: string, n: nat)
    requires n <= |s|
    ensures LowerAll(s)[n..] == LowerAll(s[n..])
  {
  }

  lemma {:induction false} LowerTerms(query: string)
    ensures Terms(LowerAll(query)) == Map(Terms(query), LowerAll)
    decreases |query|
  {
    if query == [] {
    } else {
      SpaceHasNoCase(query[0]);
      if IsSpace(query[0]) {
        LowerTail(query, 1);
        LowerTerms(query[1..]);
      } else {
        var rest := query[|Word(query)|..];
        FirstTerm(query);
        FirstTerm(LowerAll(query));
        LowerWord(query);
        LowerTail(query, |Word(query)|);
        LowerTerms(rest);
        MapNext(Word(query), Terms(rest), LowerAll);
      }
    }
  }

  lemma {:induction false} LowerOccurrences(terms: seq<string>, text: string)
    ensures |Filter(Map(terms, LowerAll), OccursIn(text))| == |Filter(terms, OccursIn(text))|
  {
    if terms == [] {
    } else {
      SameLetters(terms[0]);
      assert Map(terms, LowerAll)[1..] == Map(terms[1..], LowerAll);
      LowerOccurrences(terms[1..], text);
    }
  }

  /**
   A score does not depend on the case of query or text, is at most the number of terms, is positive when
   some term occurs, and is that number when all do.
   */
  lemma ScoreMeaning(query: string, text: string)
    ensures Score(query, LowerAll(text)) == Score(query, text) <= |Terms(query)|
    ensures Score(LowerAll(query), text) == Score(query, text)
    ensures Score(query, text) > 0 <==> exists t :: t in Terms(query) && Contains(LowerAll(text), LowerAll(t))
    ensures Score(query, text) == |Terms(query)| <==>
            forall t :: t in Terms(query) ==> Contains(LowerAll(text), LowerAll(t))
  {
    SameLetters(text);
    ScoreOfTerms(Terms(query), LowerAll(text), text);
    LowerTerms(query);
    LowerOccurrences(Terms(query), text);
    FilterLength(Terms(query), OccursIn(text));
  }

  // ---------- top k ----------

  function Chosen(chunks: seq<Chunk>, query: string, scope: Scope, limit: nat): seq<Chunk> {
    Take(Ranked(chunks, query, scope), limit)
  }

  lemma SmallerLimitIsPrefix(config: Config, chunks: seq<Chunk>, query: string, scope: Scope, k: nat, n: nat)
    requires k <= n
    ensures Retrieval(config, chunks, query, scope, k).items <= Retrieval(config, chunks, query, scope, n).items
    ensures Retrieval(config, chunks, query, scope, k).citations <= Retrieval(config, chunks, query, scope, n).citations
  {
    var few, many := Chosen(chunks, query, scope, k), Chosen(chunks, query, scope, n);
    assert few <= many;
    assert Map(few, Item) <= Map(many, Item) && Map(few, Cite) <= Map(many, Cite);
  }

  /** Item and citation at each place come from one eligible chunk. */
  lemma CitationNamesItem(config: Config, chunks: seq<Chunk>, query: string, scope: Scope, limit: nat, i: nat)
    returns (c: Chunk)
    requires i < |Retrieval(config, chunks, query, scope, limit).items|
    ensures c in chunks && Eligible(query, scope)(c)
    ensures var r := Retrieval(config, chunks, query, scope, limit);
            && |r.citations| == |r.items|
            && r.items[i] == c.title + ": " + c.text
            && r.citations[i] == Citation(c.recordId, c.sourceReference, c.sourceHash, c.index)
  {
    c := Chosen(chunks, query, scope, limit)[i];
    RankedMembers(chunks, query, scope);
    assert c in Ranked(chunks, query, scope);
  }

  // ---------- evaluation ----------

  lemma {:induction false} FilterLength<T(!new)>(s: seq<T>, keep: T -> bool)
    ensures |Filter(s, keep)| == |s| <==> forall x :: x in s ==> keep(x)
    ensures |Filter(s, keep)| == 0 <==> forall x :: x in s ==> !keep(x)
  {
    if s == [] {
    } else {
      FilterLength(s[1..], keep);
      assert forall x :: x in s <==> x == s[0] || x in s[1..];
    }
  }

  predicate Cited(config: Config, chunks: seq<Chunk>, limit: nat, c: EvaluationCase, record: string) {
    exists citation <- Retrieval(config, chunks, c.query, c.scope, limit).citations :: citation.recordId == record
  }

  ghost predicate FullRecall(config: Config, chunks: seq<Chunk>, limit: nat, c: EvaluationCase) {
    forall record :: record in c.expected ==> Cited(config, chunks, limit, c, record)
  }

  ghost predicate NoneForbidden(config: Config, chunks: seq<Chunk>, limit: nat, c: EvaluationCase) {
    forall record :: record in c.forbidden ==> !Cited(config, chunks, limit, c, record)
  }

  lemma CaseCounts(config: Config, chunks: seq<Chunk>, limit: nat, c: EvaluationCase)
    ensures var r := CaseOutcome(config, chunks, limit, c);
            && r.items == r.citations <= limit
            && r.expectedHits <= |c.expected|
            && (r.expectedHits == |c.expected| <==> FullRecall(config, chunks, limit, c))
            && (r.forbiddenHits == 0 <==> NoneForbidden(config, chunks, limit, c))
  {
    HitsExactly(config, chunks, limit, c, c.expected);
    HitsExactly(config, chunks, limit, c, c.forbidden);
  }

  /** How many of the records are cited tells whether all or none of them are. */
  lemma HitsExactly(config: Config, chunks: seq<Chunk>, limit: nat, c: EvaluationCase, records: seq<string>)
    ensures var hits :=
            |Filter(records, InSet(CitedRecords(Retrieval(config, chunks, c.query, c.scope, limit).citations)))|;
            && hits <= |records|
            && (hits == |records| <==> forall record :: record in records ==> Cited(config, chunks, limit, c, record))
            && (hits == 0 <==> forall record :: record in records ==> !Cited(config, chunks, limit, c, record))
  {
    var cited := CitedRecords(Retrieval(config, chunks, c.query, c.scope, limit).citations);
    FilterLength(records, InSet(cited));
    forall record | record in records ensures InSet(cited)(record) <==> Cited(config, chunks, limit, c, record) {
      CitedExactly(config, chunks, limit, c, record);
    }
  }

  lemma CitedExactly(config: Config, chunks: seq<Chunk>, limit: nat, c: EvaluationCase, record: string)
    ensures record in CitedRecords(Retrieval(config, chunks, c.query, c.scope, limit).citations) <==>
            Cited(config, chunks, limit, c, record)
  {
  }

  ghost predicate AllRecalled(config: Config, chunks: seq<Chunk>, limit: nat, cases: seq<EvaluationCase>) {
    forall c :: c in cases ==> FullRecall(config, chunks, limit, c)
  }

  ghost predicate AllClean(config: Config, chunks: seq<Chunk>, limit: nat, cases: seq<EvaluationCase>) {
    forall c :: c in cases ==> NoneForbidden(config, chunks, limit, c)
  }

  lemma LastCase(config: Config, chunks: seq<Chunk>, limit: nat, cases: seq<EvaluationCase>)
    requires cases != []
    ensures var n := |cases| - 1;
            && (AllRecalled(config, chunks, limit, cases) <==>
                AllRecalled(config, chunks, limit, cases[..n]) && FullRecall(config, chunks, limit, cases[n]))
            && (AllClean(config, chunks, limit, cases) <==>
                AllClean(config, chunks, limit, cases[..n]) && NoneForbidden(config, chunks, limit, cases[n]))
  {
    var n := |cases| - 1;
    assert cases == cases[..n] + [cases[n]];
    assert forall c :: c in cases <==> c in cases[..n] || c == cases[n];
  }

  /**
   Over any cases, the report counts as many citations as context items, and its hits are complete
   exactly when every expected record, and no forbidden one, is cited in its own case.
   */
  lemma {:induction false} EvaluationCounts(config: Config, chunks: seq<Chunk>, limit: nat, cases: seq<EvaluationCase>)
    ensures var r := Evaluation(config, chunks, limit, cases);
            && |r.cases| == |cases|
            && r.items == r.citations
            && r.expectedHits <= r.expected
            && (r.expectedHits == r.expected <==> AllRecalled(config, chunks, limit, cases))
            && (r.forbiddenHits == 0 <==> AllClean(config, chunks, limit, cases))
  {
    if cases == [] {
    } else {
      var n := |cases| - 1;
      EvaluationCounts(config, chunks, limit, cases[..n]);
      CaseCounts(config, chunks, limit, cases[n]);
      LastCase(config, chunks, limit, cases);
    }
  }

  function Total(counts: seq<nat>): nat {
    if counts == [] then 0 else Total(counts[..|counts| - 1]) + counts[|counts| - 1]
  }

  function ItemsOf(r: CaseResult): nat {
    r.items
  }

  function HitsOf(r: CaseResult): nat {
    r.expectedHits
  }

  function ForbiddenOf(r: CaseResult): nat {
    r.forbiddenHits
  }

  function ExpectedOf(c: EvaluationCase): nat {
    |c.expected|
  }

  lemma TotalNext<T>(s: seq<T>, x: T, value: T -> nat)
    ensures Total(Map(s + [x], value)) == Total(Map(s, value)) + value(x)
  {
    assert Map(s + [x], value)[..|s|] == Map(s, value);
  }

  /** The figures of the report are the totals over its results. */
  ghost predicate AddsUp(r: Report, cases: seq<EvaluationCase>) {
    && r.items == Total(Map(r.cases, ItemsOf))
    && r.expectedHits == Total(Map(r.cases, HitsOf))
    && r.forbiddenHits == Total(Map(r.cases, ForbiddenOf))
    && r.expected == Total(Map(cases, ExpectedOf))
  }

  lemma CountedAddsUp(before: Report, result: CaseResult, cases: seq<EvaluationCase>, c: EvaluationCase)
    requires AddsUp(before, cases)
    ensures AddsUp(Counted(before, result, c), cases + [c])
  {
    TotalNext(before.cases, result, ItemsOf);
    TotalNext(before.cases, result, HitsOf);
    TotalNext(before.cases, result, ForbiddenOf);
    TotalNext(cases, c, ExpectedOf);
  }

  lemma {:induction false} TalliedExactly(cases: seq<EvaluationCase>, outcome: EvaluationCase -> CaseResult)
    ensures AddsUp(Tallied(cases, outcome), cases)
    ensures Tallied(cases, outcome).cases == Map(cases, outcome)
  {
    if cases == [] {
    } else {
      var n := |cases| - 1;
      TalliedExactly(cases[..n], outcome);
      CountedAddsUp(Tallied(cases[..n], outcome), outcome(cases[n]), cases[..n], cases[n]);
      assert cases == cases[..n] + [cases[n]];
    }
  }

  /** The report lists every case's own outcome in order, and its figures are the totals over the cases. */
  lemma EvaluationTotals(config: Config, chunks: seq<Chunk>, limit: nat, cases: seq<EvaluationCase>)
    ensures AddsUp(Evaluation(config, chunks, limit, cases), cases)
    ensures Evaluation(config, chunks, limit, cases).cases == Map(cases, OutcomeIn(config, chunks, limit))
  {
    TalliedExactly(cases, OutcomeIn(config, chunks, limit));
  }

  // ---------- persisting and loading ----------

  ghost predicate AllAllowed(config: Config, chunks: seq<Chunk>) {
    forall c :: c in chunks ==> ScopeAllowed(config, c.scope)
  }

  /** Eligible chunks that are tied in the ranking are in the order of their records. */
  ghost predicate TiesInRecordOrder(chunks: seq<Chunk>, query: string, scope: Scope) {
    var eligible := Filter(chunks, Eligible(query, scope));
    forall c :: c in eligible ==> SortedBy(Filter(eligible, Tied(Ranking(query), c)), RowLe)
  }

  ghost predicate DistinctReferences(view: View) {
    forall r, s :: r in view && s in view && view[r].document.sourceReference == view[s].document.sourceReference ==>
      r == s
  }

  /** In a represented list, record and index name one chunk. */
  lemma RowsStrict(chunks: seq<Chunk>, view: View, a: Chunk, b: Chunk)
    requires Represents(chunks, view) && a in chunks && b in chunks && a.recordId == b.recordId && a.index == b.index
    ensures a == b
  {
    MemberOfEntry(chunks, view, a);
    MemberOfEntry(chunks, view, b);
    EntryChunk(view[a.recordId], a);
    EntryChunk(view[a.recordId], b);
  }

  lemma RowStrictOn(chunks: seq<Chunk>, view: View, part: seq<Chunk>)
    requires Represents(chunks, view) && forall c :: c in part ==> c in chunks
    ensures StrictOn(part, RowLe)
  {
    forall i, j | 0 <= i < |part| && 0 <= j < |part| && RowLe(part[i], part[j]) && RowLe(part[j], part[i])
      ensures part[i] == part[j]
    {
      TextLessTotal(part[i].recordId, part[j].recordId);
      RowsStrict(chunks, view, part[i], part[j]);
    }
  }

  /** A group of ties has the order of the rows exactly when it is the same in the row-sorted list. */
  lemma TieGroupExactly(chunks: seq<Chunk>, view: View, s: seq<Chunk>, t: seq<Chunk>, among: Chunk -> bool)
    requires Represents(chunks, view) && (forall c :: c in s ==> c in chunks)
    requires multiset(s) == multiset(t) && SortedBy(t, RowLe)
    ensures Filter(s, among) == Filter(t, among) <==> SortedBy(Filter(s, among), RowLe)
  {
    FilterOfSorted(t, among, RowLe);
    FilterOfSameBag(s, t, among);
    RowStrictOn(chunks, view, Filter(s, among));
    if SortedBy(Filter(s, among), RowLe) {
      SortedUnique(Filter(s, among), Filter(t, among), RowLe);
    }
  }

  lemma StoredPart(chunks: seq<Chunk>, keep: Chunk -> bool)
    ensures multiset(Filter(chunks, keep)) == multiset(Filter(Stored(chunks), keep))
    ensures SortedBy(Filter(Stored(chunks), keep), RowLe)
  {
    RowOrder();
    SortSorted(chunks, RowLe);
    FilterOfSorted(Stored(chunks), keep, RowLe);
    FilterOfSameBag(chunks, Stored(chunks), keep);
  }

  lemma SameTiesExactly(chunks: seq<Chunk>, view: View, query: string, scope: Scope)
    requires Represents(chunks, view)
    ensures SameTies(Filter(chunks, Eligible(query, scope)), Filter(Stored(chunks), Eligible(query, scope)),
                     Ranking(query)) <==>
            TiesInRecordOrder(chunks, query, scope)
  {
    var s, t := Filter(chunks, Eligible(query, scope)), Filter(Stored(chunks), Eligible(query, scope));
    StoredPart(chunks, Eligible(query, scope));
    forall c | c in s
      ensures Filter(s, Tied(Ranking(query), c)) == Filter(t, Tied(Ranking(query), c)) <==>
              SortedBy(Filter(s, Tied(Ranking(query), c)), RowLe)
    {
      TieGroupExactly(chunks, view, s, t, Tied(Ranking(query), c));
    }
  }

  lemma LoadedIsStored(config: Config, chunks: seq<Chunk>)
    requires AllAllowed(config, chunks)
    ensures Loaded(config, chunks) == Stored(chunks)
  {
    RowOrder();
    SortSorted(chunks, RowLe);
    FilterAll(Stored(chunks), AllowedBy(config));
  }

  lemma SameCitations(chunks: seq<Chunk>, view: View, a: seq<Chunk>, b: seq<Chunk>)
    requires Represents(chunks, view) && (forall c :: c in a ==> c in chunks) && (forall c :: c in b ==> c in chunks)
    requires Map(a, Cite) == Map(b, Cite)
    ensures a == b
  {
    assert |a| == |b|;
    forall i | 0 <= i < |a| ensures a[i] == b[i] {
      assert Map(a, Cite)[i] == Map(b, Cite)[i];
      assert a[i] in a && b[i] in b;
      RowsStrict(chunks, view, a[i], b[i]);
    }
  }

  /** Two chunk lists cannot be told apart by this query at any limit. */
  ghost predicate RetrievedAlike(config: Config, a: seq<Chunk>, b: seq<Chunk>, query: string, scope: Scope) {
    forall limit: nat :: Retrieval(config, a, query, scope, limit) == Retrieval(config, b, query, scope, limit)
  }

  lemma AlikeExactly(config: Config, chunks: seq<Chunk>, view: View, query: string, scope: Scope)
    requires Represents(chunks, view)
    ensures RetrievedAlike(config, Stored(chunks), chunks, query, scope) <==>
            Ranked(Stored(chunks), query, scope) == Ranked(chunks, query, scope)
  {
    if RetrievedAlike(config, Stored(chunks), chunks, query, scope) {
      var here, there := Ranked(chunks, query, scope), Ranked(Stored(chunks), query, scope);
      SameLength(chunks, query, scope);
      assert Retrieval(config, Stored(chunks), query, scope, |here|) == Retrieval(config, chunks, query, scope, |here|);
      WholeRanking(config, chunks, query, scope);
      WholeRanking(config, Stored(chunks), query, scope);
      RankedMembers(chunks, query, scope);
      RankedMembers(Stored(chunks), query, scope);
      StoredMembers(chunks);
      SameCitations(chunks, view, here, there);
    }
  }

  lemma WholeRanking(config: Config, chunks: seq<Chunk>, query: string, scope: Scope)
    ensures Retrieval(config, chunks, query, scope, |Ranked(chunks, query, scope)|).citations ==
            Map(Ranked(chunks, query, scope), Cite)
  {
  }

  /**
   Persisting the chunks and loading them back under the same configuration leaves the retrieval at
   every limit unchanged exactly when chunks tied in the ranking are already in the order of their records.
   */
  lemma PersistedAlikeExactly(config: Config, chunks: seq<Chunk>, view: View, query: string, scope: Scope)
    requires Represents(chunks, view) && AllAllowed(config, chunks)
    ensures RetrievedAlike(config, Loaded(config, chunks), chunks, query, scope) <==>
            TiesInRecordOrder(chunks, query, scope)
  {
    LoadedIsStored(config, chunks);
    AlikeExactly(config, chunks, view, query, scope);
    SortedExactly(chunks, query, scope);
    SameTiesExactly(chunks, view, query, scope);
  }

  lemma SortedExactly(chunks: seq<Chunk>, query: string, scope: Scope)
    ensures Ranked(Stored(chunks), query, scope) == Ranked(chunks, query, scope) <==>
            SameTies(Filter(chunks, Eligible(query, scope)), Filter(Stored(chunks), Eligible(query, scope)),
                     Ranking(query))
  {
    RankOrder(query);
    FilterOfSameBag(chunks, Stored(chunks), Eligible(query, scope));
    SortedAlikeExactly(Filter(chunks, Eligible(query, scope)), Filter(Stored(chunks), Eligible(query, scope)),
                       Ranking(query));
  }

  lemma SameLength(chunks: seq<Chunk>, query: string, scope: Scope)
    ensures |Ranked(chunks, query, scope)| == |Ranked(Stored(chunks), query, scope)|
  {
    FilterOfSameBag(chunks, Stored(chunks), Eligible(query, scope));
    var s, t := Filter(chunks, Eligible(query, scope)), Filter(Stored(chunks), Eligible(query, scope));
    assert |multiset(s)| == |s| && |multiset(t)| == |t|;
  }

  lemma StoredMembers(rows: seq<Chunk>)
    ensures forall c :: c in Stored(rows) <==> c in rows
  {
    RowOrder();
    SortSorted(rows, RowLe);
  }

  lemma RankedMembers(chunks: seq<Chunk>, query: string, scope: Scope)
    ensures forall c :: c in Ranked(chunks, query, scope) <==> c in chunks && Eligible(query, scope)(c)
  {
    RankOrder(query);
    SortSorted(Filter(chunks, Eligible(query, scope)), Ranking(query));
  }

  lemma ReferenceOfRecord(chunks: seq<Chunk>, view: View, c: Chunk)
    requires Represents(chunks, view) && c in chunks
    ensures c.recordId in view && view[c.recordId].document.sourceReference == c.sourceReference
  {
    MemberOfEntry(chunks, view, c);
    EntryChunk(view[c.recordId], c);
  }

  lemma TiedSameReference(query: string, a: Chunk, b: Chunk)
    requires RankLe(query, a, b) && RankLe(query, b, a)
    ensures a.sourceReference == b.sourceReference && a.index == b.index
  {
    TextLessTotal(a.sourceReference, b.sourceReference);
  }

  lemma TiedIsSame(chunks: seq<Chunk>, view: View, query: string, a: Chunk, b: Chunk)
    requires Represents(chunks, view) && DistinctReferences(view)
    requires a in chunks && b in chunks && RankLe(query, a, b) && RankLe(query, b, a)
    ensures a == b
  {
    TiedSameReference(query, a, b);
    ReferenceOfRecord(chunks, view, a);
    ReferenceOfRecord(chunks, view, b);
    RowsStrict(chunks, view, a, b);
  }

  lemma SameChunkSorted(s: seq<Chunk>, c: Chunk)
    requires forall a :: a in s ==> a == c
    ensures SortedBy(s, RowLe)
  {
    assert RowLe(c, c);
    forall i, j | 0 <= i < j < |s| ensures RowLe(s[i], s[j]) {
      assert s[i] in s && s[j] in s;
    }
  }

  lemma TiedAlone(chunks: seq<Chunk>, view: View, query: string, part: seq<Chunk>, c: Chunk)
    requires Represents(chunks, view) && DistinctReferences(view) && c in part && forall a :: a in part ==> a in chunks
    ensures SortedBy(Filter(part, Tied(Ranking(query), c)), RowLe)
  {
    var tied := Filter(part, Tied(Ranking(query), c));
    forall a | a in tied ensures a == c {
      TiedIsSame(chunks, view, query, a, c);
    }
    SameChunkSorted(tied, c);
  }

  lemma DistinctReferencesLeaveNoTies(chunks: seq<Chunk>, view: View, query: string, scope: Scope)
    requires Represents(chunks, view) && DistinctReferences(view)
    ensures TiesInRecordOrder(chunks, query, scope)
  {
    TiesAlone(chunks, view, query, Filter(chunks, Eligible(query, scope)));
  }

  lemma TiesAlone(chunks: seq<Chunk>, view: View, query: string, part: seq<Chunk>)
    requires Represents(chunks, view) && DistinctReferences(view) && forall a :: a in part ==> a in chunks
    ensures forall c :: c in part ==> SortedBy(Filter(part, Tied(Ranking(query), c)), RowLe)
  {
    forall c | c in part ensures SortedBy(Filter(part, Tied(Ranking(query), c)), RowLe) {
      TiedAlone(chunks, view, query, part, c);
    }
  }

  // ---------- every run ----------

  ghost predicate ViewAllowed(config: Config, view: View) {
    forall r :: r in view ==> EntryAllowed(config)(view[r])
  }

  lemma {:induction false} RunAllowed(config: Config, steps: seq<Step>)
    ensures var m := RunModel(Model(config, map[], map[]), steps); ViewAllowed(m.config, m.live)
  {
    if steps == [] {
    } else {
      var before := RunModel(Model(config, map[], map[]), steps[..|steps| - 1]);
      RunAllowed(config, steps[..|steps| - 1]);
      if steps[|steps| - 1].IndexDocuments? {
        IndexedAllowed(before.config, before.live, steps[|steps| - 1].documents, steps[|steps| - 1].at);
      }
    }
  }

  lemma {:induction false} IndexedAllowed(config: Config, view: View, documents: seq<Document>, at: int)
    requires ViewAllowed(config, view)
    ensures ViewAllowed(config, ViewIndexed(config, view, documents, at))
  {
    if documents == [] {
    } else {
      IndexedAllowed(config, view, documents[..|documents| - 1], at);
    }
  }

  /**
   After every run, when the live records have distinct source references, persisting the chunks and
   loading them back under the same configuration gives the same context and citations for every
   query, scope and limit.
   */
  lemma PersistLoadUnchanged(config: Config, steps: seq<Step>, query: string, scope: Scope, limit: nat)
    requires DistinctReferences(RunModel(Model(config, map[], map[]), steps).live)
    ensures var s := Run(State(config, [], []), steps);
            var t := Next(Next(s, Persist), Load(s.config));
            Retrieval(t.config, t.chunks, query, scope, limit) == Retrieval(s.config, s.chunks, query, scope, limit)
  {
    RunProjects(config, steps);
    RunAllowed(config, steps);
    LoadedBack(Run(State(config, [], []), steps), RunModel(Model(config, map[], map[]), steps), query, scope, limit);
  }

  lemma LoadedBack(s: State, m: Model, query: string, scope: Scope, limit: nat)
    requires Projects(s, m) && ViewAllowed(m.config, m.live) && DistinctReferences(m.live)
    ensures var t := Next(Next(s, Persist), Load(s.config));
            Retrieval(t.config, t.chunks, query, scope, limit) == Retrieval(s.config, s.chunks, query, scope, limit)
  {
    ViewAllowedMembers(s.config, s.chunks, m.live);
    KeysDistinct(s.chunks, m.live);
    assert Next(Next(s, Persist), Load(s.config)).chunks == Loaded(s.config, s.chunks);
    DistinctReferencesLeaveNoTies(s.chunks, m.live, query, scope);
    PersistedAlikeExactly(s.config, s.chunks, m.live, query, scope);
    AlikeAt(s.config, Loaded(s.config, s.chunks), s.chunks, query, scope, limit);
  }

  lemma AlikeAt(config: Config, a: seq<Chunk>, b: seq<Chunk>, query: string, scope: Scope, limit: nat)
    requires RetrievedAlike(config, a, b, query, scope)
    ensures Retrieval(config, a, query, scope, limit) == Retrieval(config, b, query, scope, limit)
  {
  }

  lemma ViewAllowedMembers(config: Config, chunks: seq<Chunk>, view: View)
    requires Represents(chunks, view) && ViewAllowed(config, view)
    ensures AllAllowed(config, chunks)
  {
    forall c | c in chunks ensures ScopeAllowed(config, c.scope) {
      MemberOfEntry(chunks, view, c);
      EntryChunk(view[c.recordId], c);
      assert EntryAllowed(config)(view[c.recordId]);
    }
  }
}
