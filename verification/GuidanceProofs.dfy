/** The guidance edges order the records of every scope, without cycles, and sorting them drops none. */
module GuidanceProofs {
  import opened Guidance
  import opened Ordering
  import opened Sequences

  ghost predicate DistinctSources(records: seq<Record>) {
    forall a, b :: a in records && b in records && a.sourceReference == b.sourceReference ==> a == b
  }

  ghost predicate DistinctIds(records: seq<Record>) {
    forall a, b :: a in records && b in records && a.id == b.id ==> a == b
  }

  // ---------- one record a source ----------

  lemma SourceOrder()
    ensures TotalPreorder(SourceLe) && Grouping(SourceLe, SameSource)
  {
    forall a: Record, b: Record ensures SourceLe(a, b) || SourceLe(b, a) {
      TextLessTotal(a.sourceReference, b.sourceReference);
    }
    forall a: Record, b: Record, c: Record | SourceLe(a, b) && SourceLe(b, c)
      ensures SourceLe(a, c) && (SameSource(a, c) ==> SameSource(a, b))
    {
      TextLessTotal(a.sourceReference, b.sourceReference);
      if TextLess(a.sourceReference, b.sourceReference) && TextLess(b.sourceReference, c.sourceReference) {
        TextLessTransitive(a.sourceReference, b.sourceReference, c.sourceReference);
        TextLessTotal(a.sourceReference, c.sourceReference);
      }
    }
  }

  ghost predicate Represented(records: seq<Record>, x: Record) {
    exists r :: r in records && r.sourceReference == x.sourceReference && r.rank <= x.rank
  }

  /** Deduplication keeps exactly one record of every source found, one of lowest rank. */
  lemma OneRecordASource(found: seq<Record>)
    ensures var records := Records(found);
            && NoDup(records) && DistinctSources(records)
            && (forall r :: r in records ==> r in found)
            && (forall x :: x in found ==> Represented(records, x))
  {
    SourceOrder();
    SortSorted(found, SourceLe);
    var sorted, records := Sort(found, SourceLe), Records(found);
    DedupSorted(sorted, SourceLe, SameSource);
    DifferentSources(records);
    LeastOfSource(sorted, records);
  }

  lemma DifferentSources(records: seq<Record>)
    requires PairwiseDifferent(records, SameSource)
    ensures NoDup(records) && DistinctSources(records)
  {
    forall i, j | 0 <= i < j < |records| ensures records[i] != records[j] {
      assert !SameSource(records[i], records[j]);
    }
    forall a, b | a in records && b in records && a != b ensures a.sourceReference != b.sourceReference {
      var i :| 0 <= i < |records| && records[i] == a;
      var j :| 0 <= j < |records| && records[j] == b;
      assert i < j ==> !SameSource(records[i], records[j]);
      assert j < i ==> !SameSource(records[j], records[i]);
    }
  }

  lemma LeastOfSource(found: seq<Record>, records: seq<Record>)
    requires Covered(found, records, SourceLe, SameSource)
    ensures forall x :: x in found ==> Represented(records, x)
  {
    forall x | x in found ensures Represented(records, x) {
      var r :| r in records && SameSource(r, x) && SourceLe(r, x);
      TextLessTotal(r.sourceReference, x.sourceReference);
    }
  }

  // ---------- the order of precedence ----------

  /** Strictly more precedence: a higher rank, or the same rank and a later source. */
  predicate Above(a: Record, b: Record) {
    a.rank < b.rank || (a.rank == b.rank && TextLess(a.sourceReference, b.sourceReference))
  }

  lemma AboveTransitive(a: Record, b: Record, c: Record)
    requires Above(a, b) && Above(b, c)
    ensures Above(a, c)
  {
    if a.rank == b.rank == c.rank {
      TextLessTransitive(a.sourceReference, b.sourceReference, c.sourceReference);
    }
  }

  lemma PrecedenceOrder()
    ensures TotalPreorder(PrecedenceLe)
  {
    forall a: Record, b: Record ensures PrecedenceLe(a, b) || PrecedenceLe(b, a) {
      TextLessTotal(a.sourceReference, b.sourceReference);
    }
    forall a: Record, b: Record, c: Record | PrecedenceLe(a, b) && PrecedenceLe(b, c) ensures PrecedenceLe(a, c) {
      if TextLess(a.sourceReference, b.sourceReference) && TextLess(b.sourceReference, c.sourceReference) {
        TextLessTransitive(a.sourceReference, b.sourceReference, c.sourceReference);
      }
    }
  }

  lemma {:induction false} FilterNoDup<T(!new)>(s: seq<T>, keep: T -> bool)
    requires NoDup(s)
    ensures NoDup(Filter(s, keep))
  {
    if s == [] {
    } else {
      FilterNoDup(s[1..], keep);
      assert s[0] !in s[1..];
    }
  }

  lemma SortNoDup<T(!new)>(s: seq<T>, le: (T, T) -> bool)
    requires NoDup(s)
    ensures NoDup(Sort(s, le))
  {
    NoDupIsSet(s);
    forall x | x in Sort(s, le) ensures multiset(Sort(s, le))[x] <= 1 {
    }
    CountedOnce(Sort(s, le));
  }

  /** The records of a scope in strictly rising precedence. */
  lemma ChainRises(records: seq<Record>, scope: Option<string>)
    requires NoDup(records) && DistinctSources(records)
    ensures var chain := Chain(records, scope);
            && (forall r :: r in chain <==> r in records && AppliesIn(scope)(r))
            && (forall i, j :: 0 <= i < j < |chain| ==> Above(chain[i], chain[j]))
  {
    var chain := Chain(records, scope);
    PrecedenceOrder();
    SortSorted(Filter(records, AppliesIn(scope)), PrecedenceLe);
    FilterNoDup(records, AppliesIn(scope));
    SortNoDup(Filter(records, AppliesIn(scope)), PrecedenceLe);
    forall i, j | 0 <= i < j < |chain| ensures Above(chain[i], chain[j]) {
      assert PrecedenceLe(chain[i], chain[j]) && chain[i] != chain[j];
      assert chain[i] in chain && chain[j] in chain;
    }
  }

  // ---------- links ----------

  ghost predicate LinkedIn(records: seq<Record>, scope: Option<string>, e: Edge) {
    records != [] && e in Links(records[0], Chain(records, scope))
  }

  ghost predicate LinkedInSome(records: seq<Record>, scopes: seq<Option<string>>, e: Edge) {
    exists scope :: scope in scopes && LinkedIn(records, scope, e)
  }

  lemma LinkedInLast(records: seq<Record>, scopes: seq<Option<string>>, e: Edge)
    requires scopes != []
    ensures LinkedInSome(records, scopes, e) <==>
            LinkedInSome(records, scopes[..|scopes| - 1], e) || LinkedIn(records, scopes[|scopes| - 1], e)
  {
    var last := |scopes| - 1;
    assert scopes == scopes[..last] + [scopes[last]];
  }

  lemma {:induction false} AllLinksExactly(records: seq<Record>, scopes: seq<Option<string>>, e: Edge)
    ensures e in AllLinks(records, scopes) <==> LinkedInSome(records, scopes, e)
  {
    if scopes != [] && records != [] {
      AllLinksExactly(records, scopes[..|scopes| - 1], e);
      LinkedInLast(records, scopes, e);
    }
  }

  /** An edge joins two records of one scope, the second above the first. */
  ghost predicate Joins(records: seq<Record>, e: Edge, a: Record, b: Record) {
    && a in records && b in records && Above(a, b)
    && e == Link(records[0], a, b)
  }

  lemma LinkRises(records: seq<Record>, scopes: seq<Option<string>>, e: Edge) returns (a: Record, b: Record)
    requires NoDup(records) && DistinctSources(records) && e in AllLinks(records, scopes)
    ensures Joins(records, e, a, b)
  {
    AllLinksExactly(records, scopes, e);
    var scope :| scope in scopes && LinkedIn(records, scope, e);
    var chain := Chain(records, scope);
    var k :| 0 <= k < |Links(records[0], chain)| && e == Links(records[0], chain)[k];
    ChainRises(records, scope);
    a, b := chain[k], chain[k + 1];
    assert a in chain && b in chain;
  }

  // ---------- the final sort drops nothing ----------

  lemma EdgeOrder()
    ensures TotalPreorder(EdgeLe) && Grouping(EdgeLe, SameEnds)
  {
    forall a: Edge, b: Edge ensures EdgeLe(a, b) || EdgeLe(b, a) {
      TextLessTotal(a.lower, b.lower);
      TextLessTotal(a.higher, b.higher);
    }
    forall a: Edge, b: Edge, c: Edge | EdgeLe(a, b) && EdgeLe(b, c)
      ensures EdgeLe(a, c) && (SameEnds(a, c) ==> SameEnds(a, b))
    {
      EdgeLeChain(a, b, c);
    }
  }

  lemma EdgeLeChain(a: Edge, b: Edge, c: Edge)
    requires EdgeLe(a, b) && EdgeLe(b, c)
    ensures EdgeLe(a, c) && (SameEnds(a, c) ==> SameEnds(a, b))
  {
    TextLessTotal(a.lower, b.lower);
    TextLessTotal(a.higher, b.higher);
    if TextLess(a.lower, b.lower) && TextLess(b.lower, c.lower) {
      TextLessTransitive(a.lower, b.lower, c.lower);
      TextLessTotal(a.lower, c.lower);
    } else if a.lower == b.lower == c.lower && TextLess(a.higher, b.higher) && TextLess(b.higher, c.higher) {
      TextLessTransitive(a.higher, b.higher, c.higher);
      TextLessTotal(a.higher, c.higher);
    }
  }

  /** Sorting and deduplicating keeps every distinct link with its relation, and each pair of ids once. */
  lemma NoEdgeDropped(records: seq<Record>, projects: seq<string>)
    requires NoDup(records) && DistinctSources(records) && DistinctIds(records)
    ensures forall e :: e in Edges(records, projects) <==> e in AllLinks(records, Scopes(projects))
    ensures forall i, j :: 0 <= i < j < |Edges(records, projects)| ==>
            !SameEnds(Edges(records, projects)[i], Edges(records, projects)[j])
  {
    var all, edges := AllLinks(records, Scopes(projects)), Edges(records, projects);
    EdgeOrder();
    SortSorted(all, EdgeLe);
    DedupSorted(Sort(all, EdgeLe), EdgeLe, SameEnds);
    forall e | e in all ensures e in edges {
      var kept :| kept in edges && SameEnds(kept, e) && EdgeLe(kept, e);
      SameEndsSameLink(records, Scopes(projects), kept, e);
    }
    forall i, j | 0 <= i < j < |edges| ensures !SameEnds(edges[i], edges[j]) {
    }
  }

  lemma SameEndsSameLink(records: seq<Record>, scopes: seq<Option<string>>, e: Edge, f: Edge)
    requires NoDup(records) && DistinctSources(records) && DistinctIds(records)
    requires e in AllLinks(records, scopes) && f in AllLinks(records, scopes) && SameEnds(e, f)
    ensures e == f
  {
    var a, b := LinkRises(records, scopes, e);
    var c, d := LinkRises(records, scopes, f);
    assert a == c && b == d;
  }

  // ---------- paths ----------

  ghost predicate HasEdge(edges: seq<Edge>, from: string, to: string) {
    exists e :: e in edges && e.lower == from && e.higher == to
  }

  ghost predicate Path(edges: seq<Edge>, p: seq<string>) {
    |p| >= 2 && forall k :: 0 < k < |p| ==> HasEdge(edges, p[k - 1], p[k])
  }

  ghost predicate Reaches(edges: seq<Edge>, from: string, to: string) {
    exists p :: Path(edges, p) && p[0] == from && p[|p| - 1] == to
  }

  /** A path rises from its first record to its last. */
  lemma {:induction false} PathRises(records: seq<Record>, projects: seq<string>, p: seq<string>)
    returns (a: Record, b: Record)
    requires NoDup(records) && DistinctSources(records) && DistinctIds(records)
    requires Path(Edges(records, projects), p)
    ensures a in records && b in records && a.id == p[0] && b.id == p[|p| - 1] && Above(a, b)
    decreases |p|
  {
    var last := |p| - 1;
    NoEdgeDropped(records, projects);
    assert HasEdge(Edges(records, projects), p[last - 1], p[last]);
    var e :| e in Edges(records, projects) && e.lower == p[last - 1] && e.higher == p[last];
    var c, d := LinkRises(records, Scopes(projects), e);
    if |p| == 2 {
      a, b := c, d;
    } else {
      assert Path(Edges(records, projects), p[..last]) by {
        forall k | 0 < k < last ensures HasEdge(Edges(records, projects), p[..last][k - 1], p[..last][k]) {
          assert HasEdge(Edges(records, projects), p[k - 1], p[k]);
        }
      }
      var m;
      a, m := PathRises(records, projects, p[..last]);
      assert m == c;
      AboveTransitive(a, c, d);
      b := d;
    }
  }

  /** No record is below itself through any number of edges. */
  lemma Acyclic(records: seq<Record>, projects: seq<string>, id: string)
    requires NoDup(records) && DistinctSources(records) && DistinctIds(records)
    ensures !Reaches(Edges(records, projects), id, id)
  {
    if Reaches(Edges(records, projects), id, id) {
      var p :| Path(Edges(records, projects), p) && p[0] == id && p[|p| - 1] == id;
      var a, b := PathRises(records, projects, p);
      TextLessTotal(a.sourceReference, b.sourceReference);
    }
  }

  lemma NeighboursLinked(records: seq<Record>, projects: seq<string>, scope: Option<string>, k: nat)
    requires NoDup(records) && DistinctSources(records) && DistinctIds(records) && scope in Scopes(projects)
    requires k + 1 < |Chain(records, scope)|
    ensures HasEdge(Edges(records, projects), Chain(records, scope)[k].id, Chain(records, scope)[k + 1].id)
  {
    NotEmpty(records, scope);
    var e := Links(records[0], Chain(records, scope))[k];
    assert LinkedIn(records, scope, e);
    AllLinksExactly(records, Scopes(projects), e);
    NoEdgeDropped(records, projects);
  }

  lemma ReachesFurther(edges: seq<Edge>, from: string, via: string, to: string)
    requires from == via || Reaches(edges, from, via)
    requires HasEdge(edges, via, to)
    ensures Reaches(edges, from, to)
  {
    if Reaches(edges, from, via) {
      var p :| Path(edges, p) && p[0] == from && p[|p| - 1] == via;
      var q := p + [to];
      forall k | 0 < k < |q| ensures HasEdge(edges, q[k - 1], q[k]) {
        assert k < |p| ==> HasEdge(edges, p[k - 1], p[k]);
      }
      assert Path(edges, q);
    } else {
      assert Path(edges, [from, to]);
    }
  }

  ghost predicate LinkedAt(edges: seq<Edge>, chain: seq<Record>, k: nat) {
    k + 1 < |chain| ==> HasEdge(edges, chain[k].id, chain[k + 1].id)
  }

  lemma {:induction false} LinkedReaches(edges: seq<Edge>, chain: seq<Record>, i: nat, j: nat)
    requires i < j < |chain| && forall k: nat :: LinkedAt(edges, chain, k)
    ensures Reaches(edges, chain[i].id, chain[j].id)
    decreases j
  {
    if i < j - 1 {
      LinkedReaches(edges, chain, i, j - 1);
    }
    assert LinkedAt(edges, chain, j - 1);
    ReachesFurther(edges, chain[i].id, chain[j - 1].id, chain[j].id);
  }

  lemma ChainIsPath(records: seq<Record>, projects: seq<string>, scope: Option<string>, i: nat, j: nat)
    requires NoDup(records) && DistinctSources(records) && DistinctIds(records) && scope in Scopes(projects)
    requires i < j < |Chain(records, scope)|
    ensures Reaches(Edges(records, projects), Chain(records, scope)[i].id, Chain(records, scope)[j].id)
  {
    forall k: nat ensures LinkedAt(Edges(records, projects), Chain(records, scope), k) {
      if k + 1 < |Chain(records, scope)| {
        NeighboursLinked(records, projects, scope, k);
      }
    }
    LinkedReaches(Edges(records, projects), Chain(records, scope), i, j);
  }

  lemma ReachesRises(records: seq<Record>, projects: seq<string>, a: Record, b: Record)
    requires NoDup(records) && DistinctSources(records) && DistinctIds(records)
    requires a in records && b in records && Reaches(Edges(records, projects), a.id, b.id)
    ensures Above(a, b)
  {
    var p :| Path(Edges(records, projects), p) && p[0] == a.id && p[|p| - 1] == b.id;
    var c, d := PathRises(records, projects, p);
    assert c == a && d == b;
  }

  /** In a scope's chain, places follow precedence. */
  lemma PlacesOrdered(records: seq<Record>, scope: Option<string>, i: nat, j: nat)
    requires NoDup(records) && DistinctSources(records)
    requires i < |Chain(records, scope)| && j < |Chain(records, scope)|
    ensures i < j <==> Above(Chain(records, scope)[i], Chain(records, scope)[j])
  {
    ChainRises(records, scope);
    TextLessTotal(Chain(records, scope)[i].sourceReference, Chain(records, scope)[j].sourceReference);
  }

  lemma AboveReaches(records: seq<Record>, projects: seq<string>, scope: Option<string>, i: nat, j: nat)
    requires NoDup(records) && DistinctSources(records) && DistinctIds(records) && scope in Scopes(projects)
    requires i < |Chain(records, scope)| && j < |Chain(records, scope)|
    ensures var a, b := Chain(records, scope)[i], Chain(records, scope)[j];
            a in records && b in records && (Reaches(Edges(records, projects), a.id, b.id) <==> Above(a, b))
  {
    var a, b := Chain(records, scope)[i], Chain(records, scope)[j];
    ChainRises(records, scope);
    assert a in Chain(records, scope) && b in Chain(records, scope);
    PlacesOrdered(records, scope, i, j);
    if i < j {
      ChainIsPath(records, projects, scope, i, j);
    } else if Reaches(Edges(records, projects), a.id, b.id) {
      ReachesRises(records, projects, a, b);
    }
  }

  /**
   Among the records that apply in one scope, one reaches another exactly when the other has strictly
   more precedence, and of two different records one reaches the other: they form a single chain.
   */
  lemma OrderIsReachability(records: seq<Record>, projects: seq<string>, scope: Option<string>, a: Record, b: Record)
    requires NoDup(records) && DistinctSources(records) && DistinctIds(records) && scope in Scopes(projects)
    requires a in records && AppliesIn(scope)(a) && b in records && AppliesIn(scope)(b)
    ensures Reaches(Edges(records, projects), a.id, b.id) <==> Above(a, b)
    ensures a != b ==> Reaches(Edges(records, projects), a.id, b.id) || Reaches(Edges(records, projects), b.id, a.id)
  {
    ChainRises(records, scope);
    var i, j := PlaceOf(Chain(records, scope), a), PlaceOf(Chain(records, scope), b);
    AboveReaches(records, projects, scope, i, j);
    AboveReaches(records, projects, scope, j, i);
    TextLessTotal(a.sourceReference, b.sourceReference);
  }

  function PlaceOf(chain: seq<Record>, r: Record): (i: nat)
    requires r in chain
    ensures i < |chain| && chain[i] == r
  {
    if chain[0] == r then 0 else 1 + PlaceOf(chain[1..], r)
  }

  /** What an edge says: its ends and the relation that the higher record's kind gives it. */
  lemma EdgeMeaning(records: seq<Record>, projects: seq<string>, e: Edge) returns (a: Record, b: Record)
    requires NoDup(records) && DistinctSources(records) && DistinctIds(records) && e in Edges(records, projects)
    ensures a in records && b in records && Above(a, b) && e.lower == a.id && e.higher == b.id
    ensures e.relation == "overrides" <==> b.kind == "override"
  {
    NoEdgeDropped(records, projects);
    a, b := LinkRises(records, Scopes(projects), e);
  }

  // ---------- which edges there are ----------

  /** The whole host, or one of the projects. */
  ghost predicate IsScope(projects: seq<string>, scope: Option<string>) {
    scope == None || exists p :: p in projects && scope == Some(p)
  }

  /** The record belongs to no project, or to that of the scope. */
  predicate Applies(r: Record, scope: Option<string>) {
    r.projectId == None || r.projectId == scope
  }

  /** A lower rank, or the same rank and a source that comes before. */
  ghost predicate Under(a: Record, b: Record) {
    a.rank < b.rank || (a.rank == b.rank && Precedes(a.sourceReference, b.sourceReference))
  }

  /** In the scope both records apply, and none that applies is between them. */
  ghost predicate Adjacent(records: seq<Record>, scope: Option<string>, a: Record, b: Record) {
    && a in records && b in records && Applies(a, scope) && Applies(b, scope) && Under(a, b)
    && forall c :: c in records && Applies(c, scope) ==> !(Under(a, c) && Under(c, b))
  }

  lemma UnderExactly(a: Record, b: Record)
    ensures Above(a, b) <==> Under(a, b)
  {
    TextLessExactly(a.sourceReference, b.sourceReference);
  }

  lemma ScopesExactly(projects: seq<string>, scope: Option<string>)
    ensures scope in Scopes(projects) <==> IsScope(projects, scope)
  {
    var named := Map(projects, ProjectScope);
    assert scope in Scopes(projects) <==> scope == None || scope in named;
    if scope in named {
      var k :| 0 <= k < |named| && named[k] == scope;
      assert projects[k] in projects;
    }
    if exists p :: p in projects && scope == Some(p) {
      var k :| 0 <= k < |projects| && scope == Some(projects[k]);
      assert named[k] == scope;
    }
  }

  lemma NeighboursAreAdjacent(records: seq<Record>, scope: Option<string>, k: nat)
    requires NoDup(records) && DistinctSources(records) && k + 1 < |Chain(records, scope)|
    ensures Adjacent(records, scope, Chain(records, scope)[k], Chain(records, scope)[k + 1])
  {
    var chain := Chain(records, scope);
    var a, b := chain[k], chain[k + 1];
    ChainRises(records, scope);
    assert a in chain && b in chain;
    UnderExactly(a, b);
    forall c | c in records && Applies(c, scope) ensures !(Under(a, c) && Under(c, b)) {
      var m := PlaceOf(chain, c);
      UnderExactly(a, c);
      UnderExactly(c, b);
      PlacesOrdered(records, scope, k, m);
      PlacesOrdered(records, scope, m, k + 1);
    }
  }

  lemma AdjacentAreNeighbours(records: seq<Record>, scope: Option<string>, a: Record, b: Record) returns (k: nat)
    requires NoDup(records) && DistinctSources(records) && Adjacent(records, scope, a, b)
    ensures k + 1 < |Chain(records, scope)| && a == Chain(records, scope)[k] && b == Chain(records, scope)[k + 1]
  {
    ChainRises(records, scope);
    k := PlaceOf(Chain(records, scope), a);
    var j := PlaceOf(Chain(records, scope), b);
    UnderExactly(a, b);
    PlacesOrdered(records, scope, k, j);
    NothingBetween(records, scope, k, j);
  }

  lemma NothingBetween(records: seq<Record>, scope: Option<string>, k: nat, j: nat)
    requires NoDup(records) && DistinctSources(records) && k < j < |Chain(records, scope)|
    requires Adjacent(records, scope, Chain(records, scope)[k], Chain(records, scope)[j])
    ensures j == k + 1
  {
    var a, b, c := Chain(records, scope)[k], Chain(records, scope)[j], Chain(records, scope)[k + 1];
    ChainRises(records, scope);
    assert c in Chain(records, scope);
    UnderExactly(a, c);
    UnderExactly(c, b);
    PlacesOrdered(records, scope, k, k + 1);
    PlacesOrdered(records, scope, k + 1, j);
  }

  /** The edge says that `b` comes right above `a`. */
  ghost predicate Tells(records: seq<Record>, e: Edge, a: Record, b: Record) {
    && records != [] && e.hostId == records[0].hostId && e.providerId == records[0].providerId
    && e.lower == a.id && e.higher == b.id
    && e.relation == if b.kind == "override" then "overrides" else "more_specific"
  }

  lemma LinkTells(records: seq<Record>, e: Edge, a: Record, b: Record)
    requires records != []
    ensures e == Link(records[0], a, b) <==> Tells(records, e, a, b)
  {
  }

  /** There is an edge for every two records that are adjacent in some scope, and there is no other edge. */
  lemma EdgesExactly(records: seq<Record>, projects: seq<string>, e: Edge)
    requires NoDup(records) && DistinctSources(records) && DistinctIds(records)
    ensures e in Edges(records, projects) <==>
            exists scope, a, b :: IsScope(projects, scope) && Adjacent(records, scope, a, b) && Tells(records, e, a, b)
  {
    NoEdgeDropped(records, projects);
    AllLinksExactly(records, Scopes(projects), e);
    if e in Edges(records, projects) {
      var scope :| scope in Scopes(projects) && LinkedIn(records, scope, e);
      var a, b := LinkedAreAdjacent(records, scope, e);
      ScopesExactly(projects, scope);
    }
    if exists scope, a, b :: IsScope(projects, scope) && Adjacent(records, scope, a, b) && Tells(records, e, a, b) {
      var scope, a, b :| IsScope(projects, scope) && Adjacent(records, scope, a, b) && Tells(records, e, a, b);
      ScopesExactly(projects, scope);
      AdjacentAreLinked(records, scope, e, a, b);
    }
  }

  lemma LinkedAreAdjacent(records: seq<Record>, scope: Option<string>, e: Edge) returns (a: Record, b: Record)
    requires NoDup(records) && DistinctSources(records) && LinkedIn(records, scope, e)
    ensures Adjacent(records, scope, a, b) && Tells(records, e, a, b)
  {
    var chain := Chain(records, scope);
    var k :| 0 <= k < |Links(records[0], chain)| && e == Links(records[0], chain)[k];
    NeighboursAreAdjacent(records, scope, k);
    a, b := chain[k], chain[k + 1];
    LinkTells(records, e, a, b);
  }

  lemma AdjacentAreLinked(records: seq<Record>, scope: Option<string>, e: Edge, a: Record, b: Record)
    requires NoDup(records) && DistinctSources(records) && Adjacent(records, scope, a, b) && Tells(records, e, a, b)
    ensures LinkedIn(records, scope, e)
  {
    var k := AdjacentAreNeighbours(records, scope, a, b);
    LinkTells(records, e, a, b);
    assert e == Links(records[0], Chain(records, scope))[k];
  }

  /** The edges are in the order of their lower ids, and then of their higher ids. */
  lemma EdgesInOrder(records: seq<Record>, projects: seq<string>, i: nat, j: nat)
    requires i < j < |Edges(records, projects)|
    ensures var e, f := Edges(records, projects)[i], Edges(records, projects)[j];
            || Precedes(e.lower, f.lower)
            || (e.lower == f.lower && (Precedes(e.higher, f.higher) || e.higher == f.higher))
  {
    var all := AllLinks(records, Scopes(projects));
    EdgeOrder();
    SortSorted(all, EdgeLe);
    DedupStaysSorted(Sort(all, EdgeLe), EdgeLe, SameEnds);
    var e, f := Edges(records, projects)[i], Edges(records, projects)[j];
    assert EdgeLe(e, f);
    TextLessExactly(e.lower, f.lower);
    TextLessExactly(e.higher, f.higher);
  }
}
