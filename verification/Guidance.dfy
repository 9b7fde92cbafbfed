/**
 Precedence edges between guidance files: in every project scope the applicable
 records are sorted by precedence and neighbours are linked.
 */
module Guidance {
  import opened Ordering
  import opened Sequences

  datatype Record = Record(
    id: string,
    hostId: string,
    providerId: string,
    projectId: Option<string>,
    sourceReference: string,
    kind: string,
    rank: int)

  datatype Edge = Edge(hostId: string, providerId: string, lower: string, higher: string, relation: string)

  // ---------- one record a source ----------

  predicate SourceLe(a: Record, b: Record) {
    TextLess(a.sourceReference, b.sourceReference) || (a.sourceReference == b.sourceReference && a.rank <= b.rank)
  }

  predicate SameSource(a: Record, b: Record) {
    a.sourceReference == b.sourceReference
  }

  /** The records of a discovery, one a source file. */
  function Records(found: seq<Record>): seq<Record> {
    DedupBy(Sort(found, SourceLe), SameSource)
  }

  // ---------- edges ----------

  /** By precedence rank and then by source. */
  predicate PrecedenceLe(a: Record, b: Record) {
    a.rank < b.rank || (a.rank == b.rank && TextLe(a.sourceReference, b.sourceReference))
  }

  function AppliesIn(scope: Option<string>): Record -> bool {
    (r: Record) => r.projectId.None? || r.projectId == scope
  }

  function Chain(records: seq<Record>, scope: Option<string>): seq<Record> {
    Sort(Filter(records, AppliesIn(scope)), PrecedenceLe)
  }

  function Relation(higher: Record): string {
    if higher.kind == "override" then "overrides" else "more_specific"
  }

  function Link(origin: Record, lower: Record, higher: Record): Edge {
    Edge(origin.hostId, origin.providerId, lower.id, higher.id, Relation(higher))
  }

  /** The links between neighbours. */
  function Links(origin: Record, chain: seq<Record>): (r: seq<Edge>)
    ensures |r| == if |chain| < 2 then 0 else |chain| - 1
    ensures forall k :: 0 <= k < |r| ==> r[k] == Link(origin, chain[k], chain[k + 1])
  {
    if |chain| < 2 then []
    else seq(|chain| - 1, k requires 0 <= k < |chain| - 1 => Link(origin, chain[k], chain[k + 1]))
  }

  function AllLinks(records: seq<Record>, scopes: seq<Option<string>>): seq<Edge> {
    if scopes == [] || records == [] then []
    else
      var last := |scopes| - 1;
      AllLinks(records, scopes[..last]) + Links(records[0], Chain(records, scopes[last]))
  }

  function ProjectScope(project: string): Option<string> {
    Some(project)
  }

  function Scopes(projects: seq<string>): seq<Option<string>> {
    [None] + Map(projects, ProjectScope)
  }

  predicate EdgeLe(a: Edge, b: Edge) {
    TextLess(a.lower, b.lower) || (a.lower == b.lower && TextLe(a.higher, b.higher))
  }

  predicate SameEnds(a: Edge, b: Edge) {
    a.lower == b.lower && a.higher == b.higher
  }

  function Edges(records: seq<Record>, projects: seq<string>): seq<Edge> {
    DedupBy(Sort(AllLinks(records, Scopes(projects)), EdgeLe), SameEnds)
  }

  method GuidanceEdges(records: seq<Record>, projects: seq<string>) returns (edges: seq<Edge>)
    ensures edges == Edges(records, projects)
  {
    edges := [];
    var scopes := [None];
    for n := 0 to |projects|
      invariant scopes == Scopes(projects[..n])
    {
      scopes := scopes + [Some(projects[n])];
      assert Map(projects[..n + 1], ProjectScope) == Map(projects[..n], ProjectScope) + [Some(projects[n])];
    }
    assert projects[..|projects|] == projects;
    for n := 0 to |scopes|
      invariant edges == AllLinks(records, scopes[..n])
    {
      var applicable := Sort(Filter(records, AppliesIn(scopes[n])), PrecedenceLe);
      assert scopes[..n + 1][..n] == scopes[..n];
      if |applicable| >= 2 {
        NotEmpty(records, scopes[n]);
        edges := AddLinks(edges, records[0], applicable);
      }
    }
    assert scopes[..|scopes|] == scopes;
    edges := DedupBy(Sort(edges, EdgeLe), SameEnds);
  }

  method AddLinks(before: seq<Edge>, origin: Record, applicable: seq<Record>) returns (edges: seq<Edge>)
    requires applicable != []
    ensures edges == before + Links(origin, applicable)
  {
    edges := before;
    for k := 1 to |applicable|
      invariant edges == before + Links(origin, applicable[..k])
    {
      edges := edges + [Link(origin, applicable[k - 1], applicable[k])];
      assert Links(origin, applicable[..k + 1]) ==
             Links(origin, applicable[..k]) + [Link(origin, applicable[k - 1], applicable[k])];
    }
    assert applicable[..|applicable|] == applicable;
  }

  lemma NotEmpty(records: seq<Record>, scope: Option<string>)
    requires Chain(records, scope) != []
    ensures records != []
  {
  }
}
