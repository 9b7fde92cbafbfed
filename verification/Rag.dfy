/**
 The retrieval projection: a list of document chunks kept in memory, the table
 it is persisted in, and lexical retrieval with citations. No embedding provider
 takes part, and content is ASCII, so that a byte is a character.
 */
module Rag {
  import opened Domain
  import opened Ordering
  import opened Sequences
  import opened Text

  datatype Document = Document(
    recordId: string,
    scope: Scope,
    title: string,
    content: string,
    sourceReference: string,
    sourceHash: string,
    sensitivity: Sensitivity,
    lifecycle: Lifecycle)

  datatype Chunk = Chunk(
    recordId: string,
    title: string,
    text: string,
    scope: Scope,
    sourceReference: string,
    sourceHash: string,
    sensitivity: Sensitivity,
    lifecycle: Lifecycle,
    index: nat,
    indexedAt: int)

  datatype Config = Config(
    enabled: bool,
    allowedScopes: seq<Scope>,
    embeddingProvider: Option<string>,
    retentionDays: Option<nat>,
    chunkSize: nat,
    retrievalLimit: nat)

  datatype Citation = Citation(recordId: string, sourceReference: string, sourceHash: string, index: nat)

  datatype Context = Context(
    enabled: bool,
    query: string,
    scope: Scope,
    items: seq<string>,
    citations: seq<Citation>,
    warning: Option<string>)

  /** Instants count nanoseconds. */
  const DAY: int := 86_400_000_000_000

  const DISABLED_WARNING := "RAG is disabled; use AMCP lexical search instead."
  const PROVIDER_WARNING := "Configured embedding provider is unavailable; using lexical ranking."

  predicate FieldMatches(requested: Option<string>, actual: Option<string>) {
    requested.Some? ==> actual == requested
  }

  predicate ScopeMatches(requested: Scope, actual: Scope) {
    && FieldMatches(requested.hostId, actual.hostId)
    && FieldMatches(requested.providerId, actual.providerId)
    && FieldMatches(requested.projectId, actual.projectId)
  }

  predicate ScopeAllowed(config: Config, scope: Scope) {
    config.allowedScopes == [] || exists allowed <- config.allowedScopes :: ScopeMatches(allowed, scope)
  }

  // ---------- indexing ----------

  predicate Accepted(config: Config, d: Document) {
    ScopeAllowed(config, d.scope) && d.lifecycle == Active && d.sensitivity != SecretLike
  }

  function ChunkSize(config: Config): nat
    ensures ChunkSize(config) > 0
  {
    if config.chunkSize == 0 then 1 else config.chunkSize
  }

  function Pieces(content: string, size: nat): seq<string>
    requires size > 0
    decreases |content|
  {
    if content == [] then []
    else if |content| <= size then [content]
    else [content[..size]] + Pieces(content[size..], size)
  }

  function ChunkOf(d: Document, at: int, index: nat, text: string): Chunk {
    Chunk(d.recordId, d.title, text, d.scope, d.sourceReference, d.sourceHash, d.sensitivity, d.lifecycle, index, at)
  }

  function ChunksOf(d: Document, at: int, size: nat): (r: seq<Chunk>)
    requires size > 0
    ensures |r| == |Pieces(d.content, size)|
    ensures forall i :: 0 <= i < |r| ==> r[i] == ChunkOf(d, at, i, Pieces(d.content, size)[i])
  {
    var pieces := Pieces(d.content, size);
    seq(|pieces|, i requires 0 <= i < |pieces| => ChunkOf(d, at, i, pieces[i]))
  }

  function Of(record: string): Chunk -> bool {
    (c: Chunk) => c.recordId == record
  }

  function NotOf(record: string): Chunk -> bool {
    (c: Chunk) => c.recordId != record
  }

  function NotFrom(sourceHash: string): Chunk -> bool {
    (c: Chunk) => c.sourceHash != sourceHash
  }

  function Since(cutoff: int): Chunk -> bool {
    (c: Chunk) => c.indexedAt >= cutoff
  }

  function AllowedBy(config: Config): Chunk -> bool {
    (c: Chunk) => ScopeAllowed(config, c.scope)
  }

  function IndexedOne(config: Config, chunks: seq<Chunk>, d: Document, at: int): seq<Chunk> {
    if Accepted(config, d) then Filter(chunks, NotOf(d.recordId)) + ChunksOf(d, at, ChunkSize(config)) else chunks
  }

  /** The chunks after indexing `documents` in order. */
  function Indexed(config: Config, chunks: seq<Chunk>, documents: seq<Document>, at: int): seq<Chunk> {
    if documents == [] then chunks
    else
      var last := |documents| - 1;
      IndexedOne(config, Indexed(config, chunks, documents[..last], at), documents[last], at)
  }

  /** How many chunks that makes. */
  function IndexedCount(config: Config, documents: seq<Document>): nat {
    if documents == [] then 0
    else
      var last := |documents| - 1;
      IndexedCount(config, documents[..last])
      + if Accepted(config, documents[last]) then |Pieces(documents[last].content, ChunkSize(config))| else 0
  }

  function Cutoff(now: int, days: nat): int {
    now - days * DAY
  }

  function Purged(config: Config, chunks: seq<Chunk>, now: int): seq<Chunk> {
    match config.retentionDays
    case None => chunks
    case Some(days) => Filter(chunks, Since(Cutoff(now, days)))
  }

  // ---------- retrieval ----------

  /** The text up to the first white space. */
  function Word(s: string): (r: string)
    ensures r <= s
    ensures s != [] && !IsSpace(s[0]) ==> r != []
  {
    if s == [] || IsSpace(s[0]) then [] else [s[0]] + Word(s[1..])
  }

  function Terms(query: string): seq<string>
    decreases |query|
  {
    if query == [] then []
    else if IsSpace(query[0]) then Terms(query[1..])
    else [Word(query)] + Terms(query[|Word(query)|..])
  }

  predicate Contains(text: string, part: string) {
    exists i {:trigger text[i..]} :: 0 <= i <= |text| && part <= text[i..]
  }

  function OccursIn(text: string): string -> bool {
    term => Contains(LowerAll(text), LowerAll(term))
  }

  /** How many terms of the query occur in the text, whatever the case. */
  function Score(query: string, text: string): nat {
    |Filter(Terms(query), OccursIn(text))|
  }

  function Eligible(query: string, scope: Scope): Chunk -> bool {
    (c: Chunk) =>
      c.lifecycle == Active && c.sensitivity != SecretLike && ScopeMatches(scope, c.scope) && Score(query, c.text) > 0
  }

  predicate ReferenceLe(a: Chunk, b: Chunk) {
    TextLess(a.sourceReference, b.sourceReference) || (a.sourceReference == b.sourceReference && a.index <= b.index)
  }

  predicate RankLe(query: string, a: Chunk, b: Chunk) {
    || Score(query, a.text) > Score(query, b.text)
    || (Score(query, a.text) == Score(query, b.text) && ReferenceLe(a, b))
  }

  function Ranking(query: string): (Chunk, Chunk) -> bool {
    (a, b) => RankLe(query, a, b)
  }

  function Ranked(chunks: seq<Chunk>, query: string, scope: Scope): seq<Chunk> {
    Sort(Filter(chunks, Eligible(query, scope)), Ranking(query))
  }

  function Item(c: Chunk): string {
    c.title + ": " + c.text
  }

  function Cite(c: Chunk): Citation {
    Citation(c.recordId, c.sourceReference, c.sourceHash, c.index)
  }

  function Retrieval(config: Config, chunks: seq<Chunk>, query: string, scope: Scope, limit: nat): Context {
    var selected := Take(Ranked(chunks, query, scope), limit);
    Context(
      config.enabled, query, scope, Map(selected, Item), Map(selected, Cite),
      if config.enabled && config.embeddingProvider.Some? then Some(PROVIDER_WARNING)
      else if config.enabled then None
      else Some(DISABLED_WARNING))
  }

  // ---------- the table ----------

  /** The table's primary key. */
  function ChunkId(c: Chunk): string {
    c.recordId + "#" + Decimal(c.index)
  }

  predicate RowLe(a: Chunk, b: Chunk) {
    TextLess(a.recordId, b.recordId) || (a.recordId == b.recordId && a.index <= b.index)
  }

  /** Rows in the order they are read back. */
  function Stored(rows: seq<Chunk>): seq<Chunk> {
    Sort(rows, RowLe)
  }

  function Loaded(config: Config, rows: seq<Chunk>): seq<Chunk> {
    Filter(Stored(rows), AllowedBy(config))
  }

  predicate StaleChunk(current: map<string, string>, c: Chunk) {
    c.recordId !in current || current[c.recordId] != c.sourceHash
  }

  /** The records with a chunk whose source has disappeared or changed. */
  function StaleRecords(current: map<string, string>, rows: seq<Chunk>): set<string> {
    set c | c in rows && StaleChunk(current, c) :: c.recordId
  }

  function NotIn(records: set<string>): Chunk -> bool {
    (c: Chunk) => c.recordId !in records
  }

  function Refreshed(current: map<string, string>, rows: seq<Chunk>): seq<Chunk> {
    Filter(rows, NotIn(StaleRecords(current, rows)))
  }

  class PersistentRagIndex {
    var rows: seq<Chunk>

    constructor ()
      ensures rows == []
    {
      rows := [];
    }

    function LoadChunks(): seq<Chunk>
      reads this
    {
      Stored(rows)
    }

    /** Replaces the whole table in one transaction, which a repeated key undoes. */
    method ReplaceChunks(chunks: seq<Chunk>) returns (count: Option<nat>)
      modifies this
      ensures count == if NoDup(Map(chunks, ChunkId)) then Some(|chunks|) else None
      ensures rows == if count.Some? then chunks else old(rows)
    {
      var inserted: map<string, Chunk> := map[];
      for k := 0 to |chunks|
        invariant rows == old(rows)
        invariant NoDup(Map(chunks[..k], ChunkId))
        invariant forall id :: id in inserted <==> id in Map(chunks[..k], ChunkId)
      {
        var id := ChunkId(chunks[k]);
        var ids, before := Map(chunks[..k + 1], ChunkId), Map(chunks[..k], ChunkId);
        assert ids == before + [id];
        if id in inserted {
          var j :| 0 <= j < k && before[j] == id;
          assert Map(chunks, ChunkId)[j] == Map(chunks, ChunkId)[k];
          return None;
        }
        inserted := inserted[id := chunks[k]];
      }
      assert chunks[..|chunks|] == chunks;
      rows := chunks;
      return Some(|chunks|);
    }

    /** Deletes every record whose source is no longer current. */
    method InvalidateStaleSources(current: map<string, string>) returns (removed: nat)
      modifies this
      ensures rows == Refreshed(current, old(rows))
      ensures removed == |old(rows)| - |rows|
    {
      var stale := FindStale(current, LoadChunks());
      SameStaleRecords(current, rows);
      var before := rows;
      if stale != {} {
        rows := Filter(before, NotIn(stale));
      } else {
        FilterAll(before, NotIn(stale));
      }
      removed := |before| - |rows|;
    }
  }

  method FindStale(current: map<string, string>, loaded: seq<Chunk>) returns (stale: set<string>)
    ensures stale == StaleRecords(current, loaded)
  {
    stale := {};
    for k := 0 to |loaded|
      invariant stale == StaleRecords(current, loaded[..k])
    {
      StaleNext(current, loaded, k);
      if StaleChunk(current, loaded[k]) {
        stale := stale + {loaded[k].recordId};
      }
    }
    assert loaded[..|loaded|] == loaded;
  }

  lemma StaleNext(current: map<string, string>, rows: seq<Chunk>, k: nat)
    requires k < |rows|
    ensures StaleRecords(current, rows[..k + 1]) ==
            StaleRecords(current, rows[..k]) + if StaleChunk(current, rows[k]) then {rows[k].recordId} else {}
  {
    assert rows[..k + 1] == rows[..k] + [rows[k]];
  }

  lemma SameStaleRecords(current: map<string, string>, rows: seq<Chunk>)
    ensures StaleRecords(current, Stored(rows)) == StaleRecords(current, rows)
  {
    forall c ensures c in Stored(rows) <==> c in rows {
      assert c in multiset(Stored(rows)) <==> c in multiset(rows);
    }
  }

  // ---------- the manager ----------

  datatype EvaluationCase = EvaluationCase(
    id: string, query: string, scope: Scope, expected: seq<string>, forbidden: seq<string>)

  datatype CaseResult = CaseResult(id: string, items: nat, citations: nat, expectedHits: nat, forbiddenHits: nat)

  datatype Report = Report(
    cases: seq<CaseResult>, items: nat, citations: nat, expected: nat, expectedHits: nat, forbiddenHits: nat)

  function CitedRecords(citations: seq<Citation>): set<string> {
    set c | c in citations :: c.recordId
  }

  function InSet(records: set<string>): string -> bool {
    r => r in records
  }

  function CaseOutcome(config: Config, chunks: seq<Chunk>, limit: nat, evaluated: EvaluationCase): CaseResult {
    var context := Retrieval(config, chunks, evaluated.query, evaluated.scope, limit);
    var cited := CitedRecords(context.citations);
    CaseResult(evaluated.id, |context.items|, |context.citations|,
               |Filter(evaluated.expected, InSet(cited))|, |Filter(evaluated.forbidden, InSet(cited))|)
  }

  function Counted(report: Report, result: CaseResult, evaluated: EvaluationCase): Report {
    Report(
      report.cases + [result],
      report.items + result.items,
      report.citations + result.citations,
      report.expected + |evaluated.expected|,
      report.expectedHits + result.expectedHits,
      report.forbiddenHits + result.forbiddenHits)
  }

  function OutcomeIn(config: Config, chunks: seq<Chunk>, limit: nat): EvaluationCase -> CaseResult {
    (c: EvaluationCase) => CaseOutcome(config, chunks, limit, c)
  }

  /** The report over all cases. */
  function Tallied(cases: seq<EvaluationCase>, outcome: EvaluationCase -> CaseResult): Report {
    if cases == [] then Report([], 0, 0, 0, 0, 0)
    else
      var n := |cases| - 1;
      Counted(Tallied(cases[..n], outcome), outcome(cases[n]), cases[n])
  }

  function Evaluation(config: Config, chunks: seq<Chunk>, limit: nat, cases: seq<EvaluationCase>): Report {
    Tallied(cases, OutcomeIn(config, chunks, limit))
  }

  method KeepAllowed(config: Config, stored: seq<Chunk>) returns (kept: seq<Chunk>)
    ensures kept == Filter(stored, AllowedBy(config))
  {
    kept := [];
    for k := 0 to |stored|
      invariant kept == Filter(stored[..k], AllowedBy(config))
    {
      FilterNext(stored, k, AllowedBy(config));
      if AllowedBy(config)(stored[k]) {
        kept := kept + [stored[k]];
      }
    }
    assert stored[..|stored|] == stored;
  }

  class LexicalRagManager {
    const config: Config
    var chunks: seq<Chunk>

    constructor (config: Config)
      ensures this.config == config && chunks == []
    {
      this.config, chunks := config, [];
    }

    /** A manager over the stored chunks of the allowed scopes. */
    constructor LoadFromIndex(config: Config, index: PersistentRagIndex)
      ensures this.config == config && chunks == Loaded(config, index.rows)
    {
      this.config := config;
      new;
      var stored := index.LoadChunks();
      chunks := KeepAllowed(config, stored);
    }

    method Index(documents: seq<Document>, at: int) returns (indexed: nat)
      modifies this
      ensures chunks == if config.enabled then Indexed(config, old(chunks), documents, at) else old(chunks)
      ensures indexed == if config.enabled then IndexedCount(config, documents) else 0
    {
      indexed := 0;
      if !config.enabled {
        return;
      }
      for n := 0 to |documents|
        invariant chunks == Indexed(config, old(chunks), documents[..n], at)
        invariant indexed == IndexedCount(config, documents[..n])
      {
        var d := documents[n];
        assert documents[..n + 1][..n] == documents[..n];
        if Accepted(config, d) {
          chunks := Filter(chunks, NotOf(d.recordId));
          var pushed := PushPieces(d, at);
          indexed := indexed + pushed;
        }
      }
      assert documents[..|documents|] == documents;
    }

    /** Pushes the numbered pieces of one document. */
    method PushPieces(d: Document, at: int) returns (pushed: nat)
      modifies this
      ensures chunks == old(chunks) + ChunksOf(d, at, ChunkSize(config))
      ensures pushed == |Pieces(d.content, ChunkSize(config))|
    {
      ghost var made := ChunksOf(d, at, ChunkSize(config));
      pushed := 0;
      var pieces := Pieces(d.content, ChunkSize(config));
      for k := 0 to |pieces|
        invariant chunks == old(chunks) + made[..k]
        invariant pushed == k
      {
        chunks := chunks + [ChunkOf(d, at, k, pieces[k])];
        pushed := pushed + 1;
        assert made[..k + 1] == made[..k] + [made[k]];
      }
      assert made[..|pieces|] == made;
    }

    method PurgeExpired(now: int) returns (removed: nat)
      modifies this
      ensures chunks == Purged(config, old(chunks), now)
      ensures removed == |old(chunks)| - |chunks|
    {
      if config.retentionDays.None? {
        return 0;
      }
      var before := |chunks|;
      chunks := Filter(chunks, Since(Cutoff(now, config.retentionDays.value)));
      removed := before - |chunks|;
    }

    method InvalidateSource(sourceHash: string) returns (removed: nat)
      modifies this
      ensures chunks == Filter(old(chunks), NotFrom(sourceHash))
      ensures removed == |old(chunks)| - |chunks|
    {
      var before := |chunks|;
      chunks := Filter(chunks, NotFrom(sourceHash));
      removed := before - |chunks|;
    }

    /** Runs every case through retrieval and adds the counts up. */
    method Evaluate(cases: seq<EvaluationCase>, limit: nat) returns (report: Report)
      ensures report == Evaluation(config, chunks, limit, cases)
    {
      report := Report([], 0, 0, 0, 0, 0);
      for n := 0 to |cases|
        invariant report == Evaluation(config, chunks, limit, cases[..n])
      {
        var result := OutcomeIn(config, chunks, limit)(cases[n]);
        assert cases[..n + 1][..n] == cases[..n];
        report := Counted(report, result, cases[n]);
      }
      assert cases[..|cases|] == cases;
    }
  }
}
