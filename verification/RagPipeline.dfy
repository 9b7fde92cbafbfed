/** The retrieval tool: refresh the table against the catalog, index the hits, purge, persist, retrieve. */
module RagPipeline {
  import opened Domain
  import opened Rag
  import opened RagOrder
  import opened RagProjection
  import opened RagRetrieval
  import opened Sequences
  import opened Text

  /** A search hit of the catalog. */
  datatype Hit = Hit(
    artifactId: string,
    hostId: string,
    providerId: string,
    projectId: Option<string>,
    title: string,
    preview: string,
    sourceReference: string,
    sourceHash: string,
    sensitivity: Sensitivity)

  function DocumentOf(h: Hit): Document {
    Document(h.artifactId, Scope(Some(h.hostId), Some(h.providerId), h.projectId), h.title, h.preview,
             h.sourceReference, h.sourceHash, h.sensitivity, Active)
  }

  function Limit(config: Config, requested: Option<nat>): nat {
    Clamp(if requested.Some? then requested.value else config.retrievalLimit, 1, 20)
  }

  function PurgeWarning(purged: nat): string {
    Decimal(purged) + " expired RAG chunks were purged before retrieval."
  }

  /** The chunks after loading the refreshed table and indexing the hits. */
  function Collected(
    config: Config, rows: seq<Chunk>, current: map<string, string>, hits: seq<Hit>, at: int): seq<Chunk>
  {
    Indexed(config, Loaded(config, Refreshed(current, rows)), Map(hits, DocumentOf), at)
  }

  /** Refreshes the table and collects the chunks to retrieve from. */
  method Collect(
    index: PersistentRagIndex, config: Config, current: map<string, string>, hits: seq<Hit>, at: int, now: int)
    returns (chunks: seq<Chunk>, purged: nat)
    requires config.enabled
    modifies index
    ensures index.rows == Refreshed(current, old(index.rows))
    ensures chunks == Purged(config, Collected(config, old(index.rows), current, hits, at), now)
    ensures purged == |Collected(config, old(index.rows), current, hits, at)| - |chunks|
  {
    var removed := index.InvalidateStaleSources(current);
    var manager := new LexicalRagManager.LoadFromIndex(config, index);
    var indexed := manager.Index(Map(hits, DocumentOf), at);
    purged := manager.PurgeExpired(now);
    chunks := manager.chunks;
  }

  /** The table and the context after the tool has run; no context when persisting fails. */
  ghost function Tool(
    config: Config, rows: seq<Chunk>, current: map<string, string>, hits: seq<Hit>,
    query: string, scope: Scope, requested: Option<nat>, at: int, now: int): (seq<Chunk>, Option<Context>)
  {
    if !config.enabled then (rows, Some(Context(false, query, scope, [], [], Some(DISABLED_WARNING))))
    else
      var collected := Collected(config, rows, current, hits, at);
      var chunks := Purged(config, collected, now);
      if !NoDup(Map(chunks, ChunkId)) then (Refreshed(current, rows), None)
      else (chunks, Some(Found(config, chunks, |collected| - |chunks|, query, scope, requested)))
  }

  /** What is retrieved after `purged` chunks have been purged. */
  function Found(
    config: Config, chunks: seq<Chunk>, purged: int, query: string, scope: Scope, requested: Option<nat>): Context
  {
    var found := Retrieval(config, chunks, query, scope, Limit(config, requested));
    if purged > 0 then found.(warning := Some(PurgeWarning(purged))) else found
  }

  method RetrieveContext(
    index: PersistentRagIndex, config: Config, current: map<string, string>, hits: seq<Hit>,
    query: string, scope: Scope, requested: Option<nat>, at: int, now: int)
    returns (context: Option<Context>)
    modifies index
    ensures (index.rows, context) == Tool(config, old(index.rows), current, hits, query, scope, requested, at, now)
  {
    if !config.enabled {
      return Some(Context(false, query, scope, [], [], Some(DISABLED_WARNING)));
    }
    var chunks, purged := Collect(index, config, current, hits, at, now);
    var persisted := index.ReplaceChunks(chunks);
    if persisted.None? {
      return None;
    }
    return Some(Found(config, chunks, purged, query, scope, requested));
  }

  // ---------- what the tool leaves and returns ----------

  /** The records loaded from the refreshed table. */
  function Start(config: Config, view: View, current: map<string, string>): View {
    Restrict(Restrict(view, EntryCurrent(current)), EntryAllowed(config))
  }

  function CollectedView(config: Config, view: View, current: map<string, string>, hits: seq<Hit>, at: int): View {
    ViewIndexed(config, Start(config, view, current), Map(hits, DocumentOf), at)
  }

  lemma PipelineProjects(
    config: Config, rows: seq<Chunk>, view: View, current: map<string, string>, hits: seq<Hit>, at: int, now: int)
    requires Represents(rows, view)
    ensures Represents(Purged(config, Collected(config, rows, current, hits, at), now),
                       ViewPurged(config, CollectedView(config, view, current, hits, at), now))
  {
    RefreshKeepsWhole(current, rows, view);
    LoadKeepsWhole(config, Refreshed(current, rows), Restrict(view, EntryCurrent(current)));
    IndexKeepsWhole(config, Loaded(config, Refreshed(current, rows)),
                    Start(config, view, current), Map(hits, DocumentOf), at);
    PurgeKeepsWhole(config, Collected(config, rows, current, hits, at),
                    CollectedView(config, view, current, hits, at), now);
  }

  /** On a table that represents its records the tool never fails to persist. */
  lemma PipelinePersists(
    config: Config, rows: seq<Chunk>, view: View, current: map<string, string>, hits: seq<Hit>, at: int, now: int)
    requires Represents(rows, view)
    ensures NoDup(Map(Purged(config, Collected(config, rows, current, hits, at), now), ChunkId))
  {
    PipelineProjects(config, rows, view, current, hits, at, now);
    KeysDistinct(Purged(config, Collected(config, rows, current, hits, at), now),
                 ViewPurged(config, CollectedView(config, view, current, hits, at), now));
  }

  // ---------- what indexing makes of one record ----------

  /** The last accepted document of the record. */
  function LastAccepted(config: Config, documents: seq<Document>, record: string): (r: Option<Document>)
    ensures r.Some? ==> r.value in documents && Fit(config, r.value) && r.value.recordId == record
    ensures r.None? ==> forall d :: d in documents && d.recordId == record ==> !Fit(config, d)
  {
    if documents == [] then None
    else
      var last := |documents| - 1;
      assert documents == documents[..last] + [documents[last]];
      if Fit(config, documents[last]) && documents[last].recordId == record then Some(documents[last])
      else LastAccepted(config, documents[..last], record)
  }

  /**
   Indexing leaves a record with the last document accepted for it, without an entry if that is empty, and else
   as it was.
   */
  lemma {:induction false} IndexedRecord(config: Config, view: View, documents: seq<Document>, at: int, record: string)
    ensures var after := ViewIndexed(config, view, documents, at);
            match LastAccepted(config, documents, record)
            case None => (record in after <==> record in view) && (record in view ==> after[record] == view[record])
            case Some(d) =>
              && (record in after <==> d.content != [])
              && (d.content != [] ==>
                  after[record] == Entry(d, at, if config.chunkSize == 0 then 1 else config.chunkSize))
  {
    if documents == [] {
    } else {
      IndexedRecord(config, view, documents[..|documents| - 1], at, record);
      AcceptedExactly(config, documents[|documents| - 1]);
    }
  }

  /** The hit that the record was last indexed from. */
  function LastHit(config: Config, hits: seq<Hit>, record: string): Option<Document> {
    LastAccepted(config, Map(hits, DocumentOf), record)
  }

  // ---------- what the tool leaves and cites ----------

  /** An allowed scope, and within retention. */
  predicate Admissible(config: Config, now: int, c: Chunk) {
    InAllowedScope(config, c.scope) && !Expired(config, c.indexedAt, now)
  }

  /** The instant is more than the retention's days of 86400 seconds ago. */
  predicate Expired(config: Config, at: int, now: int) {
    config.retentionDays.Some? && now - at > config.retentionDays.value * 86_400_000_000_000
  }

  predicate CurrentHash(current: map<string, string>, record: string, sourceHash: string) {
    record in current && current[record] == sourceHash
  }

  /** The record was not last indexed from a hit that the catalog has replaced in the meantime. */
  predicate HitStillCurrent(config: Config, current: map<string, string>, hits: seq<Hit>, record: string) {
    var hit := LastHit(config, hits, record);
    hit.Some? ==> CurrentHash(current, record, hit.value.sourceHash)
  }

  lemma CollectedEntry(
    config: Config, view: View, current: map<string, string>, hits: seq<Hit>, at: int, record: string)
    requires record in CollectedView(config, view, current, hits, at)
    requires forall r :: r in view ==> view[r].document.recordId == r
    ensures var e := CollectedView(config, view, current, hits, at)[record];
            && e.document.recordId == record && InAllowedScope(config, e.document.scope)
            && (CurrentHash(current, record, e.document.sourceHash) <==> HitStillCurrent(config, current, hits, record))
  {
    IndexedRecord(config, Start(config, view, current), Map(hits, DocumentOf), at, record);
    if LastHit(config, hits, record).None? {
      var e := Start(config, view, current)[record];
      assert EntryCurrent(current)(e) && EntryAllowed(config)(e) && e == view[record];
      ScopeAllowedExactly(config, e.document.scope);
    }
  }

  lemma PurgedEntry(config: Config, view: View, now: int, record: string)
    requires record in ViewPurged(config, view, now)
    ensures record in view && ViewPurged(config, view, now)[record] == view[record]
    ensures !Expired(config, view[record].at, now)
  {
    if config.retentionDays.Some? {
      assert EntrySince(Cutoff(now, config.retentionDays.value))(view[record]);
    }
  }

  lemma OwnRecords(rows: seq<Chunk>, view: View)
    requires Represents(rows, view)
    ensures forall r :: r in view ==> view[r].document.recordId == r
  {
    forall r | r in view ensures view[r].document.recordId == r {
      assert Whole(rows, r, view[r]);
    }
  }

  /**
   Everything the tool leaves in the table has an allowed scope and is within retention, and it has the
   catalog's current hash exactly when its record was not last indexed from a hit that is itself stale.
   */
  lemma TableIsAdmissible(
    config: Config, rows: seq<Chunk>, view: View, current: map<string, string>, hits: seq<Hit>, at: int, now: int,
    c: Chunk)
    requires Represents(rows, view) && c in Purged(config, Collected(config, rows, current, hits, at), now)
    ensures Admissible(config, now, c)
    ensures CurrentHash(current, c.recordId, c.sourceHash) <==> HitStillCurrent(config, current, hits, c.recordId)
  {
    var chunks := Purged(config, Collected(config, rows, current, hits, at), now);
    var collected := CollectedView(config, view, current, hits, at);
    PipelineProjects(config, rows, view, current, hits, at, now);
    MemberOfEntry(chunks, ViewPurged(config, collected, now), c);
    EntryChunk(ViewPurged(config, collected, now)[c.recordId], c);
    PurgedEntry(config, collected, now, c.recordId);
    OwnRecords(rows, view);
    CollectedEntry(config, view, current, hits, at, c.recordId);
  }

  /** Every citation names a chunk left in the table, inside the requested scope. */
  lemma CitationsAreAdmissible(
    config: Config, rows: seq<Chunk>, view: View, current: map<string, string>, hits: seq<Hit>,
    query: string, scope: Scope, limit: nat, at: int, now: int, i: nat)
    returns (c: Chunk)
    requires Represents(rows, view)
    requires i < |Retrieval(config, Purged(config, Collected(config, rows, current, hits, at), now), query, scope,
                            limit).citations|
    ensures var chunks := Purged(config, Collected(config, rows, current, hits, at), now);
            && c in chunks
            && Retrieval(config, chunks, query, scope, limit).citations[i]
               == Citation(c.recordId, c.sourceReference, c.sourceHash, c.index)
    ensures Inside(scope, c.scope) && Admissible(config, now, c)
    ensures CurrentHash(current, c.recordId, c.sourceHash) <==> HitStillCurrent(config, current, hits, c.recordId)
  {
    var chunks := Purged(config, Collected(config, rows, current, hits, at), now);
    c := CitationNamesItem(config, chunks, query, scope, limit, i);
    EligibleExactly(query, scope, c);
    TableIsAdmissible(config, rows, view, current, hits, at, now, c);
  }

  /** When all hits carry the catalog's hashes, so does everything left and cited. */
  lemma CurrentHitsStayCurrent(config: Config, current: map<string, string>, hits: seq<Hit>, record: string)
    requires forall h :: h in hits ==> CurrentHash(current, h.artifactId, h.sourceHash)
    ensures HitStillCurrent(config, current, hits, record)
  {
    var hit := LastHit(config, hits, record);
    if hit.Some? {
      var i :| 0 <= i < |hits| && Map(hits, DocumentOf)[i] == hit.value;
      assert hits[i] in hits;
    }
  }

  // ---------- every hit is there ----------

  /**
   A record is there as the complete pieces of the last hit accepted for it, unless that has no content or
   its retention has already run out; and a record without an accepted hit is there as it was, if it was
   current, allowed and within retention.
   */
  lemma HitIsStored(
    config: Config, rows: seq<Chunk>, view: View, current: map<string, string>, hits: seq<Hit>, at: int, now: int,
    record: string)
    requires Represents(rows, view)
    ensures Filter(Purged(config, Collected(config, rows, current, hits, at), now), Of(record)) ==
            match LastHit(config, hits, record)
            case Some(d) =>
              if Expired(config, at, now) then []
              else ChunksOf(d, at, if config.chunkSize == 0 then 1 else config.chunkSize)
            case None =>
              if record in view && CurrentHash(current, record, view[record].document.sourceHash)
                 && InAllowedScope(config, view[record].document.scope) && !Expired(config, view[record].at, now)
              then Filter(rows, Of(record)) else []
  {
    PipelineProjects(config, rows, view, current, hits, at, now);
    OwnRecords(rows, view);
    IndexedRecord(config, Start(config, view, current), Map(hits, DocumentOf), at, record);
    var chunks := Purged(config, Collected(config, rows, current, hits, at), now);
    var left := ViewPurged(config, CollectedView(config, view, current, hits, at), now);
    RecordOf(chunks, left, record);
    KeptEntry(config, CollectedView(config, view, current, hits, at), now, record);
    if record in view {
      assert Whole(rows, record, view[record]);
      StartEntry(config, view, current, record);
    }
  }

  lemma RecordOf(chunks: seq<Chunk>, view: View, record: string)
    requires Represents(chunks, view)
    ensures Filter(chunks, Of(record)) == if record in view then EntryChunks(view[record]) else []
  {
    if record in view {
      assert Whole(chunks, record, view[record]);
    } else {
      FilterNone(chunks, Of(record));
    }
  }

  lemma KeptEntry(config: Config, view: View, now: int, record: string)
    ensures record in ViewPurged(config, view, now) <==> record in view && !Expired(config, view[record].at, now)
    ensures record in ViewPurged(config, view, now) ==> ViewPurged(config, view, now)[record] == view[record]
  {
    if config.retentionDays.Some? && record in view {
      assert EntrySince(Cutoff(now, config.retentionDays.value))(view[record]) <==>
             !Expired(config, view[record].at, now);
    }
  }

  lemma StartEntry(config: Config, view: View, current: map<string, string>, record: string)
    requires record in view && view[record].document.recordId == record
    ensures record in Start(config, view, current) <==>
            CurrentHash(current, record, view[record].document.sourceHash)
              && InAllowedScope(config, view[record].document.scope)
    ensures record in Start(config, view, current) ==> Start(config, view, current)[record] == view[record]
  {
    assert EntryCurrent(current)(view[record]) <==> CurrentHash(current, record, view[record].document.sourceHash);
    assert EntryAllowed(config)(view[record]) <==> ScopeAllowed(config, view[record].document.scope);
    ScopeAllowedExactly(config, view[record].document.scope);
  }

  /** The hit may be indexed. */
  predicate HitFits(config: Config, h: Hit) {
    InAllowedScope(config, Scope(Some(h.hostId), Some(h.providerId), h.projectId)) && h.sensitivity != SecretLike
  }

  lemma {:induction false} LastFit(config: Config, documents: seq<Document>, i: nat)
    requires i < |documents| && Fit(config, documents[i])
    requires forall j :: i < j < |documents| && documents[j].recordId == documents[i].recordId ==>
             !Fit(config, documents[j])
    ensures LastAccepted(config, documents, documents[i].recordId) == Some(documents[i])
  {
    if i < |documents| - 1 {
      LastFit(config, documents[..|documents| - 1], i);
    }
  }

  lemma {:induction false} PiecesBounded(content: string, size: nat)
    requires size > 0
    ensures forall p :: p in Pieces(content, size) ==> 0 < |p| <= size
    decreases |content|
  {
    if |content| > size {
      PiecesBounded(content[size..], size);
    }
  }

  /** Chunk `k` of the record of a hit. */
  predicate ChunkOfHit(h: Hit, at: int, k: nat, c: Chunk) {
    && c.recordId == h.artifactId && c.title == h.title && c.index == k && c.indexedAt == at
    && c.scope.hostId == Some(h.hostId) && c.scope.providerId == Some(h.providerId) && c.scope.projectId == h.projectId
    && c.sourceReference == h.sourceReference && c.sourceHash == h.sourceHash
    && c.sensitivity == h.sensitivity && c.lifecycle == Active
  }

  /** The chunks are the preview cut into pieces of the size, in order. */
  ghost predicate CutFrom(h: Hit, at: int, size: nat, own: seq<Chunk>) {
    && Joined(Map(own, TextOf)) == h.preview
    && forall k :: 0 <= k < |own| ==>
         && ChunkOfHit(h, at, k, own[k])
         && 0 < |own[k].text| <= size
         && (k < |own| - 1 ==> |own[k].text| == size)
  }

  /**
   After the tool has run, the record of a hit that may be indexed, and is followed by no other such hit of the
   record, consists of the hit's preview in numbered pieces of the configured size with the hit's fields,
   unless its retention has run out.
   */
  lemma HitIsCut(
    config: Config, rows: seq<Chunk>, view: View, current: map<string, string>, hits: seq<Hit>, at: int, now: int,
    i: nat)
    requires Represents(rows, view) && i < |hits| && HitFits(config, hits[i]) && !Expired(config, at, now)
    requires forall j :: i < j < |hits| && hits[j].artifactId == hits[i].artifactId ==> !HitFits(config, hits[j])
    ensures CutFrom(hits[i], at, if config.chunkSize == 0 then 1 else config.chunkSize,
                    Filter(Purged(config, Collected(config, rows, current, hits, at), now), Of(hits[i].artifactId)))
  {
    var documents, size := Map(hits, DocumentOf), if config.chunkSize == 0 then 1 else config.chunkSize;
    forall j | 0 <= j < |hits| ensures Fit(config, documents[j]) <==> HitFits(config, hits[j]) {
    }
    LastFit(config, documents, i);
    HitIsStored(config, rows, view, current, hits, at, now, hits[i].artifactId);
    DocumentIsCut(hits[i], at, size);
  }

  lemma DocumentIsCut(h: Hit, at: int, size: nat)
    requires size > 0
    ensures CutFrom(h, at, size, ChunksOf(DocumentOf(h), at, size))
  {
    var own := ChunksOf(DocumentOf(h), at, size);
    PiecesJoin(h.preview, size);
    PiecesSized(h.preview, size);
    PiecesBounded(h.preview, size);
    assert Map(own, TextOf) == Pieces(h.preview, size);
    forall k | 0 <= k < |own| ensures 0 < |own[k].text| <= size {
      assert own[k].text in Pieces(h.preview, size);
    }
  }

  /** How many citations the tool gives at most: the number asked for or configured, kept within 1 and 20. */
  function AtMost(config: Config, requested: Option<nat>): nat {
    var n := if requested == None then config.retrievalLimit else requested.value;
    if n == 0 then 1 else if n >= 20 then 20 else n
  }

  /** What the tool cites are the first chunks of the order, and it leaves one out only at that number. */
  lemma FoundExactly(
    config: Config, chunks: seq<Chunk>, purged: int, query: string, scope: Scope, requested: Option<nat>)
    returns (chosen: seq<Chunk>, left: seq<Chunk>)
    ensures MadeOf(Found(config, chunks, purged, query, scope, requested), chosen)
    ensures Best(chunks, query, scope, AtMost(config, requested), chosen, left)
  {
    chosen, left := TopK(config, chunks, query, scope, AtMost(config, requested));
    FoundMade(config, chunks, purged, query, scope, requested, chosen);
  }

  lemma LimitExactly(config: Config, requested: Option<nat>)
    ensures Limit(config, requested) == AtMost(config, requested)
  {
  }

  lemma FoundMade(
    config: Config, chunks: seq<Chunk>, purged: int, query: string, scope: Scope, requested: Option<nat>,
    chosen: seq<Chunk>)
    requires MadeOf(Retrieval(config, chunks, query, scope, AtMost(config, requested)), chosen)
    ensures MadeOf(Found(config, chunks, purged, query, scope, requested), chosen)
  {
    LimitExactly(config, requested);
    OnlyWarningDiffers(config, chunks, purged, query, scope, requested);
    SameMade(Retrieval(config, chunks, query, scope, AtMost(config, requested)),
             Found(config, chunks, purged, query, scope, requested), chosen);
  }

  lemma OnlyWarningDiffers(
    config: Config, chunks: seq<Chunk>, purged: int, query: string, scope: Scope, requested: Option<nat>)
    ensures var r, found := Retrieval(config, chunks, query, scope, Limit(config, requested)),
                            Found(config, chunks, purged, query, scope, requested);
            found.items == r.items && found.citations == r.citations
  {
  }

  lemma SameMade(r: Context, found: Context, chosen: seq<Chunk>)
    requires MadeOf(r, chosen) && found.items == r.items && found.citations == r.citations
    ensures MadeOf(found, chosen)
  {
  }
}
