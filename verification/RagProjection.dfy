/** The chunk list as a map from record to the document it was last indexed from. */
module RagProjection {
  import opened Ordering
  import opened Rag
  import opened Sequences
  import opened Text

  /** A document as it was indexed. */
  datatype Entry = Entry(document: Document, at: int, size: nat)

  type View = map<string, Entry>

  function EntryChunks(e: Entry): seq<Chunk> {
    if e.size == 0 then [] else ChunksOf(e.document, e.at, e.size)
  }

  ghost predicate Whole(chunks: seq<Chunk>, record: string, e: Entry) {
    && e.size > 0 && e.document.content != [] && e.document.recordId == record
    && Filter(chunks, Of(record)) == EntryChunks(e)
  }

  /** Every record is in the list completely, as its entry says, or not at all. */
  ghost predicate Represents(chunks: seq<Chunk>, view: View) {
    && (forall c :: c in chunks ==> c.recordId in view)
    && (forall record :: record in view ==> Whole(chunks, record, view[record]))
  }

  // ---------- what a whole record is ----------

  function Joined(texts: seq<string>): string {
    if texts == [] then [] else texts[0] + Joined(texts[1..])
  }

  lemma JoinedNext(text: string, texts: seq<string>)
    ensures Joined([text] + texts) == text + Joined(texts)
  {
    assert ([text] + texts)[1..] == texts;
  }

  lemma {:induction false} PiecesJoin(content: string, size: nat)
    requires size > 0
    ensures Joined(Pieces(content, size)) == content
    ensures content != [] ==> Pieces(content, size) != []
    decreases |content|
  {
    if content == [] {
    } else if |content| <= size {
      assert [content][1..] == [];
    } else {
      PiecesJoin(content[size..], size);
      JoinedNext(content[..size], Pieces(content[size..], size));
    }
  }

  lemma {:induction false} PiecesSized(content: string, size: nat)
    requires size > 0
    ensures forall i :: 0 <= i < |Pieces(content, size)| - 1 ==> |Pieces(content, size)[i]| == size
    decreases |content|
  {
    if |content| > size {
      PiecesSized(content[size..], size);
    }
  }

  function TextOf(c: Chunk): string {
    c.text
  }

  /**
   The chunks of a represented record are numbered from 0 without gaps, share the document's hash,
   scope, reference and index time, are cut at the chunk size, and join back to the content.
   */
  lemma WholeRecord(chunks: seq<Chunk>, view: View, record: string)
    requires Represents(chunks, view) && record in view
    ensures var own, e := Filter(chunks, Of(record)), view[record];
            && own != []
            && Joined(Map(own, TextOf)) == e.document.content
            && forall i :: 0 <= i < |own| ==>
                 && own[i].index == i && own[i].indexedAt == e.at && own[i].recordId == record
                 && own[i].sourceHash == e.document.sourceHash && own[i].sourceReference == e.document.sourceReference
                 && own[i].scope == e.document.scope && own[i].title == e.document.title
                 && (i < |own| - 1 ==> |own[i].text| == e.size)
  {
    var e := view[record];
    var own := Filter(chunks, Of(record));
    assert Whole(chunks, record, e);
    PiecesJoin(e.document.content, e.size);
    PiecesSized(e.document.content, e.size);
    assert Map(own, TextOf) == Pieces(e.document.content, e.size);
  }

  lemma MemberOfEntry(chunks: seq<Chunk>, view: View, c: Chunk)
    requires Represents(chunks, view) && c in chunks
    ensures c.recordId in view && c in EntryChunks(view[c.recordId])
  {
    assert Whole(chunks, c.recordId, view[c.recordId]);
    assert c in Filter(chunks, Of(c.recordId));
  }

  lemma EntryChunk(e: Entry, c: Chunk)
    requires c in EntryChunks(e)
    ensures c.recordId == e.document.recordId && c.sourceHash == e.document.sourceHash && c.scope == e.document.scope
    ensures c.sourceReference == e.document.sourceReference && c.indexedAt == e.at
    ensures c.index < |EntryChunks(e)| && EntryChunks(e)[c.index] == c
  {
  }

  // ---------- distinct keys ----------

  lemma EntryChunksDistinct(e: Entry)
    ensures NoDup(EntryChunks(e))
  {
  }

  lemma CountedAtMostOnce<T(!new)>(s: seq<T>, x: T)
    requires NoDup(s)
    ensures multiset(s)[x] <= 1
  {
    NoDupIsSet(s);
  }

  lemma NoChunkTwice(chunks: seq<Chunk>, view: View)
    requires Represents(chunks, view)
    ensures NoDup(chunks)
  {
    forall c | c in chunks ensures multiset(chunks)[c] <= 1 {
      MemberOfEntry(chunks, view, c);
      assert Whole(chunks, c.recordId, view[c.recordId]);
      FilterMultiset(chunks, Of(c.recordId));
      EntryChunksDistinct(view[c.recordId]);
      CountedAtMostOnce(EntryChunks(view[c.recordId]), c);
    }
    CountedOnce(chunks);
  }

  /** The separator before a number is the last one. */
  predicate LastSeparator(s: string, m: nat) {
    m < |s| && s[m] == '#' && forall i :: m < i < |s| ==> s[i] != '#'
  }

  lemma NumberAfterSeparator(id: string, digits: string)
    requires forall i :: 0 <= i < |digits| ==> digits[i] != '#'
    ensures var s := id + "#" + digits; LastSeparator(s, |id|) && s[..|id|] == id && s[|id| + 1..] == digits
  {
    var s := id + "#" + digits;
    forall i | |id| < i < |s| ensures s[i] != '#' {
      assert s[i] == digits[i - |id| - 1];
    }
  }

  lemma OneLastSeparator(s: string, m: nat, n: nat)
    requires LastSeparator(s, m) && LastSeparator(s, n)
    ensures m == n
  {
  }

  /** The key determines record and index, even when record ids contain the separator. */
  lemma KeyDetermines(a: Chunk, b: Chunk)
    requires ChunkId(a) == ChunkId(b)
    ensures a.recordId == b.recordId && a.index == b.index
  {
    DecimalReads(a.index);
    DecimalReads(b.index);
    NumberAfterSeparator(a.recordId, Decimal(a.index));
    NumberAfterSeparator(b.recordId, Decimal(b.index));
    OneLastSeparator(ChunkId(a), |a.recordId|, |b.recordId|);
  }

  /** The keys of a represented list never collide. */
  lemma KeysDistinct(chunks: seq<Chunk>, view: View)
    requires Represents(chunks, view)
    ensures NoDup(Map(chunks, ChunkId))
  {
    NoChunkTwice(chunks, view);
    forall i, j | 0 <= i < j < |chunks| ensures ChunkId(chunks[i]) != ChunkId(chunks[j]) {
      if ChunkId(chunks[i]) == ChunkId(chunks[j]) {
        KeyDetermines(chunks[i], chunks[j]);
        MemberOfEntry(chunks, view, chunks[i]);
        MemberOfEntry(chunks, view, chunks[j]);
        EntryChunk(view[chunks[i].recordId], chunks[i]);
        EntryChunk(view[chunks[i].recordId], chunks[j]);
      }
    }
  }

  // ---------- removing records ----------

  function Restrict(view: View, keep: Entry -> bool): View {
    map record | record in view && keep(view[record]) :: view[record]
  }

  lemma FilterSwap(chunks: seq<Chunk>, p: Chunk -> bool, q: Chunk -> bool)
    ensures Filter(Filter(chunks, p), q) == Filter(Filter(chunks, q), p)
  {
    FilterTwice(chunks, p, q);
    FilterTwice(chunks, q, p);
    FilterCongruent(chunks, x => p(x) && q(x), x => q(x) && p(x));
  }

  /** A test that treats all chunks of an entry alike removes records completely. */
  lemma FilterKeepsWhole(chunks: seq<Chunk>, view: View, keep: Chunk -> bool, keepEntry: Entry -> bool)
    requires Represents(chunks, view)
    requires forall record, c :: record in view && c in EntryChunks(view[record]) ==>
             (keep(c) <==> keepEntry(view[record]))
    ensures Represents(Filter(chunks, keep), Restrict(view, keepEntry))
  {
    var kept, left := Filter(chunks, keep), Restrict(view, keepEntry);
    forall c | c in kept ensures c.recordId in left {
      MemberOfEntry(chunks, view, c);
    }
    forall record | record in left ensures Whole(kept, record, left[record]) {
      assert Whole(chunks, record, view[record]);
      FilterSwap(chunks, keep, Of(record));
      FilterAll(EntryChunks(view[record]), keep);
    }
  }

  // ---------- indexing ----------

  function ViewIndexedOne(config: Config, view: View, d: Document, at: int): View {
    if !Accepted(config, d) then view
    else if d.content == [] then view - {d.recordId}
    else view[d.recordId := Entry(d, at, ChunkSize(config))]
  }

  function ViewIndexed(config: Config, view: View, documents: seq<Document>, at: int): View {
    if documents == [] then view
    else
      var last := |documents| - 1;
      ViewIndexedOne(config, ViewIndexed(config, view, documents[..last], at), documents[last], at)
  }

  function NotEntryOf(record: string): Entry -> bool {
    (e: Entry) => e.document.recordId != record
  }

  lemma RecordRemoved(chunks: seq<Chunk>, view: View, record: string)
    requires Represents(chunks, view)
    ensures Represents(Filter(chunks, NotOf(record)), view - {record})
  {
    forall r, c | r in view && c in EntryChunks(view[r]) ensures NotOf(record)(c) <==> NotEntryOf(record)(view[r]) {
      EntryChunk(view[r], c);
    }
    FilterKeepsWhole(chunks, view, NotOf(record), NotEntryOf(record));
    RestrictRemoves(chunks, view, record);
  }

  lemma RestrictRemoves(chunks: seq<Chunk>, view: View, record: string)
    requires Represents(chunks, view)
    ensures Restrict(view, NotEntryOf(record)) == view - {record}
  {
    forall r | r in view ensures view[r].document.recordId == r {
      assert Whole(chunks, r, view[r]);
    }
  }

  lemma RecordAdded(chunks: seq<Chunk>, view: View, e: Entry)
    requires Represents(chunks, view) && e.document.recordId !in view && e.size > 0 && e.document.content != []
    ensures Represents(chunks + EntryChunks(e), view[e.document.recordId := e])
  {
    var id := e.document.recordId;
    var after := view[id := e];
    forall record | record in after ensures Whole(chunks + EntryChunks(e), record, after[record]) {
      FilterConcat(chunks, EntryChunks(e), Of(record));
      if record == id {
        FilterNone(chunks, Of(id));
        FilterAll(EntryChunks(e), Of(id));
      } else {
        FilterNone(EntryChunks(e), Of(record));
        assert Whole(chunks, record, view[record]);
      }
    }
  }

  lemma RecordReplaced(chunks: seq<Chunk>, view: View, e: Entry)
    requires Represents(chunks, view) && e.size > 0 && e.document.content != []
    ensures Represents(Filter(chunks, NotOf(e.document.recordId)) + EntryChunks(e), view[e.document.recordId := e])
  {
    var id := e.document.recordId;
    RecordRemoved(chunks, view, id);
    RecordAdded(Filter(chunks, NotOf(id)), view - {id}, e);
    RemovedThenPut(view, id, e);
  }

  lemma RemovedThenPut(view: View, id: string, e: Entry)
    ensures (view - {id})[id := e] == view[id := e]
  {
  }

  lemma RecordEmptied(chunks: seq<Chunk>, view: View, d: Document, at: int, size: nat)
    requires Represents(chunks, view) && size > 0 && d.content == []
    ensures Represents(Filter(chunks, NotOf(d.recordId)) + ChunksOf(d, at, size), view - {d.recordId})
  {
    RecordRemoved(chunks, view, d.recordId);
    assert ChunksOf(d, at, size) == [];
    assert Filter(chunks, NotOf(d.recordId)) + [] == Filter(chunks, NotOf(d.recordId));
  }

  lemma IndexOneKeepsWhole(config: Config, chunks: seq<Chunk>, view: View, d: Document, at: int)
    requires Represents(chunks, view)
    ensures Represents(IndexedOne(config, chunks, d, at), ViewIndexedOne(config, view, d, at))
  {
    if d.content == [] {
      RecordEmptied(chunks, view, d, at, ChunkSize(config));
    } else {
      RecordReplaced(chunks, view, Entry(d, at, ChunkSize(config)));
    }
  }

  lemma {:induction false} IndexKeepsWhole(
    config: Config, chunks: seq<Chunk>, view: View, documents: seq<Document>, at: int)
    requires Represents(chunks, view)
    ensures Represents(Indexed(config, chunks, documents, at), ViewIndexed(config, view, documents, at))
  {
    if documents == [] {
    } else {
      var last := |documents| - 1;
      IndexKeepsWhole(config, chunks, view, documents[..last], at);
      IndexOneKeepsWhole(config, Indexed(config, chunks, documents[..last], at),
                         ViewIndexed(config, view, documents[..last], at), documents[last], at);
    }
  }

  // ---------- purging, invalidating, loading ----------

  function EntrySince(cutoff: int): Entry -> bool {
    (e: Entry) => e.at >= cutoff
  }

  function EntryNotFrom(sourceHash: string): Entry -> bool {
    (e: Entry) => e.document.sourceHash != sourceHash
  }

  function EntryAllowed(config: Config): Entry -> bool {
    (e: Entry) => ScopeAllowed(config, e.document.scope)
  }

  function EntryCurrent(current: map<string, string>): Entry -> bool {
    (e: Entry) => e.document.recordId in current && current[e.document.recordId] == e.document.sourceHash
  }

  function ViewPurged(config: Config, view: View, now: int): View {
    match config.retentionDays
    case None => view
    case Some(days) => Restrict(view, EntrySince(Cutoff(now, days)))
  }

  lemma SinceKeepsWhole(chunks: seq<Chunk>, view: View, cutoff: int)
    requires Represents(chunks, view)
    ensures Represents(Filter(chunks, Since(cutoff)), Restrict(view, EntrySince(cutoff)))
  {
    forall r, c | r in view && c in EntryChunks(view[r]) ensures Since(cutoff)(c) <==> EntrySince(cutoff)(view[r]) {
      EntryChunk(view[r], c);
    }
    FilterKeepsWhole(chunks, view, Since(cutoff), EntrySince(cutoff));
  }

  lemma PurgeKeepsWhole(config: Config, chunks: seq<Chunk>, view: View, now: int)
    requires Represents(chunks, view)
    ensures Represents(Purged(config, chunks, now), ViewPurged(config, view, now))
  {
    if config.retentionDays.Some? {
      SinceKeepsWhole(chunks, view, Cutoff(now, config.retentionDays.value));
    }
  }

  lemma InvalidateKeepsWhole(chunks: seq<Chunk>, view: View, sourceHash: string)
    requires Represents(chunks, view)
    ensures Represents(Filter(chunks, NotFrom(sourceHash)), Restrict(view, EntryNotFrom(sourceHash)))
  {
    forall r, c | r in view && c in EntryChunks(view[r])
      ensures NotFrom(sourceHash)(c) <==> EntryNotFrom(sourceHash)(view[r])
    {
      EntryChunk(view[r], c);
    }
    FilterKeepsWhole(chunks, view, NotFrom(sourceHash), EntryNotFrom(sourceHash));
  }

  lemma RefreshKeepsWhole(current: map<string, string>, rows: seq<Chunk>, view: View)
    requires Represents(rows, view)
    ensures Represents(Refreshed(current, rows), Restrict(view, EntryCurrent(current)))
  {
    var stale := StaleRecords(current, rows);
    forall r, c | r in view && c in EntryChunks(view[r]) ensures NotIn(stale)(c) <==> EntryCurrent(current)(view[r]) {
      assert Whole(rows, r, view[r]);
      EntryChunk(view[r], c);
      assert c in Filter(rows, Of(r));
      if r in stale {
        var other :| other in rows && StaleChunk(current, other) && other.recordId == r;
        MemberOfEntry(rows, view, other);
        EntryChunk(view[r], other);
      }
    }
    FilterKeepsWhole(rows, view, NotIn(stale), EntryCurrent(current));
  }

  // ---------- reading back ----------

  lemma {:induction false} FilterOfSorted<T(!new)>(s: seq<T>, keep: T -> bool, le: (T, T) -> bool)
    requires SortedBy(s, le)
    ensures SortedBy(Filter(s, keep), le)
  {
    if s == [] {
    } else {
      FilterOfSorted(s[1..], keep, le);
      assert forall x :: x in Filter(s[1..], keep) ==> x in s[1..];
      assert forall x :: x in s[1..] ==> le(s[0], x);
    }
  }

  lemma FilterOfSameBag<T(!new)>(a: seq<T>, b: seq<T>, keep: T -> bool)
    requires multiset(a) == multiset(b)
    ensures multiset(Filter(a, keep)) == multiset(Filter(b, keep))
  {
    FilterMultiset(a, keep);
    FilterMultiset(b, keep);
    var p, q := multiset(Filter(a, keep)), multiset(Filter(b, keep));
    forall x ensures p[x] == q[x] {
      if !keep(x) {
        assert x !in Filter(a, keep) && x !in Filter(b, keep);
        assert x !in p && x !in q;
      }
    }
  }

  lemma RowOrder()
    ensures TotalPreorder(RowLe)
  {
    forall a, b ensures RowLe(a, b) || RowLe(b, a) {
      TextLessTotal(a.recordId, b.recordId);
    }
    forall a, b, c | RowLe(a, b) && RowLe(b, c) ensures RowLe(a, c) {
      if TextLess(a.recordId, b.recordId) && TextLess(b.recordId, c.recordId) {
        TextLessTransitive(a.recordId, b.recordId, c.recordId);
      }
    }
  }

  /** Reading the table back in its own order gives every record's chunks in their old order. */
  lemma StoredKeepsWhole(rows: seq<Chunk>, view: View)
    requires Represents(rows, view)
    ensures Represents(Stored(rows), view)
  {
    RowOrder();
    SortSorted(rows, RowLe);
    forall record | record in view ensures Whole(Stored(rows), record, view[record]) {
      assert Whole(rows, record, view[record]);
      var own := EntryChunks(view[record]);
      FilterOfSorted(Stored(rows), Of(record), RowLe);
      FilterOfSameBag(rows, Stored(rows), Of(record));
      EntryOrder(view[record]);
      SortedUnique(own, Filter(Stored(rows), Of(record)), RowLe);
    }
  }

  lemma EntryOrder(e: Entry)
    ensures SortedBy(EntryChunks(e), RowLe) && StrictOn(EntryChunks(e), RowLe)
  {
    TextLessTotal(e.document.recordId, e.document.recordId);
  }

  lemma LoadKeepsWhole(config: Config, rows: seq<Chunk>, view: View)
    requires Represents(rows, view)
    ensures Represents(Loaded(config, rows), Restrict(view, EntryAllowed(config)))
  {
    StoredKeepsWhole(rows, view);
    forall r, c | r in view && c in EntryChunks(view[r])
      ensures AllowedBy(config)(c) <==> EntryAllowed(config)(view[r])
    {
      EntryChunk(view[r], c);
    }
    FilterKeepsWhole(Stored(rows), view, AllowedBy(config), EntryAllowed(config));
  }

  // ---------- every run ----------

  datatype Step =
    | Start(config: Config)
    | Load(config: Config)
    | IndexDocuments(documents: seq<Document>, at: int)
    | PurgeExpired(now: int)
    | InvalidateSource(sourceHash: string)
    | Persist
    | InvalidateStale(current: map<string, string>)

  /** A manager and the table. */
  datatype State = State(config: Config, chunks: seq<Chunk>, rows: seq<Chunk>)

  /** The same as two maps. */
  datatype Model = Model(config: Config, live: View, stored: View)

  /** One step, as the methods of the manager and the table specify it. */
  ghost function Next(s: State, step: Step): State {
    match step
    case Start(config) => State(config, [], s.rows)
    case Load(config) => State(config, Loaded(config, s.rows), s.rows)
    case IndexDocuments(documents, at) =>
      if s.config.enabled then s.(chunks := Indexed(s.config, s.chunks, documents, at)) else s
    case PurgeExpired(now) => s.(chunks := Purged(s.config, s.chunks, now))
    case InvalidateSource(sourceHash) => s.(chunks := Filter(s.chunks, NotFrom(sourceHash)))
    case Persist => if NoDup(Map(s.chunks, ChunkId)) then s.(rows := s.chunks) else s
    case InvalidateStale(current) => s.(rows := Refreshed(current, s.rows))
  }

  function NextModel(m: Model, step: Step): Model {
    match step
    case Start(config) => Model(config, map[], m.stored)
    case Load(config) => Model(config, Restrict(m.stored, EntryAllowed(config)), m.stored)
    case IndexDocuments(documents, at) =>
      if m.config.enabled then m.(live := ViewIndexed(m.config, m.live, documents, at)) else m
    case PurgeExpired(now) => m.(live := ViewPurged(m.config, m.live, now))
    case InvalidateSource(sourceHash) => m.(live := Restrict(m.live, EntryNotFrom(sourceHash)))
    case Persist => m.(stored := m.live)
    case InvalidateStale(current) => m.(stored := Restrict(m.stored, EntryCurrent(current)))
  }

  ghost predicate Projects(s: State, m: Model) {
    s.config == m.config && Represents(s.chunks, m.live) && Represents(s.rows, m.stored)
  }

  lemma StepProjects(s: State, m: Model, step: Step)
    requires Projects(s, m)
    ensures Projects(Next(s, step), NextModel(m, step))
  {
    match step
    case Start(config) =>
    case Load(config) => LoadKeepsWhole(config, s.rows, m.stored);
    case IndexDocuments(documents, at) => IndexKeepsWhole(s.config, s.chunks, m.live, documents, at);
    case PurgeExpired(now) => PurgeKeepsWhole(s.config, s.chunks, m.live, now);
    case InvalidateSource(sourceHash) => InvalidateKeepsWhole(s.chunks, m.live, sourceHash);
    case Persist => KeysDistinct(s.chunks, m.live);
    case InvalidateStale(current) => RefreshKeepsWhole(current, s.rows, m.stored);
  }

  ghost function Run(s: State, steps: seq<Step>): State {
    if steps == [] then s else Next(Run(s, steps[..|steps| - 1]), steps[|steps| - 1])
  }

  function RunModel(m: Model, steps: seq<Step>): Model {
    if steps == [] then m else NextModel(RunModel(m, steps[..|steps| - 1]), steps[|steps| - 1])
  }

  /** From an empty list and an empty table, every run acts as the same run on the two maps. */
  lemma {:induction false} RunProjects(config: Config, steps: seq<Step>)
    ensures Projects(Run(State(config, [], []), steps), RunModel(Model(config, map[], map[]), steps))
  {
    if steps == [] {
    } else {
      RunProjects(config, steps[..|steps| - 1]);
      StepProjects(Run(State(config, [], []), steps[..|steps| - 1]),
                   RunModel(Model(config, map[], map[]), steps[..|steps| - 1]), steps[|steps| - 1]);
    }
  }

  /** In no run does a key collide when the list is persisted. */
  lemma PersistNeverCollides(config: Config, steps: seq<Step>)
    ensures NoDup(Map(Run(State(config, [], []), steps).chunks, ChunkId))
  {
    RunProjects(config, steps);
    KeysDistinct(Run(State(config, [], []), steps).chunks, RunModel(Model(config, map[], map[]), steps).live);
  }
}
