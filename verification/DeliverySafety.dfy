/**
 What every run of the delivery system keeps: no window slot leaks, pages are
 processed in the order they were sent, and no event is lost.
 */
module DeliverySafety {
  import opened Domain
  import opened Sequences
  import opened RuntimeOutbox
  import opened Protocol
  import opened EventStream
  import opened Delivery

  predicate IsPage(frame: Frame) {
    frame.requestId.FromAgent? && frame.payload.EventStreamPage?
  }

  function Responses(frames: seq<Frame>): seq<Frame> {
    Filter(frames, (f: Frame) => !IsPage(f))
  }

  function FrameIds(frame: Frame): seq<Id> {
    if frame.payload.EventStreamPage? then Ids(frame.payload.events) else []
  }

  /** The event ids carried by the stream pages among `frames`, in order. */
  function PageIds(frames: seq<Frame>): seq<Id> {
    if frames == [] then [] else FrameIds(frames[0]) + PageIds(frames[1..])
  }

  /** The frames the Controller has yet to take up, in the order in which it will. */
  function Unread(conn: Connection): seq<Frame> {
    Unrelated(conn.phase) + conn.pending + conn.toController
  }

  function AckIds(requests: seq<Request>): seq<Id> {
    if requests == [] then []
    else (if requests[0].action.AckEvents? then requests[0].action.ids else []) + AckIds(requests[1..])
  }

  /** The ids of the stream page being worked on. */
  function HeldIds(phase: Phase): seq<Id> {
    match phase
    case Holding(events, true) => Ids(events)
    case Persisted(ids, true) => ids
    case _ => []
  }

  /** Every event id the Agent still counts as on its way to being acknowledged. */
  function Outstanding(conn: Connection): seq<Id> {
    AckIds(conn.toAgent) + HeldIds(conn.phase) + PageIds(Unread(conn))
  }

  /** A page carries events of this host only, and a heartbeat carries none. */
  ghost predicate PageOf(frame: Frame, host: string) {
    frame.payload.EventStreamPage? ==>
      && (frame.payload.heartbeat ==> frame.payload.events == [])
      && forall e :: e in frame.payload.events ==> e.hostId == host
  }

  ghost predicate AllOfHost(frames: seq<Frame>, host: string) {
    forall f :: f in frames ==> PageOf(f, host)
  }

  predicate GoodMode(mode: Mode, phase: Phase) {
    match phase
    case Free => mode.Plain?
    case Listening => mode.Streaming?
    case AwaitPage(_, _) => mode.Plain?
    case AwaitOpen(_, _) => true
    case Holding(_, streaming) => mode.Streaming? <==> streaming
    case Persisted(_, streaming) => mode.Streaming? <==> streaming
    case AwaitAck(_, _, streaming) => mode.Streaming? <==> streaming
  }

  predicate GoodRequest(host: string, mode: Mode, phase: Phase, action: Action) {
    match phase
    case AwaitPage(_, _) => action.SubscribeEvents?
    case AwaitOpen(_, _) =>
      mode.Plain? && action.OpenEventStream? && action.start.None? && action.scope.Some?
        && action.scope.value.hostId == Some(host)
    case AwaitAck(_, _, _) => action.AckEvents?
    case _ => false
  }

  predicate GoodAnswer(mode: Mode, phase: Phase, payload: Payload) {
    match phase
    case AwaitPage(_, _) => payload.RuntimeEventPage?
    case AwaitOpen(_, _) => mode.Streaming? && payload.EventStreamOpened?
    case AwaitAck(_, _, _) => payload.EventsAcked?
    case _ => false
  }

  /** At most one request is under way, and it is either with the Agent or answered on the wire. */
  ghost predicate WireInv(host: string, conn: Connection) {
    && Responses(conn.pending) == [] && Responses(Unrelated(conn.phase)) == []
    && GoodMode(conn.mode, conn.phase)
    && match AwaitedId(conn.phase) {
         case None => conn.toAgent == [] && Responses(conn.toController) == []
         case Some(id) =>
           && id.FromController?
           && ((&& |conn.toAgent| == 1 && conn.toAgent[0].requestId == id
                && GoodRequest(host, conn.mode, conn.phase, conn.toAgent[0].action)
                && Responses(conn.toController) == [])
               || (&& conn.toAgent == [] && |Responses(conn.toController)| == 1
                   && Responses(conn.toController)[0].requestId == id
                   && GoodAnswer(conn.mode, conn.phase, Responses(conn.toController)[0].payload)))
       }
  }

  /** The window is taken up by exactly the outstanding ids, each once. */
  ghost predicate SlotInv(conn: Connection) {
    match conn.mode
    case Plain => PageIds(Unread(conn)) == [] && conn.received == []
    case Streaming(scope, window, state, emitted) =>
      && 1 <= window <= 64 && |state.inFlight| <= window
      && multiset(Outstanding(conn)) == multiset(state.inFlight)
      && state.inFlight <= state.sent
  }

  /** A stream is opened for the Controller's own host, so nothing on its wires belongs to another. */
  ghost predicate HostInv(host: string, conn: Connection) {
    && (conn.mode.Streaming? ==> conn.mode.scope.Some? && conn.mode.scope.value.hostId == Some(host))
    && AllOfHost(Unread(conn), host)
  }

  /** What was sent is what was taken up and then what is unread, in order and without repetition. */
  ghost predicate OrderInv(conn: Connection) {
    conn.mode.Streaming? ==>
      && NoDup(conn.mode.emitted)
      && Elems(conn.mode.emitted) == conn.mode.state.sent
      && conn.mode.state.cursor ==
         (if conn.mode.emitted == [] then None else Some(conn.mode.emitted[|conn.mode.emitted| - 1]))
      && conn.mode.emitted == conn.received + PageIds(Unread(conn))
  }

  /** Only ids that are in the catalog are ever acknowledged. */
  ghost predicate AckInv(catalog: set<Id>, conn: Connection) {
    && (forall id :: id in AckIds(conn.toAgent) ==> id in catalog)
    && (conn.phase.Persisted? ==> forall id :: id in conn.phase.ids ==> id in catalog)
  }

  ghost predicate ConnInv(host: string, catalog: set<Id>, conn: Connection) {
    WireInv(host, conn) && HostInv(host, conn) && SlotInv(conn) && OrderInv(conn) && AckInv(catalog, conn)
  }

  ghost predicate NoLoss(s: System) {
    && (forall id :: id in s.log ==> id in Ids(s.queued) || id in s.catalog || id in s.evicted)
    && (forall id :: id in Ids(s.queued) ==> id in s.log && id !in s.evicted)
  }

  ghost predicate Inv(s: System) {
    && ValidQueue(s.queued)
    && NoLoss(s)
    && forall c :: c in s.connections ==> ConnInv(s.host, s.catalog, s.connections[c])
  }

  // ---------- frames ----------

  lemma {:induction false} PageIdsConcat(a: seq<Frame>, b: seq<Frame>)
    ensures PageIds(a + b) == PageIds(a) + PageIds(b)
  {
    if a == [] {
      assert a + b == b;
    } else {
      assert (a + b)[1..] == a[1..] + b;
      PageIdsConcat(a[1..], b);
    }
  }

  lemma ResponsesConcat(a: seq<Frame>, b: seq<Frame>)
    ensures Responses(a + b) == Responses(a) + Responses(b)
  {
    FilterConcat(a, b, (f: Frame) => !IsPage(f));
  }

  lemma ResponsesHead(frames: seq<Frame>)
    requires frames != []
    ensures Responses(frames) == (if IsPage(frames[0]) then [] else [frames[0]]) + Responses(frames[1..])
  {
  }

  lemma OnePageId(frame: Frame)
    ensures PageIds([frame]) == FrameIds(frame)
    ensures Responses([frame]) == if IsPage(frame) then [] else [frame]
  {
    assert [frame][1..] == [];
    assert PageIds([frame]) == FrameIds(frame) + PageIds([frame][1..]);
    ResponsesHead([frame]);
  }

  /** A frame put on the wire is read last. */
  lemma FrameSent(conn: Connection, frame: Frame)
    ensures var next := conn.(toController := conn.toController + [frame]);
            && Unread(next) == Unread(conn) + [frame]
            && PageIds(Unread(next)) == PageIds(Unread(conn)) + FrameIds(frame)
            && Responses(next.toController) == Responses(conn.toController) + (if IsPage(frame) then [] else [frame])
  {
    assert Unread(conn.(toController := conn.toController + [frame])) == Unread(conn) + [frame];
    PageIdsConcat(Unread(conn), [frame]);
    ResponsesConcat(conn.toController, [frame]);
    OnePageId(frame);
  }

  // ---------- the Agent's steps ----------

  lemma TickKeepsConn(host: string, catalog: set<Id>, queued: seq<Event>, conn: Connection, serial: nat, due: bool)
    requires ConnInv(host, catalog, conn) && ValidQueue(queued) && conn.mode.Streaming?
    ensures ConnInv(host, catalog, TickStep(queued, conn, serial, due))
  {
    var m := conn.mode;
    var page := TickPage(m.state, m.scope, m.window, queued);
    TickPageFresh(m.state, m.scope, m.window, queued);
    if page != [] {
      var frame := Envelope(FromAgent(serial), true, EventStreamPage(page, LastId(page), false));
      assert TickStep(queued, conn, serial, due) == Emitting(conn, page, frame);
      PageKeepsSlots(conn, page, frame);
      PageKeepsOrder(conn, page, frame);
      PageKeepsWire(host, catalog, conn, page, frame);
    } else if due {
      HeartbeatKeepsConn(host, catalog, conn,
                         Envelope(FromAgent(serial), true, EventStreamPage([], m.state.cursor, true)));
    }
  }

  lemma PageKeepsWire(host: string, catalog: set<Id>, conn: Connection, page: seq<Event>, frame: Frame)
    requires WireInv(host, conn) && HostInv(host, conn) && AckInv(catalog, conn) && conn.mode.Streaming?
    requires IsPage(frame) && frame.payload.events == page && !frame.payload.heartbeat
    requires forall e :: e in page ==> MatchesScope(e, conn.mode.scope)
    ensures WireInv(host, Emitting(conn, page, frame)) && HostInv(host, Emitting(conn, page, frame))
    ensures AckInv(catalog, Emitting(conn, page, frame))
  {
    FrameSent(conn, frame);
    assert Unread(Emitting(conn, page, frame)) == Unread(conn) + [frame];
    assert PageOf(frame, host);
  }

  lemma HeartbeatKeepsConn(host: string, catalog: set<Id>, conn: Connection, frame: Frame)
    requires ConnInv(host, catalog, conn) && IsPage(frame) && frame.payload.events == []
    ensures ConnInv(host, catalog, conn.(toController := conn.toController + [frame]))
  {
    var next := conn.(toController := conn.toController + [frame]);
    FrameSent(conn, frame);
    assert FrameIds(frame) == [];
    assert PageIds(Unread(next)) == PageIds(Unread(conn));
    assert Outstanding(next) == Outstanding(conn);
    assert PageOf(frame, host);
  }

  /** A page holds new, distinct ids in scope, and no more of them than there are free slots. */
  lemma TickPageFresh(state: StreamState, scope: Option<Scope>, window: nat, queued: seq<Event>)
    requires ValidQueue(queued) && window <= 64
    ensures var page := TickPage(state, scope, window, queued);
            && NoDup(Ids(page))
            && (page != [] ==> |state.inFlight| + |page| <= window)
            && forall e :: e in page ==> e in queued && e.id !in state.sent && MatchesScope(e, scope)
  {
    var limit := if window <= |state.inFlight| then 1 else window - |state.inFlight|;
    StreamPageMembers(queued, state.cursor, scope, state.sent, limit);
    StreamPageDistinct(queued, state.cursor, scope, state.sent, limit);
    assert Ids([]) == [];
  }

  function Emitting(conn: Connection, page: seq<Event>, frame: Frame): Connection
    requires conn.mode.Streaming?
  {
    conn.(mode := conn.mode.(state := AfterPage(conn.mode.state, page), emitted := conn.mode.emitted + Ids(page)),
          toController := conn.toController + [frame])
  }

  lemma EmittedUnread(conn: Connection, page: seq<Event>, frame: Frame)
    requires conn.mode.Streaming? && frame.payload.EventStreamPage? && frame.payload.events == page
    ensures Unread(Emitting(conn, page, frame)) == Unread(conn) + [frame]
    ensures PageIds(Unread(Emitting(conn, page, frame))) == PageIds(Unread(conn)) + Ids(page)
    ensures Outstanding(Emitting(conn, page, frame)) == Outstanding(conn) + Ids(page)
  {
    var next := Emitting(conn, page, frame);
    FrameSent(conn, frame);
    assert Unread(next) == Unread(conn.(toController := conn.toController + [frame]));
    assert FrameIds(frame) == Ids(page);
    Associative(AckIds(conn.toAgent) + HeldIds(conn.phase), PageIds(Unread(conn)), Ids(page));
  }

  lemma NewIdsTakeSlots(inFlight: set<Id>, ids: seq<Id>)
    requires NoDup(ids) && forall id :: id in ids ==> id !in inFlight
    ensures multiset(inFlight + Elems(ids)) == multiset(inFlight) + multiset(ids)
    ensures |inFlight + Elems(ids)| == |inFlight| + |ids|
  {
    NoDupIsSet(ids);
    assert inFlight !! Elems(ids);
    assert |multiset(Elems(ids))| == |multiset(ids)|;
  }

  lemma PageKeepsSlots(conn: Connection, page: seq<Event>, frame: Frame)
    requires conn.mode.Streaming? && SlotInv(conn)
    requires page != [] && NoDup(Ids(page)) && |conn.mode.state.inFlight| + |page| <= conn.mode.window
    requires forall e :: e in page ==> e.id !in conn.mode.state.sent && MatchesScope(e, conn.mode.scope)
    requires frame.payload.EventStreamPage? && frame.payload.events == page
    ensures SlotInv(Emitting(conn, page, frame))
  {
    EmittedUnread(conn, page, frame);
    forall id | id in Ids(page) ensures id !in conn.mode.state.inFlight {
      IdMember(page, id);
    }
    NewIdsTakeSlots(conn.mode.state.inFlight, Ids(page));
    assert conn.mode.state.inFlight <= conn.mode.state.sent;
  }

  lemma PageKeepsOrder(conn: Connection, page: seq<Event>, frame: Frame)
    requires conn.mode.Streaming? && OrderInv(conn)
    requires page != [] && NoDup(Ids(page))
    requires forall e :: e in page ==> e.id !in conn.mode.state.sent
    requires frame.payload.EventStreamPage? && frame.payload.events == page
    ensures OrderInv(Emitting(conn, page, frame))
  {
    EmittedUnread(conn, page, frame);
    HistoryGrows(conn.mode.emitted, page, conn.mode.state.sent);
    Associative(conn.received, PageIds(Unread(conn)), Ids(page));
  }

  lemma HistoryGrows(emitted: seq<Id>, page: seq<Event>, sent: set<Id>)
    requires NoDup(emitted) && NoDup(Ids(page)) && page != []
    requires Elems(emitted) == sent && forall e :: e in page ==> e.id !in sent
    ensures NoDup(emitted + Ids(page))
    ensures Elems(emitted + Ids(page)) == sent + Elems(Ids(page))
    ensures Some((emitted + Ids(page))[|emitted + Ids(page)| - 1]) == LastId(page)
  {
    forall id | id in Ids(page) ensures id !in emitted {
      IdMember(page, id);
      assert id in emitted ==> id in Elems(emitted);
    }
    NoDupAppend(emitted, Ids(page));
  }

  /** Releasing some of the ids that fill the window leaves the others in it. */
  lemma SlotsFreed(inFlight: set<Id>, ids: seq<Id>, rest: seq<Id>)
    requires multiset(ids + rest) == multiset(inFlight)
    ensures multiset(rest) == multiset(inFlight - Elems(ids))
    ensures forall id :: id in ids ==> id in inFlight
  {
    assert multiset(ids + rest) == multiset(ids) + multiset(rest);
    forall id ensures multiset(rest)[id] == multiset(inFlight - Elems(ids))[id] {
      assert multiset(ids)[id] + multiset(rest)[id] == multiset(inFlight)[id] <= 1;
      assert id in Elems(ids) <==> multiset(ids)[id] > 0;
    }
    forall id | id in ids ensures id in inFlight {
      assert id in multiset(ids + rest);
    }
  }

  lemma OneAck(request: Request)
    ensures AckIds([request]) == if request.action.AckEvents? then request.action.ids else []
  {
    assert [request][1..] == [];
  }

  /** An answer joins the wire as its only response and carries no page. */
  lemma AnswerSent(conn: Connection, payload: Payload)
    requires |conn.toAgent| == 1 && !payload.EventStreamPage? && Responses(conn.toController) == []
    ensures var next := Answers(conn, conn.toAgent[0], payload);
            && next.toAgent == []
            && Unread(next) == Unread(conn) + [Envelope(conn.toAgent[0].requestId, true, payload)]
            && PageIds(Unread(next)) == PageIds(Unread(conn))
            && Responses(next.toController) == [Envelope(conn.toAgent[0].requestId, true, payload)]
  {
    var frame := Envelope(conn.toAgent[0].requestId, true, payload);
    FrameSent(conn, frame);
    assert Unread(Answers(conn, conn.toAgent[0], payload)) ==
           Unread(conn.(toController := conn.toController + [frame]));
  }

  /** Only ids the Controller has persisted are taken out of the outbox. */
  lemma AckAnswerQueue(host: string, catalog: set<Id>, queued: seq<Event>, conn: Connection)
    requires WireInv(host, conn) && AckInv(catalog, conn) && conn.phase.AwaitAck? && conn.toAgent != []
    ensures exists ids :: AgentStep(host, queued, conn).queued == Acknowledged(queued, ids)
                          && forall id :: id in ids ==> id in catalog
  {
    var ids := conn.toAgent[0].action.ids;
    assert conn.toAgent == [conn.toAgent[0]];
    OneAck(conn.toAgent[0]);
    var allowed := if conn.mode.Plain? then ids else Allowed(conn.mode.state, ids);
    assert AgentStep(host, queued, conn).queued == Acknowledged(queued, allowed);
    assert forall id :: id in allowed ==> id in ids;
  }

  /** Answering an acknowledgement empties the wire to the Agent and adds one frame without events. */
  lemma AckAnswerEffect(host: string, queued: seq<Event>, conn: Connection)
    requires WireInv(host, conn) && conn.phase.AwaitAck? && conn.toAgent != []
    ensures var next := AgentStep(host, queued, conn).connection;
            && next.toAgent == []
            && PageIds(Unread(next)) == PageIds(Unread(conn))
            && Outstanding(next) == PageIds(Unread(conn))
            && Outstanding(conn) == conn.toAgent[0].action.ids + PageIds(Unread(conn))
  {
    var request, next := conn.toAgent[0], AgentStep(host, queued, conn).connection;
    var payload := EventsAcked(|queued| - |AgentStep(host, queued, conn).queued|);
    assert conn.toAgent == [request];
    OneAck(request);
    AnswerSent(conn, payload);
    assert Unread(next) == Unread(Answers(conn, request, payload));
    NoRequestOutstanding(next);
    assert HeldIds(conn.phase) == [];
  }

  lemma AckAnswerKeepsConn(host: string, catalog: set<Id>, queued: seq<Event>, conn: Connection)
    requires ConnInv(host, catalog, conn) && conn.phase.AwaitAck? && conn.toAgent != []
    ensures ConnInv(host, catalog, AgentStep(host, queued, conn).connection)
  {
    AckAnswerKeepsWire(host, queued, conn);
    AckAnswerKeepsHistory(host, queued, conn);
    AckAnswerEffect(host, queued, conn);
  }

  lemma AckAnswerKeepsWire(host: string, queued: seq<Event>, conn: Connection)
    requires WireInv(host, conn) && HostInv(host, conn) && conn.phase.AwaitAck? && conn.toAgent != []
    ensures WireInv(host, AgentStep(host, queued, conn).connection)
            && HostInv(host, AgentStep(host, queued, conn).connection)
  {
    var request, next := conn.toAgent[0], AgentStep(host, queued, conn).connection;
    var payload := EventsAcked(|queued| - |AgentStep(host, queued, conn).queued|);
    AnswerSent(conn, payload);
    assert Unread(next) == Unread(Answers(conn, request, payload));
  }

  lemma AckAnswerKeepsHistory(host: string, queued: seq<Event>, conn: Connection)
    requires WireInv(host, conn) && SlotInv(conn) && OrderInv(conn) && conn.phase.AwaitAck? && conn.toAgent != []
    ensures SlotInv(AgentStep(host, queued, conn).connection) && OrderInv(AgentStep(host, queued, conn).connection)
  {
    var next, ids := AgentStep(host, queued, conn).connection, conn.toAgent[0].action.ids;
    AckAnswerEffect(host, queued, conn);
    if conn.mode.Streaming? {
      SlotsFreed(conn.mode.state.inFlight, ids, PageIds(Unread(conn)));
      SubsetSize(next.mode.state.inFlight, conn.mode.state.inFlight);
    }
  }

  lemma SubsetSize<T>(a: set<T>, b: set<T>)
    requires a <= b
    ensures |a| <= |b|
  {
    assert b == a + (b - a);
  }

  lemma OtherAnswerKeepsConn(host: string, catalog: set<Id>, queued: seq<Event>, conn: Connection)
    requires ConnInv(host, catalog, conn) && !conn.phase.AwaitAck? && conn.toAgent != []
    ensures ConnInv(host, catalog, AgentStep(host, queued, conn).connection)
    ensures AgentStep(host, queued, conn).queued == queued
  {
    var request := conn.toAgent[0];
    OneAck(request);
    assert conn.toAgent == [request];
    if conn.phase.AwaitPage? {
      var page := SubscribePage(queued, request.action.after, request.action.limit);
      AnswerSent(conn, RuntimeEventPage(page, LastId(page)));
    } else {
      var payload := EventStreamOpened(Negotiated(request.action.maxInFlight));
      AnswerSent(conn, payload);
      var next := AgentStep(host, queued, conn).connection;
      assert Unread(next) == Unread(Answers(conn, request, payload));
    }
  }

  // ---------- the Controller's steps ----------

  /** The frame read is the first one not set aside. */
  lemma HeadSplits(conn: Connection)
    requires CanRead(conn)
    ensures conn.pending + conn.toController ==
            [NextFrame(conn)] + (DropFrame(conn).pending + DropFrame(conn).toController)
    ensures Unread(conn) ==
            Unrelated(conn.phase) + [NextFrame(conn)] + (DropFrame(conn).pending + DropFrame(conn).toController)
  {
    if conn.pending != [] {
      assert conn.pending == [NextFrame(conn)] + DropFrame(conn).pending;
    } else {
      assert conn.toController == [NextFrame(conn)] + DropFrame(conn).toController;
    }
  }

  /** While nothing but pages is set aside, an answer can only come from the wire. */
  lemma HeadResponses(conn: Connection)
    requires CanRead(conn) && Responses(conn.pending) == []
    ensures Responses(DropFrame(conn).pending) == []
    ensures Responses(conn.toController) ==
            (if IsPage(NextFrame(conn)) then [] else [NextFrame(conn)]) + Responses(DropFrame(conn).toController)
    ensures conn.pending != [] ==> IsPage(NextFrame(conn))
  {
    if conn.pending != [] {
      ResponsesHead(conn.pending);
    } else {
      ResponsesHead(conn.toController);
    }
  }

  lemma OfHostAll(events: seq<Event>, host: string)
    requires forall e :: e in events ==> e.hostId == host
    ensures OfHost(events, host) == events
  {
    FilterAll(events, (e: Event) => e.hostId == host);
  }

  /** In the stream loop nothing is set aside. */
  lemma ListenUnread(conn: Connection)
    requires conn.phase.Listening?
    ensures Unread(conn) == conn.pending + conn.toController
  {
    assert Unrelated(conn.phase) == [];
    assert [] + conn.pending == conn.pending;
  }

  lemma ListenTail(conn: Connection)
    requires conn.phase.Listening? && CanRead(conn)
    ensures Unread(conn) == [NextFrame(conn)] + Unread(DropFrame(conn))
    ensures PageIds(Unread(conn)) == FrameIds(NextFrame(conn)) + PageIds(Unread(DropFrame(conn)))
  {
    HeadSplits(conn);
    ListenUnread(conn);
    ListenUnread(DropFrame(conn));
    FirstPageIds(NextFrame(conn), Unread(DropFrame(conn)));
  }

  lemma FirstPageIds(frame: Frame, rest: seq<Frame>)
    ensures PageIds([frame] + rest) == FrameIds(frame) + PageIds(rest)
  {
    assert ([frame] + rest)[1..] == rest;
  }

  /** In the stream loop the next frame is always a page, and its events are all of this host. */
  lemma ListenReads(host: string, conn: Connection)
    requires WireInv(host, conn) && HostInv(host, conn) && conn.phase.Listening? && CanRead(conn)
    ensures IsPage(NextFrame(conn)) && PageOf(NextFrame(conn), host)
    ensures OfHost(NextFrame(conn).payload.events, host) == NextFrame(conn).payload.events
  {
    HeadResponses(conn);
    ListenTail(conn);
    assert NextFrame(conn) in Unread(conn);
    OfHostAll(NextFrame(conn).payload.events, host);
  }

  lemma OfHostLength(events: seq<Event>, host: string)
    ensures |OfHost(events, host)| == |events| <==> forall e :: e in events ==> e.hostId == host
  {
    if |OfHost(events, host)| == |events| {
      FilterFull(events, (e: Event) => e.hostId == host);
      assert forall e :: e in events ==> e in OfHost(events, host);
    } else {
      assert OfHost(events, host) != events;
      if forall e :: e in events ==> e.hostId == host {
        OfHostAll(events, host);
      }
    }
  }

  /** The ids outstanding once the page at the head has been filtered for the host and taken up. */
  lemma FilteredOutstanding(host: string, conn: Connection)
    requires conn.phase.Listening? && CanRead(conn) && NextFrame(conn).payload.EventStreamPage?
             && !NextFrame(conn).payload.heartbeat
    ensures ReadStep(host, conn).Some?
    ensures |Outstanding(ReadStep(host, conn).value)| ==
            |Outstanding(conn)| - |NextFrame(conn).payload.events| + |OfHost(NextFrame(conn).payload.events, host)|
  {
    var next, events := ReadStep(host, conn).value, NextFrame(conn).payload.events;
    ListenTail(conn);
    assert Unread(next) == Unread(DropFrame(conn));
    assert HeldIds(conn.phase) == [] && HeldIds(next.phase) == Ids(OfHost(events, host));
  }

  lemma SlotsCompared(conn: Connection, next: Connection)
    requires conn.mode.Streaming? && next.mode == conn.mode && SlotInv(conn)
    ensures SlotInv(next) <==> multiset(Outstanding(next)) == multiset(Outstanding(conn))
  {
  }

  lemma SameBagSameLength<T>(a: seq<T>, b: seq<T>)
    requires multiset(a) == multiset(b)
    ensures |a| == |b|
  {
    assert |multiset(a)| == |a| && |multiset(b)| == |b|;
  }

  function TakenUp(conn: Connection): Connection
    requires CanRead(conn) && NextFrame(conn).payload.EventStreamPage?
  {
    if NextFrame(conn).payload.heartbeat then DropFrame(conn)
    else DropFrame(conn).(phase := Holding(NextFrame(conn).payload.events, true),
                          received := conn.received + Ids(NextFrame(conn).payload.events))
  }

  /** A page of this host's events alone keeps all its ids outstanding. */
  lemma HostPageOutstanding(host: string, conn: Connection)
    requires conn.phase.Listening? && CanRead(conn) && NextFrame(conn).payload.EventStreamPage?
             && !NextFrame(conn).payload.heartbeat
    requires forall e :: e in NextFrame(conn).payload.events ==> e.hostId == host
    ensures ReadStep(host, conn).Some? && Outstanding(ReadStep(host, conn).value) == Outstanding(conn)
  {
    OfHostAll(NextFrame(conn).payload.events, host);
    assert ReadStep(host, conn) == Some(TakenUp(conn));
    TakenUpOutstanding(conn);
  }

  lemma TakenUpOutstanding(conn: Connection)
    requires conn.phase.Listening? && CanRead(conn)
    requires NextFrame(conn).payload.EventStreamPage? && !NextFrame(conn).payload.heartbeat
    ensures Outstanding(TakenUp(conn)) == Outstanding(conn)
  {
    var next, ids := TakenUp(conn), Ids(NextFrame(conn).payload.events);
    ListenTail(conn);
    NothingHeld(conn);
    assert Unread(next) == Unread(DropFrame(conn));
    assert HeldIds(next.phase) == ids && FrameIds(NextFrame(conn)) == ids;
    Associative(AckIds(conn.toAgent), ids, PageIds(Unread(next)));
  }

  lemma NothingHeld(conn: Connection)
    requires conn.phase.Listening?
    ensures Outstanding(conn) == AckIds(conn.toAgent) + PageIds(Unread(conn))
  {
  }

  /**
   Taking up a page frees no slot and leaks none exactly when every event of the page is of the
   Controller's host: filtering any other event out would leave its slot taken for good.
   */
  lemma SlotsKeptExactly(host: string, conn: Connection)
    requires conn.mode.Streaming? && SlotInv(conn) && conn.phase.Listening? && CanRead(conn)
    requires NextFrame(conn).payload.EventStreamPage? && !NextFrame(conn).payload.heartbeat
    ensures ReadStep(host, conn).Some?
    ensures SlotInv(ReadStep(host, conn).value) <==>
            forall e :: e in NextFrame(conn).payload.events ==> e.hostId == host
  {
    FilteredOutstanding(host, conn);
    var next := ReadStep(host, conn).value;
    OfHostLength(NextFrame(conn).payload.events, host);
    SlotsCompared(conn, next);
    if multiset(Outstanding(next)) == multiset(Outstanding(conn)) {
      SameBagSameLength(Outstanding(next), Outstanding(conn));
    }
    if forall e :: e in NextFrame(conn).payload.events ==> e.hostId == host {
      HostPageOutstanding(host, conn);
    }
  }

  lemma ListenKeepsConn(host: string, catalog: set<Id>, conn: Connection)
    requires ConnInv(host, catalog, conn) && conn.phase.Listening? && CanRead(conn)
    ensures ReadStep(host, conn).Some? && ConnInv(host, catalog, ReadStep(host, conn).value)
  {
    ListenReads(host, conn);
    assert ReadStep(host, conn) == Some(TakenUp(conn));
    HeadResponses(conn);
    ListenTail(conn);
    ListenKeepsWire(host, conn);
    ListenKeepsHistory(host, conn);
  }

  lemma ListenKeepsWire(host: string, conn: Connection)
    requires WireInv(host, conn) && HostInv(host, conn) && conn.phase.Listening? && CanRead(conn)
             && NextFrame(conn).payload.EventStreamPage?
    requires Unread(conn) == [NextFrame(conn)] + Unread(DropFrame(conn))
    ensures WireInv(host, TakenUp(conn)) && HostInv(host, TakenUp(conn))
  {
    HeadResponses(conn);
    assert Unread(TakenUp(conn)) == Unread(DropFrame(conn));
    assert forall f :: f in Unread(DropFrame(conn)) ==> f in Unread(conn);
  }

  lemma ListenKeepsHistory(host: string, conn: Connection)
    requires conn.phase.Listening? && CanRead(conn) && NextFrame(conn).payload.EventStreamPage? && conn.mode.Streaming?
    requires PageOf(NextFrame(conn), host) && conn.toAgent == []
    requires PageIds(Unread(conn)) == FrameIds(NextFrame(conn)) + PageIds(Unread(DropFrame(conn)))
    requires SlotInv(conn) && OrderInv(conn)
    ensures SlotInv(TakenUp(conn)) && OrderInv(TakenUp(conn))
  {
    TakenUpIds(host, conn);
    var next, ids := TakenUp(conn), FrameIds(NextFrame(conn));
    Associative(conn.received, ids, PageIds(Unread(next)));
    TakenUpOrder(conn, next, ids);
  }

  lemma TakenUpOrder(conn: Connection, next: Connection, ids: seq<Id>)
    requires SlotInv(conn) && OrderInv(conn) && conn.mode.Streaming? && next.mode == conn.mode
    requires Outstanding(next) == Outstanding(conn) && next.received == conn.received + ids
    requires conn.received + PageIds(Unread(conn)) == next.received + PageIds(Unread(next))
    ensures SlotInv(next) && OrderInv(next)
  {
  }

  lemma NoRequestOutstanding(conn: Connection)
    requires conn.toAgent == []
    ensures Outstanding(conn) == HeldIds(conn.phase) + PageIds(Unread(conn))
  {
    assert AckIds(conn.toAgent) == [];
  }

  lemma TakenUpIds(host: string, conn: Connection)
    requires conn.phase.Listening? && CanRead(conn) && NextFrame(conn).payload.EventStreamPage?
    requires PageOf(NextFrame(conn), host) && conn.toAgent == []
    requires PageIds(Unread(conn)) == FrameIds(NextFrame(conn)) + PageIds(Unread(DropFrame(conn)))
    ensures Outstanding(TakenUp(conn)) == Outstanding(conn)
    ensures Unread(TakenUp(conn)) == Unread(DropFrame(conn))
    ensures TakenUp(conn).received == conn.received + FrameIds(NextFrame(conn))
  {
    NoRequestOutstanding(conn);
    NoRequestOutstanding(TakenUp(conn));
    assert HeldIds(TakenUp(conn).phase) == FrameIds(NextFrame(conn));
    assert Unread(TakenUp(conn)) == Unread(DropFrame(conn));
    assert HeldIds(conn.phase) == [];
  }

  /** A frame set aside stays the next one in order. */
  lemma SetAsideUnread(host: string, conn: Connection)
    requires AwaitedId(conn.phase).Some? && CanRead(conn)
    requires NextFrame(conn).requestId != AwaitedId(conn.phase).value
    ensures ReadStep(host, conn).Some?
    ensures var next := ReadStep(host, conn).value;
            && next == DropFrame(conn).(phase := SetAside(conn.phase, NextFrame(conn)))
            && Unread(next) == Unread(conn)
            && HeldIds(next.phase) == HeldIds(conn.phase) == []
  {
    var next, u, tail :=
      ReadStep(host, conn).value, Unrelated(conn.phase), DropFrame(conn).pending + DropFrame(conn).toController;
    HeadSplits(conn);
    assert Unrelated(next.phase) == u + [NextFrame(conn)];
    Associative(u + [NextFrame(conn)], DropFrame(conn).pending, DropFrame(conn).toController);
    assert Unread(next) == u + [NextFrame(conn)] + tail;
  }

  lemma SetAsideKeepsConn(host: string, catalog: set<Id>, conn: Connection)
    requires ConnInv(host, catalog, conn) && AwaitedId(conn.phase).Some? && CanRead(conn)
    requires NextFrame(conn).requestId != AwaitedId(conn.phase).value
    ensures ReadStep(host, conn).Some? && ConnInv(host, catalog, ReadStep(host, conn).value)
  {
    SetAsideUnread(host, conn);
    SetAsideKeepsWire(host, conn);
    SetAsideKeepsHistory(host, conn);
  }

  lemma SetAsideKeepsHistory(host: string, conn: Connection)
    requires HostInv(host, conn) && SlotInv(conn) && OrderInv(conn) && AwaitedId(conn.phase).Some? && CanRead(conn)
    requires NextFrame(conn).requestId != AwaitedId(conn.phase).value
    ensures ReadStep(host, conn).Some?
    ensures var next := ReadStep(host, conn).value; HostInv(host, next) && SlotInv(next) && OrderInv(next)
  {
    SetAsideUnread(host, conn);
    var next := ReadStep(host, conn).value;
    assert next.toAgent == conn.toAgent && next.mode == conn.mode && next.received == conn.received;
    SameHistory(host, conn, next);
  }

  /** What is sent, held and unread is all that these invariants depend on. */
  lemma SameHistory(host: string, conn: Connection, next: Connection)
    requires HostInv(host, conn) && SlotInv(conn) && OrderInv(conn)
    requires next.mode == conn.mode && next.received == conn.received && Unread(next) == Unread(conn)
    requires conn.mode.Streaming? ==> Outstanding(next) == Outstanding(conn)
    ensures HostInv(host, next) && SlotInv(next) && OrderInv(next)
  {
  }

  /** A frame that is not the awaited answer is a page, so setting it aside leaves the answers where they are. */
  lemma PassedOverIsPage(host: string, conn: Connection)
    requires WireInv(host, conn) && AwaitedId(conn.phase).Some? && CanRead(conn)
    requires NextFrame(conn).requestId != AwaitedId(conn.phase).value
    ensures Responses(DropFrame(conn).pending) == [] && Responses(Unrelated(conn.phase) + [NextFrame(conn)]) == []
    ensures Responses(DropFrame(conn).toController) == Responses(conn.toController)
  {
    HeadResponses(conn);
    ResponsesConcat(Unrelated(conn.phase), [NextFrame(conn)]);
    OnePageId(NextFrame(conn));
  }

  lemma SetAsideKeepsWire(host: string, conn: Connection)
    requires WireInv(host, conn) && AwaitedId(conn.phase).Some? && CanRead(conn)
    requires NextFrame(conn).requestId != AwaitedId(conn.phase).value
    ensures ReadStep(host, conn).Some? && WireInv(host, ReadStep(host, conn).value)
  {
    PassedOverIsPage(host, conn);
  }

  /** The awaited answer is the frame at the head of the wire, and it is of the expected kind. */
  lemma MatchReads(host: string, conn: Connection)
    requires WireInv(host, conn) && AwaitedId(conn.phase).Some? && CanRead(conn)
    requires NextFrame(conn).requestId == AwaitedId(conn.phase).value
    ensures conn.pending == [] && conn.toAgent == [] && Responses(DropFrame(conn).toController) == []
    ensures GoodAnswer(conn.mode, conn.phase, NextFrame(conn).payload)
    ensures ReadStep(host, conn).Some?
    ensures var next := ReadStep(host, conn).value;
            && next == DropFrame(conn).(pending := Unrelated(conn.phase), phase := next.phase)
            && AwaitedId(next.phase).None? && GoodMode(conn.mode, next.phase) && !next.phase.Persisted?
            && HeldIds(next.phase) == [] && Unrelated(next.phase) == []
  {
    HeadResponses(conn);
    assert !IsPage(NextFrame(conn));
    var next := ReadStep(host, conn).value;
    assert [] + Unrelated(conn.phase) == Unrelated(conn.phase);
  }

  lemma MatchKeepsConn(host: string, catalog: set<Id>, conn: Connection)
    requires ConnInv(host, catalog, conn) && AwaitedId(conn.phase).Some? && CanRead(conn)
    requires NextFrame(conn).requestId == AwaitedId(conn.phase).value
    ensures ReadStep(host, conn).Some? && ConnInv(host, catalog, ReadStep(host, conn).value)
  {
    MatchReads(host, conn);
    MatchTail(conn);
    MatchKeepsHistory(host, conn);
    MatchKeepsWire(host, conn);
  }

  lemma MatchTail(conn: Connection)
    requires CanRead(conn) && conn.pending == [] && !NextFrame(conn).payload.EventStreamPage?
    ensures Unread(conn) == Unrelated(conn.phase) + [NextFrame(conn)] + DropFrame(conn).toController
    ensures PageIds(Unread(conn)) == PageIds(Unrelated(conn.phase) + DropFrame(conn).toController)
  {
    HeadSplits(conn);
    assert DropFrame(conn).pending + DropFrame(conn).toController == DropFrame(conn).toController;
    NoPageBetween(Unrelated(conn.phase), NextFrame(conn), DropFrame(conn).toController);
  }

  lemma NoPageBetween(a: seq<Frame>, frame: Frame, b: seq<Frame>)
    requires !frame.payload.EventStreamPage?
    ensures PageIds(a + [frame] + b) == PageIds(a + b)
  {
    PageIdsConcat(a + [frame], b);
    PageIdsConcat(a, [frame]);
    OnePageId(frame);
    assert PageIds(a) + [] == PageIds(a);
    PageIdsConcat(a, b);
  }

  lemma MatchKeepsWire(host: string, conn: Connection)
    requires WireInv(host, conn) && HostInv(host, conn) && AwaitedId(conn.phase).Some? && CanRead(conn)
    requires NextFrame(conn).requestId == AwaitedId(conn.phase).value
    ensures ReadStep(host, conn).Some? && WireInv(host, ReadStep(host, conn).value)
            && HostInv(host, ReadStep(host, conn).value)
  {
    MatchReads(host, conn);
    MatchTail(conn);
    var next := ReadStep(host, conn).value;
    assert Unread(next) == Unrelated(conn.phase) + DropFrame(conn).toController;
    assert forall f :: f in Unread(next) ==> f in Unread(conn);
  }

  lemma MatchKeepsHistory(host: string, conn: Connection)
    requires WireInv(host, conn) && SlotInv(conn) && OrderInv(conn) && AwaitedId(conn.phase).Some? && CanRead(conn)
    requires NextFrame(conn).requestId == AwaitedId(conn.phase).value
    ensures ReadStep(host, conn).Some? && SlotInv(ReadStep(host, conn).value) && OrderInv(ReadStep(host, conn).value)
  {
    MatchReads(host, conn);
    MatchTail(conn);
    var next := ReadStep(host, conn).value;
    assert Unread(next) == Unrelated(conn.phase) + DropFrame(conn).toController;
    assert Outstanding(next) == Outstanding(conn);
  }

  lemma ReadKeepsConn(host: string, catalog: set<Id>, conn: Connection)
    requires ConnInv(host, catalog, conn) && CanRead(conn)
    ensures ReadStep(host, conn).Some? && ConnInv(host, catalog, ReadStep(host, conn).value)
  {
    if conn.phase.Listening? {
      ListenKeepsConn(host, catalog, conn);
    } else if NextFrame(conn).requestId == AwaitedId(conn.phase).value {
      MatchKeepsConn(host, catalog, conn);
    } else {
      SetAsideKeepsConn(host, catalog, conn);
    }
  }

  lemma AskKeepsConn(host: string, catalog: set<Id>, conn: Connection, request: Request, phase: Phase)
    requires ConnInv(host, catalog, conn) && AwaitedId(conn.phase).None? && !conn.phase.Holding?
    requires request.requestId.FromController? && AwaitedId(phase) == Some(request.requestId) && Unrelated(phase) == []
    requires GoodMode(conn.mode, phase) && GoodRequest(host, conn.mode, phase, request.action)
    requires HeldIds(conn.phase) == if request.action.AckEvents? && conn.mode.Streaming? then request.action.ids else []
    requires request.action.AckEvents? ==> forall id :: id in request.action.ids ==> id in catalog
    ensures ConnInv(host, catalog, Asks(conn, request, phase))
  {
    assert Asks(conn, request, phase).toAgent == [request];
    OneAck(request);
    AskKeepsHistory(host, conn, request, phase);
  }

  lemma AskKeepsHistory(host: string, conn: Connection, request: Request, phase: Phase)
    requires HostInv(host, conn) && SlotInv(conn) && OrderInv(conn) && AwaitedId(conn.phase).None? && conn.toAgent == []
    requires AwaitedId(phase).Some? && Unrelated(phase) == []
    requires HeldIds(conn.phase) == if request.action.AckEvents? && conn.mode.Streaming? then request.action.ids else []
    ensures var next := Asks(conn, request, phase); HostInv(host, next) && SlotInv(next) && OrderInv(next)
  {
    var next := Asks(conn, request, phase);
    assert next.toAgent == [request];
    OneAck(request);
    assert Unread(next) == Unread(conn);
    assert HeldIds(phase) == [];
    NoRequestOutstanding(conn);
    assert conn.mode.Streaming? ==> Outstanding(next) == Outstanding(conn);
    SameHistory(host, conn, next);
  }

  lemma RestKeepsConn(host: string, catalog: set<Id>, conn: Connection)
    requires ConnInv(host, catalog, conn) && conn.phase.Persisted? && conn.phase.ids == []
    ensures ConnInv(host, catalog, conn.(phase := Resting(conn.phase.streaming)))
  {
    var next := conn.(phase := Resting(conn.phase.streaming));
    assert Unread(next) == Unread(conn);
    assert Outstanding(next) == Outstanding(conn);
  }

  lemma IngestKeepsConn(host: string, catalog: set<Id>, conn: Connection)
    requires ConnInv(host, catalog, conn) && conn.phase.Holding?
    ensures var ids := Ids(conn.phase.events);
            ConnInv(host, catalog + Elems(ids), conn.(phase := Persisted(ids, conn.phase.streaming)))
  {
    var next := conn.(phase := Persisted(Ids(conn.phase.events), conn.phase.streaming));
    assert Unread(next) == Unread(conn);
    assert Outstanding(next) == Outstanding(conn);
  }

  lemma NewKeepsConn(host: string, catalog: set<Id>)
    ensures ConnInv(host, catalog, NewConnection())
  {
    assert Responses([]) == [] && PageIds([]) == [] && AckIds([]) == [];
    assert Unread(NewConnection()) == [];
  }

  lemma MoreCatalogKeepsConn(host: string, small: set<Id>, big: set<Id>, conn: Connection)
    requires ConnInv(host, small, conn) && small <= big
    ensures ConnInv(host, big, conn)
  {
  }
}
