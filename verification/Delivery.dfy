/**
 The delivery of runtime events from one Agent to one Controller as a step
 system: the Agent's outbox, the Controller's catalog, and any number of
 connections, each with its two wires and the state of both of its ends.
 */
module Delivery {
  import opened Domain
  import opened Sequences
  import opened RuntimeOutbox
  import opened Protocol
  import opened EventStream

  /** The Agent's view of a connection; `emitted` records the ids sent on its stream, oldest first. */
  datatype Mode =
    | Plain
    | Streaming(scope: Option<Scope>, window: nat, state: StreamState, emitted: seq<Id>)

  /** Where the Controller stands on a connection; `streaming` tells the stream loop from the subscribe-once path. */
  datatype Phase =
    | Free
    | Listening
    | AwaitPage(id: RequestId, unrelated: seq<Frame>)
    | AwaitOpen(id: RequestId, unrelated: seq<Frame>)
    | Holding(events: seq<Event>, streaming: bool)
    | Persisted(ids: seq<Id>, streaming: bool)
    | AwaitAck(id: RequestId, unrelated: seq<Frame>, streaming: bool)

  /** `received` records the ids of the stream pages the Controller has taken up, oldest first. */
  datatype Connection = Connection(
    mode: Mode,
    toAgent: seq<Request>,
    toController: seq<Frame>,
    pending: seq<Frame>,
    phase: Phase,
    received: seq<Id>)

  /**
   `log` records every id added to the outbox, oldest first; `evicted` those its capacity has pushed out
   since they were last added.
   */
  datatype System = System(
    host: string,
    queued: seq<Event>,
    log: seq<Id>,
    evicted: set<Id>,
    catalog: set<Id>,
    connections: map<nat, Connection>,
    serial: nat)

  datatype Step =
    | Append(events: seq<Event>)
    | Connect(c: nat)
    | Disconnect(c: nat)
    | Restart
    | SendSubscribe(c: nat, after: Option<Id>, limit: nat)
    | SendOpen(c: nat, providerId: Option<string>, maxInFlight: nat)
    | SendAck(c: nat)
    | AgentAnswers(c: nat)
    | AgentTicks(c: nat, elapsedHeartbeat: bool)
    | ControllerReads(c: nat)
    | ControllerIngests(c: nat)

  function Initial(host: string): System {
    System(host, [], [], {}, {}, map[], 0)
  }

  function NewConnection(): Connection {
    Connection(Plain, [], [], [], Free, [])
  }

  /** The scope the Controller asks for: its own registered host, and a provider if one was chosen. */
  function ControllerScope(host: string, providerId: Option<string>): Scope {
    Scope(Some(host), providerId, None)
  }

  function OfHost(events: seq<Event>, host: string): seq<Event> {
    Filter(events, (e: Event) => e.hostId == host)
  }

  function AwaitedId(phase: Phase): Option<RequestId> {
    match phase
    case AwaitPage(id, _) => Some(id)
    case AwaitOpen(id, _) => Some(id)
    case AwaitAck(id, _, _) => Some(id)
    case _ => None
  }

  function Unrelated(phase: Phase): seq<Frame> {
    match phase
    case AwaitPage(_, unrelated) => unrelated
    case AwaitOpen(_, unrelated) => unrelated
    case AwaitAck(_, unrelated, _) => unrelated
    case _ => []
  }

  function SetAside(phase: Phase, frame: Frame): Phase {
    match phase
    case AwaitPage(id, unrelated) => AwaitPage(id, unrelated + [frame])
    case AwaitOpen(id, unrelated) => AwaitOpen(id, unrelated + [frame])
    case AwaitAck(id, unrelated, streaming) => AwaitAck(id, unrelated + [frame], streaming)
    case _ => phase
  }

  function Resting(streaming: bool): Phase {
    if streaming then Listening else Free
  }

  function Asks(conn: Connection, request: Request, phase: Phase): Connection {
    conn.(toAgent := conn.toAgent + [request], phase := phase)
  }

  function Answers(conn: Connection, request: Request, payload: Payload): Connection
    requires conn.toAgent != []
  {
    conn.(toAgent := conn.toAgent[1..],
          toController := conn.toController + [Envelope(request.requestId, true, payload)])
  }

  datatype Shared = Shared(queued: seq<Event>, connection: Connection)

  /** The Agent handles the request at the head of the wire. */
  function AgentStep(host: string, queued: seq<Event>, conn: Connection): Shared
    requires conn.toAgent != []
  {
    var request := conn.toAgent[0];
    match request.action
    case AckEvents(ids) =>
      var allowed := if conn.mode.Plain? then ids else Allowed(conn.mode.state, ids);
      var rest := Acknowledged(queued, allowed);
      var done := Answers(conn, request, EventsAcked(|queued| - |rest|));
      Shared(rest, if conn.mode.Plain? then done
             else done.(mode := conn.mode.(state := AfterAck(conn.mode.state, ids))))
    case SubscribeEvents(after, limit) =>
      var page := SubscribePage(queued, after, limit);
      Shared(queued, Answers(conn, request, if conn.mode.Plain? then RuntimeEventPage(page, LastId(page)) else Refused))
    case OpenEventStream(start, scope, maxInFlight) =>
      if conn.mode.Streaming? || (scope.Some? && scope.value.hostId.Some? && scope.value.hostId.value != host) then
        Shared(queued, Answers(conn, request, Refused))
      else
        var window := Negotiated(maxInFlight);
        var granted := Answers(conn, request, EventStreamOpened(window));
        Shared(queued, granted.(mode := Streaming(scope, window, Opened(start), [])))
  }

  /** The stream's timer fires: a page, or a heartbeat when one is due, or nothing. */
  function TickStep(queued: seq<Event>, conn: Connection, serial: nat, heartbeatDue: bool): Connection
    requires conn.mode.Streaming?
  {
    var m := conn.mode;
    var page := TickPage(m.state, m.scope, m.window, queued);
    if page != [] then
      var frame := Envelope(FromAgent(serial), true, EventStreamPage(page, LastId(page), false));
      conn.(mode := m.(state := AfterPage(m.state, page), emitted := m.emitted + Ids(page)),
            toController := conn.toController + [frame])
    else if heartbeatDue then
      var frame := Envelope(FromAgent(serial), true, EventStreamPage([], m.state.cursor, true));
      conn.(toController := conn.toController + [frame])
    else conn
  }

  predicate CanRead(conn: Connection) {
    && (conn.phase.Listening? || AwaitedId(conn.phase).Some?)
    && (conn.pending != [] || conn.toController != [])
  }

  function NextFrame(conn: Connection): Frame
    requires CanRead(conn)
  {
    if conn.pending != [] then conn.pending[0] else conn.toController[0]
  }

  function DropFrame(conn: Connection): Connection
    requires CanRead(conn)
  {
    if conn.pending != [] then conn.(pending := conn.pending[1..])
    else conn.(toController := conn.toController[1..])
  }

  /** What the Controller does with the answer it was waiting for; nothing when it gives the connection up. */
  function AfterAnswer(host: string, phase: Phase, payload: Payload): Option<Phase>
    requires AwaitedId(phase).Some?
  {
    match phase
    case AwaitPage(_, _) => Some(if payload.RuntimeEventPage? then Holding(OfHost(payload.page, host), false) else Free)
    case AwaitOpen(_, _) => if payload.EventStreamOpened? then Some(Listening) else None
    case AwaitAck(_, _, streaming) =>
      if payload.EventsAcked? then Some(Resting(streaming)) else if streaming then None else Some(Free)
  }

  /** The Controller takes the next frame, set-aside frames first; nothing when it gives the connection up. */
  function ReadStep(host: string, conn: Connection): Option<Connection>
    requires CanRead(conn)
  {
    var frame := NextFrame(conn);
    var rest := DropFrame(conn);
    if conn.phase.Listening? then
      if !frame.payload.EventStreamPage? then None
      else if frame.payload.heartbeat then Some(rest)
      else
        var events := OfHost(frame.payload.events, host);
        Some(rest.(phase := Holding(events, true), received := rest.received + Ids(events)))
    else if Some(frame.requestId) == AwaitedId(conn.phase) then
      var phase := AfterAnswer(host, conn.phase, frame.payload);
      if phase.None? then None else Some(rest.(pending := rest.pending + Unrelated(conn.phase), phase := phase.value))
    else Some(rest.(phase := SetAside(conn.phase, frame)))
  }

  predicate Enabled(s: System, step: Step) {
    match step
    case Append(_) => true
    case Restart => true
    case Connect(c) => c !in s.connections
    case Disconnect(c) => c in s.connections
    case SendSubscribe(c, _, _) => c in s.connections && s.connections[c].phase.Free?
    case SendOpen(c, _, _) => c in s.connections && s.connections[c].phase.Free?
    case SendAck(c) => c in s.connections && s.connections[c].phase.Persisted?
    case AgentAnswers(c) => c in s.connections && s.connections[c].toAgent != []
    case AgentTicks(c, _) => c in s.connections && s.connections[c].mode.Streaming?
    case ControllerReads(c) => c in s.connections && CanRead(s.connections[c])
    case ControllerIngests(c) => c in s.connections && s.connections[c].phase.Holding?
  }

  function With(s: System, c: nat, conn: Connection): System {
    s.(connections := s.connections[c := conn])
  }

  function Without(s: System, c: nat): System {
    s.(connections := s.connections - {c})
  }

  function Next(s: System, step: Step): System
    requires Enabled(s, step)
  {
    var request := FromController(s.serial);
    var t := s.(serial := s.serial + 1);
    match step
    case Append(events) =>
      s.(queued := Appended(s.queued, events),
         log := s.log + Ids(NewEvents(s.queued, events)),
         evicted := s.evicted - Elems(Ids(NewEvents(s.queued, events))) + Elems(Ids(Evicted(s.queued, events))))
    case Connect(c) => With(s, c, NewConnection())
    case Disconnect(c) => Without(s, c)
    case Restart => s.(connections := map[])
    case SendSubscribe(c, after, limit) =>
      With(t, c, Asks(s.connections[c], Request(request, SubscribeEvents(after, limit)), AwaitPage(request, [])))
    case SendOpen(c, providerId, maxInFlight) =>
      var open := OpenEventStream(None, Some(ControllerScope(s.host, providerId)), Negotiated(maxInFlight));
      With(t, c, Asks(s.connections[c], Request(request, open), AwaitOpen(request, [])))
    case SendAck(c) =>
      var p := s.connections[c].phase;
      if p.ids == [] then With(s, c, s.connections[c].(phase := Resting(p.streaming)))
      else With(t, c, Asks(s.connections[c], Request(request, AckEvents(p.ids)), AwaitAck(request, [], p.streaming)))
    case AgentAnswers(c) =>
      var after := AgentStep(s.host, s.queued, s.connections[c]);
      With(s, c, after.connection).(queued := after.queued)
    case AgentTicks(c, due) => With(t, c, TickStep(s.queued, s.connections[c], s.serial, due))
    case ControllerReads(c) =>
      var after := ReadStep(s.host, s.connections[c]);
      if after.None? then Without(s, c) else With(s, c, after.value)
    case ControllerIngests(c) =>
      var p := s.connections[c].phase;
      var ids := Ids(p.events);
      With(s, c, s.connections[c].(phase := Persisted(ids, p.streaming))).(catalog := s.catalog + Elems(ids))
  }

  /** A run: every step is enabled when its turn comes. */
  predicate Possible(s: System, steps: seq<Step>)
    decreases |steps|
  {
    steps == [] || (Enabled(s, steps[0]) && Possible(Next(s, steps[0]), steps[1..]))
  }

  function Run(s: System, steps: seq<Step>): System
    requires Possible(s, steps)
    decreases |steps|
  {
    if steps == [] then s else Run(Next(s, steps[0]), steps[1..])
  }
}
