/** The Agent's side of a runtime event stream: a windowed, acknowledged reading of the outbox. */
module EventStream {
  import opened Domain
  import opened Sequences
  import opened RuntimeOutbox
  import opened Protocol

  /** What the Agent remembers about one open stream. */
  datatype StreamState = StreamState(cursor: Option<Id>, inFlight: set<Id>, sent: set<Id>)

  /** The window granted for a requested one. */
  function Negotiated(maxInFlight: nat): (window: nat)
    ensures 1 <= window <= 64
    ensures 1 <= maxInFlight <= 64 ==> window == maxInFlight
  {
    Clamp(maxInFlight, 1, 64)
  }

  function Opened(start: Option<Id>): StreamState {
    StreamState(start, {}, {})
  }

  /** The page a tick emits; empty when the window is full or nothing is left to send. */
  function TickPage(s: StreamState, scope: Option<Scope>, window: nat, queued: seq<Event>): seq<Event> {
    if window <= |s.inFlight| then []
    else StreamPage(queued, s.cursor, scope, s.sent, window - |s.inFlight|)
  }

  function AfterPage(s: StreamState, page: seq<Event>): StreamState {
    if page == [] then s
    else
      StreamState(LastId(page), s.inFlight + Elems(Ids(page)), s.sent + Elems(Ids(page)))
  }

  /** Of the ids a client acknowledges, those that hold a slot of this stream. */
  function Allowed(s: StreamState, ids: seq<Id>): seq<Id> {
    Filter(ids, (id: Id) => id in s.inFlight)
  }

  function AfterAck(s: StreamState, ids: seq<Id>): StreamState {
    s.(inFlight := s.inFlight - Elems(ids))
  }

  class Server {
    const outbox: Outbox
    const scope: Option<Scope>
    const window: nat
    const heartbeatMs: nat
    var cursor: Option<Id>
    var inFlight: set<Id>
    var sent: set<Id>

    constructor (outbox: Outbox, start: Option<Id>, scope: Option<Scope>, maxInFlight: nat, heartbeatMs: nat)
      ensures this.outbox == outbox && this.scope == scope
      ensures window == Negotiated(maxInFlight)
      ensures this.heartbeatMs == if heartbeatMs < 250 then 250 else if heartbeatMs > 30000 then 30000 else heartbeatMs
      ensures State() == Opened(start)
    {
      this.outbox := outbox;
      this.scope := scope;
      this.window := Negotiated(maxInFlight);
      this.heartbeatMs := Clamp(heartbeatMs, 250, 30000);
      cursor, inFlight, sent := start, {}, {};
    }

    function State(): StreamState
      reads this
    {
      StreamState(cursor, inFlight, sent)
    }

    /**
     One tick of the timer, `elapsed` milliseconds after the last frame: a page, else a due heartbeat, else
     nothing.
     */
    method Tick(elapsed: nat) returns (frame: Option<Payload>)
      modifies this
      ensures var page := TickPage(old(State()), scope, window, outbox.queued);
              && State() == AfterPage(old(State()), page)
              && frame == if page != [] then Some(EventStreamPage(page, LastId(page), false))
                          else if elapsed >= heartbeatMs then Some(EventStreamPage([], cursor, true))
                          else None
    {
      frame := None;
      if |inFlight| < window {
        var events := StreamPage(outbox.queued, cursor, scope, sent, window - |inFlight|);
        if events != [] {
          Emit(events);
          frame := Some(EventStreamPage(events, cursor, false));
        }
      }
      if frame.None? && elapsed >= heartbeatMs {
        frame := Some(EventStreamPage([], cursor, true));
      }
    }

    method Emit(events: seq<Event>)
      requires events != []
      modifies this
      ensures State() == AfterPage(old(State()), events)
    {
      var ids := Ids(events);
      for i := 0 to |ids|
        invariant inFlight == old(inFlight) + Elems(ids[..i])
        invariant sent == old(sent) + Elems(ids[..i])
        invariant cursor == old(cursor)
      {
        assert Elems(ids[..i + 1]) == Elems(ids[..i]) + {ids[i]};
        inFlight := inFlight + {ids[i]};
        sent := sent + {ids[i]};
      }
      assert ids[..|ids|] == ids;
      cursor := LastId(events);
    }

    /** Handles an acknowledgement: only ids that hold a slot are removed, from the outbox and from the window. */
    method Acknowledge(ids: seq<Id>) returns (removed: nat)
      modifies this, outbox
      ensures State() == AfterAck(old(State()), ids)
      ensures outbox.queued == Acknowledged(old(outbox.queued), Allowed(old(State()), ids))
      ensures removed == |old(outbox.queued)| - |outbox.queued|
    {
      var allowed := Allowed(State(), ids);
      removed := outbox.Acknowledge(allowed);
      for i := 0 to |allowed|
        invariant inFlight == old(inFlight) - Elems(allowed[..i])
        invariant cursor == old(cursor) && sent == old(sent)
        invariant outbox.queued == Acknowledged(old(outbox.queued), allowed)
      {
        inFlight := inFlight - {allowed[i]};
      }
      assert allowed[..|allowed|] == allowed;
    }
  }
}
