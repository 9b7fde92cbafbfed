/**
 A run of the delivery system in which an id that a stream has sent is
 acknowledged and appended again behind an unsent event, which the stream then
 passes over although its window is free.
 */
module DeliveryReappend {
  import opened Domain
  import opened Sequences
  import opened RuntimeOutbox
  import opened Protocol
  import opened EventStream
  import opened Delivery
  import opened DeliveryTheorems

  function Sent(): Event {
    Event("a", "h", "p", None, "")
  }

  function Unsent(): Event {
    Event("b", "h", "p", None, "")
  }

  function HostScope(): Option<Scope> {
    Some(ControllerScope("h", None))
  }

  function Stream(inFlight: set<Id>): Mode {
    Streaming(HostScope(), 64, StreamState(Some("a"), inFlight, {"a"}), ["a"])
  }

  function Page(): Frame {
    Envelope(FromAgent(1), true, EventStreamPage([Sent()], Some("a"), false))
  }

  function Ack(): Request {
    Request(FromController(2), AckEvents(["a"]))
  }

  /** A system of one connection. */
  function Alone(queued: seq<Event>, log: seq<Id>, catalog: set<Id>, conn: Connection, serial: nat): System {
    System("h", queued, log, {}, catalog, map[0 := conn], serial)
  }

  function OpenRequest(): Request {
    Request(FromController(0), OpenEventStream(None, HostScope(), 64))
  }

  function Asked(): System {
    Alone([Sent()], ["a"], {}, Connection(Plain, [OpenRequest()], [], [], AwaitOpen(FromController(0), []), []), 1)
  }

  function Listens(): System {
    Alone([Sent()], ["a"], {}, Connection(Streaming(HostScope(), 64, Opened(None), []), [], [], [], Listening, []), 1)
  }

  function Paged(): System {
    Alone([Sent()], ["a"], {}, Connection(Stream({"a"}), [], [Page()], [], Listening, []), 2)
  }

  function Acking(): System {
    Alone([Sent()], ["a"], {"a"},
          Connection(Stream({"a"}), [Ack()], [], [], AwaitAck(FromController(2), [], true), ["a"]), 3)
  }

  /** Everything is acknowledged, and the acknowledged id is behind a new event. */
  function Reappended(): System {
    Alone([Unsent(), Sent()], ["a", "b", "a"], {"a"},
         Connection(Stream({}), [], [Envelope(FromController(2), true, EventsAcked(1))], [],
                    AwaitAck(FromController(2), [], true), ["a"]), 3)
  }

  // ---------- one step after another ----------

  lemma AppendNew(s: System, event: Event)
    requires event.id !in Ids(s.queued) && |s.queued| < CAPACITY && s.evicted == {}
    ensures Delivery.Next(s, Append([event])) == s.(queued := s.queued + [event], log := s.log + [event.id])
  {
    assert [event][1..] == [];
    assert NewEvents(s.queued, [event]) == [event];
    assert Ids([event]) == [event.id];
    assert Elems(Ids([])) == {};
  }

  lemma Swapped(s: System, x: Connection, y: Connection)
    requires s.connections == map[0 := x]
    ensures With(s, 0, y) == s.(connections := map[0 := y])
  {
    assert map[0 := x][0 := y] == map[0 := y];
  }

  lemma ReachAsked()
    ensures Reachable(Asked())
  {
    var s0 := Initial("h");
    assert Possible(s0, []) && Run(s0, []) == s0;
    ReachableNext(s0, Append([Sent()]));
    AppendNew(s0, Sent());
    var s1 := Delivery.Next(s0, Append([Sent()]));
    assert [] + [Sent()] == [Sent()];
    ReachableNext(s1, Connect(0));
    var s2 := Delivery.Next(s1, Connect(0));
    assert s2 == Alone([Sent()], ["a"], {}, NewConnection(), 0);
    ReachableNext(s2, SendOpen(0, None, 64));
    var y := Connection(Plain, [OpenRequest()], [], [], AwaitOpen(FromController(0), []), []);
    assert Asks(NewConnection(), OpenRequest(), AwaitOpen(FromController(0), [])) == y;
    Swapped(s2.(serial := 1), NewConnection(), y);
  }

  function Opening(): Connection {
    Connection(Streaming(HostScope(), 64, Opened(None), []), [],
               [Envelope(FromController(0), true, EventStreamOpened(64))], [], AwaitOpen(FromController(0), []), [])
  }

  lemma ReachListens()
    ensures Reachable(Listens())
  {
    ReachAsked();
    ReachableNext(Asked(), AgentAnswers(0));
    var x := Asked().connections[0];
    assert AgentStep("h", [Sent()], x) == Shared([Sent()], Opening());
    Swapped(Asked(), x, Opening());
    var s := Delivery.Next(Asked(), AgentAnswers(0));
    assert s == Alone([Sent()], ["a"], {}, Opening(), 1);
    ReachableNext(s, ControllerReads(0));
    var y := Listens().connections[0];
    assert DropFrame(Opening()).toController == [] && [] + Unrelated(Opening().phase) == [];
    assert ReadStep("h", Opening()) == Some(y);
    Swapped(s, Opening(), y);
  }

  lemma FirstPage()
    ensures TickPage(Opened(None), HostScope(), 64, [Sent()]) == [Sent()]
  {
    assert [Sent()][0..] == [Sent()];
    assert [Sent()][1..] == [];
  }

  lemma ReachPaged()
    ensures Reachable(Paged())
  {
    ReachListens();
    ReachableNext(Listens(), AgentTicks(0, false));
    var x, y := Listens().connections[0], Paged().connections[0];
    FirstTick();
    Swapped(Listens().(serial := 2), x, y);
  }

  lemma FirstTick()
    ensures TickStep([Sent()], Listens().connections[0], 1, false) == Paged().connections[0]
  {
    FirstPage();
    assert Ids([Sent()]) == ["a"];
    assert Elems(["a"]) == {"a"};
    assert LastId([Sent()]) == Some("a");
    assert [] + ["a"] == ["a"] && [] + [Page()] == [Page()];
    assert AfterPage(Opened(None), [Sent()]) == StreamState(Some("a"), {"a"}, {"a"});
  }

  function Held(phase: Phase): Connection {
    Connection(Stream({"a"}), [], [], [], phase, ["a"])
  }

  lemma ReadPage()
    ensures CanRead(Paged().connections[0])
    ensures ReadStep("h", Paged().connections[0]) == Some(Held(Holding([Sent()], true)))
  {
    assert [Sent()][1..] == [];
    assert OfHost([Sent()], "h") == [Sent()];
    assert Ids([Sent()]) == ["a"] && [] + ["a"] == ["a"];
    assert DropFrame(Paged().connections[0]).toController == [];
  }

  lemma ReachHolding()
    ensures Reachable(Alone([Sent()], ["a"], {}, Held(Holding([Sent()], true)), 2))
  {
    ReachPaged();
    ReadPage();
    ReachableNext(Paged(), ControllerReads(0));
    Swapped(Paged(), Paged().connections[0], Held(Holding([Sent()], true)));
  }

  lemma ReachPersisted()
    ensures Reachable(Alone([Sent()], ["a"], {"a"}, Held(Persisted(["a"], true)), 2))
  {
    ReachHolding();
    var s := Alone([Sent()], ["a"], {}, Held(Holding([Sent()], true)), 2);
    ReachableNext(s, ControllerIngests(0));
    assert Ids([Sent()]) == ["a"];
    assert {} + Elems(["a"]) == {"a"};
    Swapped(s, s.connections[0], Held(Persisted(["a"], true)));
  }

  lemma ReachAcking()
    ensures Reachable(Acking())
  {
    ReachPersisted();
    var t := Alone([Sent()], ["a"], {"a"}, Held(Persisted(["a"], true)), 2);
    ReachableNext(t, SendAck(0));
    assert [] + [Ack()] == [Ack()];
    Swapped(t.(serial := 3), t.connections[0], Acking().connections[0]);
  }

  lemma AnswerAck()
    ensures AgentStep("h", [Sent()], Acking().connections[0]) == Shared([], Reappended().connections[0])
  {
    assert Allowed(StreamState(Some("a"), {"a"}, {"a"}), ["a"]) == ["a"] by { assert ["a"][1..] == []; }
    assert Acknowledged([Sent()], ["a"]) == [] by { assert [Sent()][1..] == []; }
    assert Elems(["a"]) == {"a"};
    assert {"a"} - {"a"} == {};
  }

  lemma ReachAcknowledged()
    ensures Reachable(Alone([], ["a"], {"a"}, Reappended().connections[0], 3))
  {
    ReachAcking();
    AnswerAck();
    ReachableNext(Acking(), AgentAnswers(0));
    Swapped(Acking(), Acking().connections[0], Reappended().connections[0]);
  }

  /** What an append of one new event makes of a system of one connection. */
  lemma ReachAppended(queued: seq<Event>, log: seq<Id>, catalog: set<Id>, conn: Connection, serial: nat, event: Event)
    requires Reachable(Alone(queued, log, catalog, conn, serial)) && event.id !in Ids(queued) && |queued| < CAPACITY
    ensures Reachable(Alone(queued + [event], log + [event.id], catalog, conn, serial))
  {
    var s := Alone(queued, log, catalog, conn, serial);
    AppendNew(s, event);
    ReachableNext(s, Append([event]));
  }

  lemma ReachReappended()
    ensures Reachable(Reappended())
  {
    var conn := Reappended().connections[0];
    ReachAcknowledged();
    ReachAppended([], ["a"], {"a"}, conn, 3, Unsent());
    assert [] + [Unsent()] == [Unsent()] && ["a"] + ["b"] == ["a", "b"];
    ReachAppended([Unsent()], ["a", "b"], {"a"}, conn, 3, Sent());
    assert [Unsent()] + [Sent()] == [Unsent(), Sent()] && ["a", "b"] + ["a"] == ["a", "b", "a"];
  }

  /**
   There is a run to a state in which a stream with a free window has an unsent event in scope and will
   not send it, because the id that its cursor names has come back behind that event.
   */
  lemma ReappendedEventIsSkipped() returns (s: System)
    ensures Reachable(s) && 0 in s.connections && s.connections[0].mode.Streaming?
    ensures var m := s.connections[0].mode;
            && |m.state.inFlight| < m.window
            && Candidates(s.queued, m.scope, m.state.sent) != []
            && TickPage(m.state, m.scope, m.window, s.queued) == []
  {
    s := Reappended();
    ReachReappended();
    var m := s.connections[0].mode;
    SkippedPage();
  }

  lemma SkippedPage()
    ensures Candidates([Unsent(), Sent()], HostScope(), {"a"}) != []
    ensures TickPage(StreamState(Some("a"), {}, {"a"}), HostScope(), 64, [Unsent(), Sent()]) == []
  {
    var queued := [Unsent(), Sent()];
    assert queued[0] in Candidates(queued, HostScope(), {"a"});
    assert queued[1..] == [Sent()] && [Sent()][1..] == [];
    assert StartAfter([Sent()], Some("a")) == 1 && StartAfter(queued, Some("a")) == 2;
    assert queued[2..] == [];
  }
}
