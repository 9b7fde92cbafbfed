/**
 Delivery makes progress: a whole round of page, reading, storing and
 acknowledgement takes the page's events to the catalog and out of the outbox,
 and rounds repeated leave nothing that a stream has to deliver.
 */
module DeliveryProgress {
  import opened Sequences
  import opened RuntimeOutbox
  import opened Protocol
  import opened EventStream
  import opened Delivery
  import opened DeliverySafety
  import opened DeliveryTheorems
  import opened DeliveryCursor
  import opened DeliveryAnswers

  // ---------- a system that has changed at one connection ----------

  /** The system with another connection at `c`, outbox, catalog and serial. */
  function At(s: System, c: nat, conn: Connection, queued: seq<Event>, catalog: set<Id>, serial: nat): System {
    s.(queued := queued, catalog := catalog, connections := s.connections[c := conn], serial := serial)
  }

  lemma AtAgain(s: System, c: nat, x: Connection, queued: seq<Event>, catalog: set<Id>, serial: nat, y: Connection)
    ensures With(At(s, c, x, queued, catalog, serial), c, y) == At(s, c, y, queued, catalog, serial)
  {
    assert s.connections[c := x][c := y] == s.connections[c := y];
  }

  lemma AnswerAt(
    s: System, c: nat, x: Connection, queued: seq<Event>, catalog: set<Id>, serial: nat, y: Connection,
    rest: seq<Event>)
    requires x.toAgent != [] && AgentStep(s.host, queued, x) == Shared(rest, y)
    ensures var u := At(s, c, x, queued, catalog, serial);
            Enabled(u, AgentAnswers(c)) && Next(u, AgentAnswers(c)) == At(s, c, y, rest, catalog, serial)
  {
    AtAgain(s, c, x, queued, catalog, serial, y);
  }

  lemma ReadAt(
    s: System, c: nat, x: Connection, queued: seq<Event>, catalog: set<Id>, serial: nat, y: Connection)
    requires CanRead(x) && ReadStep(s.host, x) == Some(y)
    ensures var u := At(s, c, x, queued, catalog, serial);
            Enabled(u, ControllerReads(c)) && Next(u, ControllerReads(c)) == At(s, c, y, queued, catalog, serial)
  {
    AtAgain(s, c, x, queued, catalog, serial, y);
  }

  lemma IngestAt(s: System, c: nat, x: Connection, queued: seq<Event>, catalog: set<Id>, serial: nat)
    requires x.phase.Holding?
    ensures var u := At(s, c, x, queued, catalog, serial);
            var ids := Ids(x.phase.events);
            && Enabled(u, ControllerIngests(c))
            && Next(u, ControllerIngests(c)) ==
               At(s, c, x.(phase := Persisted(ids, x.phase.streaming)), queued, catalog + Elems(ids), serial)
  {
    AtAgain(s, c, x, queued, catalog, serial, x.(phase := Persisted(Ids(x.phase.events), x.phase.streaming)));
  }

  lemma AckAt(s: System, c: nat, x: Connection, queued: seq<Event>, catalog: set<Id>, serial: nat)
    requires x.phase.Persisted? && x.phase.ids != []
    ensures var u := At(s, c, x, queued, catalog, serial);
            var id := FromController(serial);
            var y := Asks(x, Request(id, AckEvents(x.phase.ids)), AwaitAck(id, [], x.phase.streaming));
            Enabled(u, SendAck(c)) && Next(u, SendAck(c)) == At(s, c, y, queued, catalog, serial + 1)
  {
    var id := FromController(serial);
    var y := Asks(x, Request(id, AckEvents(x.phase.ids)), AwaitAck(id, [], x.phase.streaming));
    AtAgain(s, c, x, queued, catalog, serial, y);
  }

  // ---------- storing and acknowledging what is held ----------

  /** A connection with quiet wires. */
  function Calm(mode: Mode, phase: Phase, received: seq<Id>): Connection {
    Connection(mode, [], [], [], phase, received)
  }

  function AckWaiting(id: RequestId, streaming: bool): Phase {
    AwaitAck(id, [], streaming)
  }

  /** The steps from holding events to being at rest again. */
  function SettleSteps(c: nat): seq<Step> {
    [ControllerIngests(c), SendAck(c), AgentAnswers(c), ControllerReads(c)]
  }

  /** The mode after an acknowledgement. */
  function Settled(mode: Mode, ids: seq<Id>): Mode {
    if mode.Plain? then mode else mode.(state := AfterAck(mode.state, ids))
  }

  lemma AckAnswered(host: string, queued: seq<Event>, mode: Mode, id: RequestId, ids: seq<Id>, received: seq<Id>)
    requires mode.Streaming? ==> forall x :: x in ids ==> x in mode.state.inFlight
    ensures var conn :=
            Calm(mode, AckWaiting(id, mode.Streaming?), received).(toAgent := [Request(id, AckEvents(ids))]);
            var rest := Acknowledged(queued, ids);
            AgentStep(host, queued, conn) ==
            Shared(rest, Calm(Settled(mode, ids), AckWaiting(id, mode.Streaming?), received).(
                           toController := [Envelope(id, true, EventsAcked(|queued| - |rest|))]))
  {
    if mode.Streaming? {
      FilterAll(ids, (x: Id) => x in mode.state.inFlight);
    }
    assert [Request(id, AckEvents(ids))][1..] == [];
    var frame: Frame := Envelope(id, true, EventsAcked(|queued| - |Acknowledged(queued, ids)|));
    assert [] + [frame] == [frame];
  }

  lemma AckRead(host: string, mode: Mode, id: RequestId, n: nat, received: seq<Id>)
    ensures var conn := Calm(mode, AckWaiting(id, mode.Streaming?), received).(
                          toController := [Envelope(id, true, EventsAcked(n))]);
            CanRead(conn) && ReadStep(host, conn) == Some(Calm(mode, Resting(mode.Streaming?), received))
  {
    var frame: Frame := Envelope(id, true, EventsAcked(n));
    assert [frame][1..] == [];
    var none: seq<Frame> := [];
    assert none + none == none;
  }

  /** From holding events to rest: they are in the catalog and out of the outbox. */
  lemma Settles(s: System, c: nat, mode: Mode, events: seq<Event>, received: seq<Id>, queued: seq<Event>, serial: nat)
    requires events != [] && (mode.Streaming? ==> forall x :: x in Ids(events) ==> x in mode.state.inFlight)
    ensures Leads(At(s, c, Calm(mode, Holding(events, mode.Streaming?), received), queued, s.catalog, serial),
                  SettleSteps(c),
                  At(s, c, Calm(Settled(mode, Ids(events)), Resting(mode.Streaming?), received),
                     Acknowledged(queued, Ids(events)), s.catalog + Elems(Ids(events)), serial + 1))
  {
    var streaming, ids, id := mode.Streaming?, Ids(events), FromController(serial);
    var catalog, rest := s.catalog + Elems(ids), Acknowledged(queued, ids);
    var held := Calm(mode, Holding(events, streaming), received);
    var stored := Calm(mode, Persisted(ids, streaming), received);
    var asking := Calm(mode, AckWaiting(id, streaming), received).(toAgent := [Request(id, AckEvents(ids))]);
    var answered := Calm(Settled(mode, ids), AckWaiting(id, streaming), received).(
                      toController := [Envelope(id, true, EventsAcked(|queued| - |rest|))]);
    var done := Calm(Settled(mode, ids), Resting(streaming), received);
    IngestAt(s, c, held, queued, s.catalog, serial);
    assert held.(phase := Persisted(ids, streaming)) == stored;
    AckAt(s, c, stored, queued, catalog, serial);
    AsksOnly(stored, Request(id, AckEvents(ids)), AckWaiting(id, streaming), asking);
    AckAnswered(s.host, queued, mode, id, ids, received);
    AnswerAt(s, c, asking, queued, catalog, serial + 1, answered, rest);
    AckRead(s.host, Settled(mode, ids), id, |queued| - |rest|, received);
    ReadAt(s, c, answered, rest, catalog, serial + 1, done);
    FourSteps(At(s, c, held, queued, s.catalog, serial), ControllerIngests(c),
              At(s, c, stored, queued, catalog, serial), SendAck(c),
              At(s, c, asking, queued, catalog, serial + 1), AgentAnswers(c),
              At(s, c, answered, rest, catalog, serial + 1), ControllerReads(c),
              At(s, c, done, rest, catalog, serial + 1));
  }

  lemma AsksOnly(conn: Connection, request: Request, phase: Phase, next: Connection)
    requires conn.toAgent == [] && next == conn.(toAgent := [request], phase := phase)
    ensures Asks(conn, request, phase) == next
  {
    assert [] + [request] == [request];
  }

  lemma FourSteps(s0: System, a: Step, s1: System, b: Step, s2: System, c: Step, s3: System, d: Step, s4: System)
    requires Enabled(s0, a) && Next(s0, a) == s1 && Enabled(s1, b) && Next(s1, b) == s2
    requires Enabled(s2, c) && Next(s2, c) == s3 && Enabled(s3, d) && Next(s3, d) == s4
    ensures Leads(s0, [a, b, c, d], s4)
  {
    LeadsOneStep(s0, a);
    LeadsNext(s0, [a], s1, b);
    LeadsNext(s0, [a] + [b], s2, c);
    LeadsNext(s0, [a] + [b] + [c], s3, d);
    assert [a, b, c, d] == [a] + [b] + [c] + [d];
  }

  // ---------- a round of a stream ----------

  /** A stream on whose connection nothing is under way. */
  predicate IdleStream(s: System, c: nat) {
    && c in s.connections && s.connections[c].mode.Streaming?
    && s.connections[c] == Calm(s.connections[c].mode, Listening, s.connections[c].received)
  }

  /** The mode after a page has been sent. */
  function Paged(m: Mode, page: seq<Event>): Mode
    requires m.Streaming?
  {
    m.(state := AfterPage(m.state, page), emitted := m.emitted + Ids(page))
  }

  function PageFrame(serial: nat, page: seq<Event>): Frame {
    Envelope(FromAgent(serial), true, EventStreamPage(page, LastId(page), false))
  }

  lemma PageTicked(s: System, c: nat, page: seq<Event>)
    requires IdleStream(s, c) && page != []
    requires var m := s.connections[c].mode; page == TickPage(m.state, m.scope, m.window, s.queued)
    ensures var conn := s.connections[c];
            && Enabled(s, AgentTicks(c, false))
            && Next(s, AgentTicks(c, false)) ==
               At(s, c,
                  Calm(Paged(conn.mode, page), Listening, conn.received).(toController := [PageFrame(s.serial, page)]),
                  s.queued, s.catalog, s.serial + 1)
  {
    assert [] + [PageFrame(s.serial, page)] == [PageFrame(s.serial, page)];
  }

  lemma PageRead(host: string, mode: Mode, received: seq<Id>, page: seq<Event>, serial: nat)
    requires forall e :: e in page ==> e.hostId == host
    ensures var conn := Calm(mode, Listening, received).(toController := [PageFrame(serial, page)]);
            CanRead(conn) && ReadStep(host, conn) == Some(Calm(mode, Holding(page, true), received + Ids(page)))
  {
    OfHostAll(page, host);
    assert [PageFrame(serial, page)][1..] == [];
  }

  function RoundSteps(c: nat): seq<Step> {
    [AgentTicks(c, false), ControllerReads(c)] + SettleSteps(c)
  }

  /** The system after a round. */
  function RoundDone(s: System, c: nat, page: seq<Event>): System
    requires IdleStream(s, c)
  {
    var conn := s.connections[c];
    At(s, c, Calm(Settled(Paged(conn.mode, page), Ids(page)), Listening, conn.received + Ids(page)),
       Acknowledged(s.queued, Ids(page)), s.catalog + Elems(Ids(page)), s.serial + 2)
  }

  /** The page that an idle stream sends next. */
  function NextPage(s: System, c: nat): seq<Event>
    requires IdleStream(s, c)
  {
    var m := s.connections[c].mode;
    TickPage(m.state, m.scope, m.window, s.queued)
  }

  /** A page of the Controller's own stream holds events of its host only. */
  lemma PageIsOfHost(s: System, c: nat)
    requires Reachable(s) && IdleStream(s, c)
    ensures forall e :: e in NextPage(s, c) ==> e.hostId == s.host && e in s.queued
    ensures forall e :: e in NextPage(s, c) ==> Wanted(s.connections[c].mode.scope, s.connections[c].mode.state.sent, e)
  {
    ReachableInv(s);
    assert ConnInv(s.host, s.catalog, s.connections[c]);
    var m := s.connections[c].mode;
    TickPageFresh(m.state, m.scope, m.window, s.queued);
  }

  lemma RoundStart(s: System, c: nat)
    requires Reachable(s) && IdleStream(s, c) && NextPage(s, c) != []
    ensures var conn, page := s.connections[c], NextPage(s, c);
            Leads(s, [AgentTicks(c, false), ControllerReads(c)],
                  At(s, c, Calm(Paged(conn.mode, page), Holding(page, true), conn.received + Ids(page)),
                     s.queued, s.catalog, s.serial + 1))
  {
    var conn, page := s.connections[c], NextPage(s, c);
    var sent := Calm(Paged(conn.mode, page), Listening, conn.received).(toController := [PageFrame(s.serial, page)]);
    PageTicked(s, c, page);
    PageIsOfHost(s, c);
    PageRead(s.host, Paged(conn.mode, page), conn.received, page, s.serial);
    ReadAt(s, c, sent, s.queued, s.catalog, s.serial + 1,
           Calm(Paged(conn.mode, page), Holding(page, true), conn.received + Ids(page)));
    LeadsOneStep(s, AgentTicks(c, false));
    LeadsNext(s, [AgentTicks(c, false)], At(s, c, sent, s.queued, s.catalog, s.serial + 1), ControllerReads(c));
    assert [AgentTicks(c, false)] + [ControllerReads(c)] == [AgentTicks(c, false), ControllerReads(c)];
  }

  /** One round of an idle stream that has something to send. */
  lemma RoundLeads(s: System, c: nat)
    requires Reachable(s) && IdleStream(s, c) && NextPage(s, c) != []
    ensures Leads(s, RoundSteps(c), RoundDone(s, c, NextPage(s, c)))
  {
    var conn, page := s.connections[c], NextPage(s, c);
    var mode, received := Paged(conn.mode, page), conn.received + Ids(page);
    RoundStart(s, c);
    Settles(s, c, mode, page, received, s.queued, s.serial + 1);
    LeadsOn(s, [AgentTicks(c, false), ControllerReads(c)],
            At(s, c, Calm(mode, Holding(page, true), received), s.queued, s.catalog, s.serial + 1),
            SettleSteps(c), RoundDone(s, c, page));
  }

  // ---------- rounds until nothing is left ----------

  /** Every step is one that a round of the stream on `c` is made of. */
  predicate OfRounds(steps: seq<Step>, c: nat) {
    forall step <- steps :: step in RoundSteps(c)
  }

  lemma RoundAppendsNothing(c: nat)
    ensures OfRounds(RoundSteps(c), c)
    ensures forall step :: step in RoundSteps(c) ==> !step.Append?
  {
  }

  /** Without appends the search from the cursor goes on skipping nothing. */
  lemma {:induction false} StillSkipsNothing(s: System, steps: seq<Step>, t: System, c: nat)
    requires Reachable(s) && SkipsNothing(s, c) && Leads(s, steps, t) && forall step <- steps :: !step.Append?
    ensures SkipsNothing(t, c)
  {
    ReachableInv(s);
    SkipsNothingExactly(s, c);
    NoAppendStays(s, steps, c);
    RunKeepsCursor(s, steps, c);
  }

  lemma {:induction false} NoAppendStays(s: System, steps: seq<Step>, c: nat)
    requires Possible(s, steps) && forall step <- steps :: !step.Append?
    ensures CursorStaysIn(s, steps, c)
    decreases |steps|
  {
    if steps == [] {
    } else {
      NoAppendStays(Next(s, steps[0]), steps[1..], c);
    }
  }

  /** While the search skips nothing, the next page of an idle stream is empty only when nothing is wanted. */
  lemma NothingToSend(s: System, c: nat)
    requires Reachable(s) && IdleStream(s, c) && SkipsNothing(s, c) && NextPage(s, c) == []
    ensures var m := s.connections[c].mode; forall e :: e in s.queued ==> !Wanted(m.scope, m.state.sent, e)
  {
    var m := s.connections[c].mode;
    IdleStreamHasFreeWindow(s, c);
    NoSlotLeaks(s, c);
    TickPageIsFront(s.queued, m.state, m.scope, m.window);
    CandidatesAreWanted(s.queued, m.scope, m.state.sent);
    assert Candidates(s.queued, m.scope, m.state.sent) == [];
    forall e | e in s.queued ensures !Wanted(m.scope, m.state.sent, e) {
      assert e in Filter(s.queued, (e: Event) => Wanted(m.scope, m.state.sent, e)) ==> false;
    }
  }

  lemma SameIdSameEvent(events: seq<Event>, x: Event, y: Event)
    requires NoDup(Ids(events)) && x in events && y in events && x.id == y.id
    ensures x == y
  {
    var i :| 0 <= i < |events| && events[i] == x;
    var j :| 0 <= j < |events| && events[j] == y;
    assert Ids(events)[i] == Ids(events)[j];
  }

  /** In a queue without repeated ids the id tells whether an event is on a page. */
  lemma OnPage(queued: seq<Event>, page: seq<Event>, e: Event)
    requires NoDup(Ids(queued)) && e in queued && forall x :: x in page ==> x in queued
    ensures e.id in Ids(page) <==> e in page
  {
    IdMember(page, e.id);
    if e.id in Ids(page) {
      var x :| x in page && x.id == e.id;
      SameIdSameEvent(queued, x, e);
    }
  }

  /** Between `s` and `t` exactly these events have gone from the outbox, and they are in the catalog. */
  ghost predicate Delivered(s: System, t: System, events: set<Event>) {
    && (forall e :: e in t.queued <==> e in s.queued && e !in events)
    && (forall e :: e in events ==> e.id in t.catalog)
    && s.catalog <= t.catalog
  }

  ghost predicate WantedIs(s: System, c: nat, events: set<Event>) {
    && c in s.connections && s.connections[c].mode.Streaming?
    && var m := s.connections[c].mode;
       forall e :: e in events <==> e in s.queued && Wanted(m.scope, m.state.sent, e)
  }

  /** After the page, the stream wants what it wanted before apart from the page. */
  ghost predicate WantedBut(queued: seq<Event>, m: Mode, n: Mode, page: seq<Event>) {
    && m.Streaming? && n.Streaming?
    && forall e :: e in queued ==>
                     (Wanted(n.scope, n.state.sent, e) <==> Wanted(m.scope, m.state.sent, e) && e !in page)
  }

  /** A round delivers its page and leaves the rest as wanted as it was. */
  lemma RoundDelivers(s: System, c: nat)
    requires Reachable(s) && IdleStream(s, c) && NextPage(s, c) != []
    ensures var page := NextPage(s, c);
            var t := RoundDone(s, c, page);
            && Delivered(s, t, Elems(page)) && |t.queued| < |s.queued|
            && WantedBut(s.queued, s.connections[c].mode, t.connections[c].mode, page)
  {
    var page := NextPage(s, c);
    ReachableInv(s);
    PageIsOfHost(s, c);
    RestOfQueue(s.queued, page);
    PageStored(page);
    WantsLess(s.queued, s.connections[c].mode, page);
  }

  lemma RestOfQueue(queued: seq<Event>, page: seq<Event>)
    requires NoDup(Ids(queued)) && page != [] && forall e :: e in page ==> e in queued
    ensures forall e :: e in Acknowledged(queued, Ids(page)) <==> e in queued && e !in page
    ensures |Acknowledged(queued, Ids(page))| < |queued|
  {
    forall e | e in queued ensures e.id in Ids(page) <==> e in page {
      OnPage(queued, page, e);
    }
    assert page[0] in page;
    FilterDrops(queued, (e: Event) => e.id !in Ids(page), page[0]);
  }

  lemma {:induction false} FilterDrops<T(!new)>(s: seq<T>, keep: T -> bool, x: T)
    requires x in s && !keep(x)
    ensures |Filter(s, keep)| < |s|
  {
    if x != s[0] {
      FilterDrops(s[1..], keep, x);
    }
  }

  lemma PageStored(page: seq<Event>)
    ensures forall e :: e in page ==> e.id in Elems(Ids(page))
  {
    forall e | e in page ensures e.id in Elems(Ids(page)) {
      IdMember(page, e.id);
    }
  }

  lemma WantsLess(queued: seq<Event>, m: Mode, page: seq<Event>)
    requires NoDup(Ids(queued)) && m.Streaming? && page != [] && forall e :: e in page ==> e in queued
    ensures WantedBut(queued, m, Settled(Paged(m, page), Ids(page)), page)
  {
    forall e | e in queued ensures e.id in Elems(Ids(page)) <==> e in page {
      OnPage(queued, page, e);
    }
  }

  /**
   From every reachable state in which a stream is idle and its cursor skips nothing, rounds of that stream
   alone lead to a state in which exactly the events that it wanted are in the catalog and out of the
   outbox, and the stream is idle again.
   */
  lemma {:induction false} StreamDrains(s: System, c: nat, events: set<Event>) returns (steps: seq<Step>, t: System)
    requires Reachable(s) && IdleStream(s, c) && SkipsNothing(s, c) && WantedIs(s, c, events)
    ensures OfRounds(steps, c) && Leads(s, steps, t)
    ensures IdleStream(t, c) && Delivered(s, t, events)
    decreases |s.queued|
  {
    if NextPage(s, c) == [] {
      NothingToSend(s, c);
      steps, t := [], s;
    } else {
      var page := NextPage(s, c);
      var next := RoundDone(s, c, page);
      RoundLeads(s, c);
      ReachableOn(s, RoundSteps(c), next);
      RoundAppendsNothing(c);
      StillSkipsNothing(s, RoundSteps(c), next, c);
      RoundDelivers(s, c);
      WantedAfterRound(s, c, events);
      var more;
      more, t := StreamDrains(next, c, events - Elems(page));
      LeadsOn(s, RoundSteps(c), next, more, t);
      steps := RoundSteps(c) + more;
      DeliveredTwice(s, next, t, Elems(page), events - Elems(page));
      assert Elems(page) + (events - Elems(page)) == events;
    }
  }

  lemma WantedAfterRound(s: System, c: nat, events: set<Event>)
    requires Reachable(s) && IdleStream(s, c) && NextPage(s, c) != [] && WantedIs(s, c, events)
    ensures WantedIs(RoundDone(s, c, NextPage(s, c)), c, events - Elems(NextPage(s, c)))
    ensures Elems(NextPage(s, c)) <= events
  {
    RoundDelivers(s, c);
    PageIsOfHost(s, c);
  }

  lemma DeliveredTwice(s: System, t: System, u: System, first: set<Event>, second: set<Event>)
    requires Delivered(s, t, first) && Delivered(t, u, second)
    ensures Delivered(s, u, first + second)
  {
  }
}
