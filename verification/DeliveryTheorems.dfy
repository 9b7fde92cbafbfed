/** Safety of event delivery over every run of the system, from an empty outbox and an empty catalog. */
module DeliveryTheorems {
  import opened Sequences
  import opened RuntimeOutbox
  import opened Protocol
  import opened EventStream
  import opened Delivery
  import opened DeliverySafety

  // ---------- one step ----------

  /** The old and the new ids are those that an append pushes out, followed by those it leaves. */
  lemma AppendedIds(queued: seq<Event>, events: seq<Event>)
    requires ValidQueue(queued)
    ensures var all := Ids(queued) + Ids(NewEvents(queued, events));
            && all == Ids(Evicted(queued, events)) + Ids(Appended(queued, events))
            && NoDup(all)
  {
    AppendSplits(queued, events);
    NewEventsFresh(queued, events);
    IdsConcat(queued, NewEvents(queued, events));
    IdsConcat(Evicted(queued, events), Appended(queued, events));
  }

  lemma AppendKeepsNoLoss(s: System, events: seq<Event>)
    requires NoLoss(s) && ValidQueue(s.queued)
    ensures NoLoss(Next(s, Append(events)))
  {
    var t, added, gone := Next(s, Append(events)), Ids(NewEvents(s.queued, events)), Ids(Evicted(s.queued, events));
    AppendedIds(s.queued, events);
    NoDupConcat(gone, Ids(t.queued));
    var all := Ids(s.queued) + added;
    assert forall id :: id in t.log <==> id in s.log || id in added;
    assert forall id :: id in all <==> id in Ids(s.queued) || id in added;
    assert forall id :: id in all <==> id in gone || id in Ids(t.queued);
  }

  lemma AppendKeepsInv(s: System, events: seq<Event>)
    requires Inv(s)
    ensures Inv(Next(s, Append(events)))
  {
    AppendKeepsQueue(s.queued, events);
    AppendKeepsNoLoss(s, events);
  }

  /** Taking persisted ids out of the outbox loses nothing. */
  lemma AckKeepsNoLoss(s: System, ids: seq<Id>)
    requires NoLoss(s) && ValidQueue(s.queued) && forall id :: id in ids ==> id in s.catalog
    ensures NoLoss(s.(queued := Acknowledged(s.queued, ids))) && ValidQueue(Acknowledged(s.queued, ids))
  {
    AcknowledgeKeepsQueue(s.queued, ids);
  }

  lemma WithKeepsInv(s: System, c: nat, conn: Connection, serial: nat)
    requires Inv(s) && ConnInv(s.host, s.catalog, conn)
    ensures Inv(With(s, c, conn)) && Inv(With(s.(serial := serial), c, conn))
  {
    forall d | d in With(s, c, conn).connections ensures ConnInv(s.host, s.catalog, With(s, c, conn).connections[d]) {
    }
  }

  lemma WithoutKeepsInv(s: System, c: nat)
    requires Inv(s)
    ensures Inv(Without(s, c))
  {
  }

  lemma AgentKeepsInv(s: System, c: nat)
    requires Inv(s) && Enabled(s, AgentAnswers(c))
    ensures Inv(Next(s, AgentAnswers(c)))
  {
    var conn := s.connections[c];
    assert ConnInv(s.host, s.catalog, conn);
    var after := AgentStep(s.host, s.queued, conn);
    var t := s.(queued := after.queued);
    if conn.phase.AwaitAck? {
      AckAnswerKeepsConn(s.host, s.catalog, s.queued, conn);
      AckAnswerQueue(s.host, s.catalog, s.queued, conn);
      var ids :| after.queued == Acknowledged(s.queued, ids) && forall id :: id in ids ==> id in s.catalog;
      AckKeepsNoLoss(s, ids);
    } else {
      OtherAnswerKeepsConn(s.host, s.catalog, s.queued, conn);
    }
    assert Inv(t);
    WithKeepsInv(t, c, after.connection, s.serial);
    assert Next(s, AgentAnswers(c)) == With(t, c, after.connection);
  }

  lemma IngestKeepsInv(s: System, c: nat)
    requires Inv(s) && Enabled(s, ControllerIngests(c))
    ensures Inv(Next(s, ControllerIngests(c)))
  {
    var conn := s.connections[c];
    var catalog := s.catalog + Elems(Ids(conn.phase.events));
    var next := conn.(phase := Persisted(Ids(conn.phase.events), conn.phase.streaming));
    IngestKeepsConn(s.host, s.catalog, conn);
    MoreCatalogKeepsInv(s, catalog);
    WithKeepsInv(s.(catalog := catalog), c, next, s.serial);
    assert Next(s, ControllerIngests(c)) == With(s.(catalog := catalog), c, next);
  }

  lemma MoreCatalogKeepsInv(s: System, catalog: set<Id>)
    requires Inv(s) && s.catalog <= catalog
    ensures Inv(s.(catalog := catalog))
  {
    forall c | c in s.connections ensures ConnInv(s.host, catalog, s.connections[c]) {
      MoreCatalogKeepsConn(s.host, s.catalog, catalog, s.connections[c]);
    }
  }

  lemma SubscribeKeepsInv(s: System, c: nat, after: Option<Id>, limit: nat)
    requires Inv(s) && Enabled(s, SendSubscribe(c, after, limit))
    ensures Inv(Next(s, SendSubscribe(c, after, limit)))
  {
    var conn, id := s.connections[c], FromController(s.serial);
    var request := Request(id, SubscribeEvents(after, limit));
    AskKeepsConn(s.host, s.catalog, conn, request, AwaitPage(id, []));
    WithKeepsInv(s, c, Asks(conn, request, AwaitPage(id, [])), s.serial + 1);
  }

  lemma OpenKeepsInv(s: System, c: nat, providerId: Option<string>, maxInFlight: nat)
    requires Inv(s) && Enabled(s, SendOpen(c, providerId, maxInFlight))
    ensures Inv(Next(s, SendOpen(c, providerId, maxInFlight)))
  {
    var conn, id := s.connections[c], FromController(s.serial);
    var request :=
      Request(id, OpenEventStream(None, Some(ControllerScope(s.host, providerId)), Negotiated(maxInFlight)));
    AskKeepsConn(s.host, s.catalog, conn, request, AwaitOpen(id, []));
    WithKeepsInv(s, c, Asks(conn, request, AwaitOpen(id, [])), s.serial + 1);
  }

  lemma SendAckKeepsInv(s: System, c: nat)
    requires Inv(s) && Enabled(s, SendAck(c))
    ensures Inv(Next(s, SendAck(c)))
  {
    assert ConnInv(s.host, s.catalog, s.connections[c]);
    if s.connections[c].phase.ids == [] {
      NothingToAck(s, c);
    } else {
      AskForAck(s, c);
    }
  }

  lemma NothingToAck(s: System, c: nat)
    requires Inv(s) && Enabled(s, SendAck(c)) && s.connections[c].phase.ids == []
    ensures Inv(Next(s, SendAck(c)))
  {
    var conn := s.connections[c];
    RestKeepsConn(s.host, s.catalog, conn);
    WithKeepsInv(s, c, conn.(phase := Resting(conn.phase.streaming)), s.serial);
  }

  lemma AskForAck(s: System, c: nat)
    requires Inv(s) && Enabled(s, SendAck(c)) && s.connections[c].phase.ids != []
    ensures Inv(Next(s, SendAck(c)))
  {
    var conn, id := s.connections[c], FromController(s.serial);
    AckAsked(s.host, s.catalog, conn, id);
    WithKeepsInv(s, c, Acking(conn, id), s.serial + 1);
  }

  function Acking(conn: Connection, id: RequestId): Connection
    requires conn.phase.Persisted?
  {
    Asks(conn, Request(id, AckEvents(conn.phase.ids)), AwaitAck(id, [], conn.phase.streaming))
  }

  lemma AckAsked(host: string, catalog: set<Id>, conn: Connection, id: RequestId)
    requires ConnInv(host, catalog, conn) && conn.phase.Persisted? && id.FromController?
    ensures ConnInv(host, catalog, Acking(conn, id))
  {
    AskKeepsConn(host, catalog, conn, Request(id, AckEvents(conn.phase.ids)), AwaitAck(id, [], conn.phase.streaming));
  }

  lemma TickKeepsInv(s: System, c: nat, due: bool)
    requires Inv(s) && Enabled(s, AgentTicks(c, due))
    ensures Inv(Next(s, AgentTicks(c, due)))
  {
    TickKeepsConn(s.host, s.catalog, s.queued, s.connections[c], s.serial, due);
    WithKeepsInv(s, c, TickStep(s.queued, s.connections[c], s.serial, due), s.serial + 1);
  }

  lemma ReadKeepsInv(s: System, c: nat)
    requires Inv(s) && Enabled(s, ControllerReads(c))
    ensures Inv(Next(s, ControllerReads(c))) && c in Next(s, ControllerReads(c)).connections
  {
    ReadKeepsConn(s.host, s.catalog, s.connections[c]);
    WithKeepsInv(s, c, ReadStep(s.host, s.connections[c]).value, s.serial);
  }

  lemma StepKeepsInv(s: System, step: Step)
    requires Inv(s) && Enabled(s, step)
    ensures Inv(Next(s, step))
  {
    match step
    case Append(events) => AppendKeepsInv(s, events);
    case Connect(c) =>
      NewKeepsConn(s.host, s.catalog);
      WithKeepsInv(s, c, NewConnection(), s.serial);
    case Disconnect(c) => WithoutKeepsInv(s, c);
    case Restart =>
    case SendSubscribe(c, after, limit) => SubscribeKeepsInv(s, c, after, limit);
    case SendOpen(c, providerId, maxInFlight) => OpenKeepsInv(s, c, providerId, maxInFlight);
    case SendAck(c) => SendAckKeepsInv(s, c);
    case AgentAnswers(c) => AgentKeepsInv(s, c);
    case AgentTicks(c, due) => TickKeepsInv(s, c, due);
    case ControllerReads(c) => ReadKeepsInv(s, c);
    case ControllerIngests(c) => IngestKeepsInv(s, c);
  }

  // ---------- every run ----------

  lemma {:induction false} RunKeepsInv(s: System, steps: seq<Step>)
    requires Inv(s) && Possible(s, steps)
    ensures Inv(Run(s, steps))
    decreases |steps|
  {
    if steps == [] {
    } else {
      StepKeepsInv(s, steps[0]);
      RunKeepsInv(Next(s, steps[0]), steps[1..]);
    }
  }

  ghost predicate Reachable(s: System) {
    exists host, steps :: Possible(Initial(host), steps) && s == Run(Initial(host), steps)
  }

  /** The steps are a run from `s` to `t`. */
  ghost predicate Leads(s: System, steps: seq<Step>, t: System) {
    Possible(s, steps) && Run(s, steps) == t
  }

  lemma {:induction false} LeadsOn(s: System, steps: seq<Step>, t: System, more: seq<Step>, u: System)
    requires Leads(s, steps, t) && Leads(t, more, u)
    ensures Leads(s, steps + more, u)
    decreases |steps|
  {
    if steps == [] {
      assert [] + more == more;
    } else {
      assert (steps + more)[1..] == steps[1..] + more;
      LeadsOn(Next(s, steps[0]), steps[1..], t, more, u);
    }
  }

  lemma LeadsOneStep(s: System, step: Step)
    requires Enabled(s, step)
    ensures Leads(s, [step], Next(s, step))
  {
    assert [step][1..] == [];
    assert Possible(Next(s, step), []);
  }

  lemma LeadsNext(s: System, steps: seq<Step>, t: System, step: Step)
    requires Leads(s, steps, t) && Enabled(t, step)
    ensures Leads(s, steps + [step], Next(t, step))
  {
    LeadsOneStep(t, step);
    LeadsOn(s, steps, t, [step], Next(t, step));
  }

  lemma ReachableOn(s: System, steps: seq<Step>, t: System)
    requires Reachable(s) && Leads(s, steps, t)
    ensures Reachable(t)
  {
    var host, before :| Possible(Initial(host), before) && s == Run(Initial(host), before);
    LeadsOn(Initial(host), before, s, steps, t);
  }

  lemma ReachableNext(s: System, step: Step)
    requires Reachable(s) && Enabled(s, step)
    ensures Reachable(Next(s, step))
  {
    LeadsOneStep(s, step);
    ReachableOn(s, [step], Next(s, step));
  }

  lemma ReachableInv(s: System)
    requires Reachable(s)
    ensures Inv(s)
  {
    var host, steps :| Possible(Initial(host), steps) && s == Run(Initial(host), steps);
    RunKeepsInv(Initial(host), steps);
  }

  /**
   On every open stream the ids that hold window slots are exactly those in pages the Controller has
   not finished and in acknowledgements the Agent has not handled, each once, and never more than the window.
   */
  lemma NoSlotLeaks(s: System, c: nat)
    requires Reachable(s) && c in s.connections && s.connections[c].mode.Streaming?
    ensures var conn := s.connections[c];
            && NoDup(Outstanding(conn))
            && Elems(Outstanding(conn)) == conn.mode.state.inFlight
            && |conn.mode.state.inFlight| <= conn.mode.window <= 64
            && 1 <= conn.mode.window
  {
    ReachableInv(s);
    assert ConnInv(s.host, s.catalog, s.connections[c]);
    BagIsSet(Outstanding(s.connections[c]), s.connections[c].mode.state.inFlight);
  }

  lemma BagIsSet(ids: seq<Id>, slots: set<Id>)
    requires multiset(ids) == multiset(slots)
    ensures NoDup(ids) && Elems(ids) == slots
  {
    forall id ensures id in ids <==> id in slots {
      assert id in multiset(ids) <==> id in multiset(slots);
    }
    CountedOnce(ids);
  }

  /** A stream with nothing under way has its whole window free. */
  lemma IdleStreamHasFreeWindow(s: System, c: nat)
    requires Reachable(s) && c in s.connections && s.connections[c].mode.Streaming?
    requires s.connections[c].phase.Listening? && Unread(s.connections[c]) == []
    ensures s.connections[c].mode.state.inFlight == {}
  {
    NoSlotLeaks(s, c);
    ReachableInv(s);
    var conn := s.connections[c];
    NoRequestOutstanding(conn);
    assert PageIds([]) == [];
    assert Outstanding(conn) == [];
    assert Elems(Outstanding(conn)) == {};
  }

  /**
   The Controller takes up the ids of a stream in the order the Agent sent them; none is lost, repeated or
   overtaken.
   */
  lemma PagesArriveInOrder(s: System, c: nat)
    requires Reachable(s) && c in s.connections && s.connections[c].mode.Streaming?
    ensures var conn := s.connections[c];
            && conn.mode.emitted == conn.received + PageIds(Unread(conn))
            && NoDup(conn.mode.emitted)
            && Elems(conn.mode.emitted) == conn.mode.state.sent
  {
    ReachableInv(s);
  }

  lemma ReachableWire(s: System, c: nat)
    requires Reachable(s) && c in s.connections
    ensures WireInv(s.host, s.connections[c])
  {
    ReachableInv(s);
    assert ConnInv(s.host, s.catalog, s.connections[c]);
  }

  /** The request with the id is the only one on the wire to the Agent. */
  predicate WithAgent(conn: Connection, id: RequestId) {
    |conn.toAgent| == 1 && conn.toAgent[0].requestId == id
  }

  /** The answer to the request with the id is on the wire, and is of the kind the Controller waits for. */
  ghost predicate OnTheWire(conn: Connection, id: RequestId) {
    exists frame :: frame in conn.toController && frame.requestId == id
                    && GoodAnswer(conn.mode, conn.phase, frame.payload)
  }

  /** Whoever waits is served: the request is with the Agent, or its answer is among the unread frames. */
  lemma NeverStuck(s: System, c: nat)
    requires Reachable(s) && c in s.connections && AwaitedId(s.connections[c].phase).Some?
    ensures var conn, id := s.connections[c], AwaitedId(s.connections[c].phase).value;
            || (WithAgent(conn, id) && Enabled(s, AgentAnswers(c)))
            || (OnTheWire(conn, id) && Enabled(s, ControllerReads(c)))
  {
    ReachableWire(s, c);
    WaitIsServed(s.host, s.connections[c]);
  }

  /** No frame that can arrive makes the Controller give the connection up. */
  lemma NeverGivesUp(s: System, c: nat)
    requires Reachable(s) && Enabled(s, ControllerReads(c))
    ensures c in Next(s, ControllerReads(c)).connections
  {
    ReachableInv(s);
    ReadKeepsInv(s, c);
  }

  lemma WaitIsServed(host: string, conn: Connection)
    requires WireInv(host, conn) && AwaitedId(conn.phase).Some?
    ensures WithAgent(conn, AwaitedId(conn.phase).value)
            || (OnTheWire(conn, AwaitedId(conn.phase).value) && CanRead(conn))
  {
    if conn.toAgent == [] {
      assert Responses(conn.toController)[0] in Responses(conn.toController);
    }
  }

  /** In every run an event leaves the outbox only when the catalog has it, or by an append that pushes it out. */
  lemma OnlyPersistedLeave(s: System, step: Step, id: Id)
    requires Reachable(s) && Enabled(s, step) && id in Ids(s.queued) && id !in Ids(Next(s, step).queued)
    ensures (step.AgentAnswers? && id in s.catalog) || (step.Append? && id in Ids(Evicted(s.queued, step.events)))
  {
    ReachableInv(s);
    match step
    case AgentAnswers(c) => AnswerTakesPersisted(s, c, id);
    case Append(events) =>
      AppendedIds(s.queued, events);
      assert id in Ids(s.queued) + Ids(NewEvents(s.queued, events));
    case _ =>
  }

  lemma AnswerTakesPersisted(s: System, c: nat, id: Id)
    requires Inv(s) && Enabled(s, AgentAnswers(c)) && id in Ids(s.queued) && id !in Ids(Next(s, AgentAnswers(c)).queued)
    ensures id in s.catalog
  {
    var conn := s.connections[c];
    assert ConnInv(s.host, s.catalog, conn);
    if conn.phase.AwaitAck? {
      AckAnswerQueue(s.host, s.catalog, s.queued, conn);
      var ids :| AgentStep(s.host, s.queued, conn).queued == Acknowledged(s.queued, ids)
                 && forall x :: x in ids ==> x in s.catalog;
      AcknowledgeKeepsQueue(s.queued, ids);
    } else {
      OtherAnswerKeepsConn(s.host, s.catalog, s.queued, conn);
    }
  }

  lemma StepLogGrows(s: System, step: Step)
    requires Enabled(s, step)
    ensures s.log <= Next(s, step).log
  {
  }

  lemma {:induction false} LogGrows(s: System, steps: seq<Step>)
    requires Possible(s, steps)
    ensures s.log <= Run(s, steps).log
    decreases |steps|
  {
    if steps == [] {
    } else {
      StepLogGrows(s, steps[0]);
      LogGrows(Next(s, steps[0]), steps[1..]);
    }
  }

  /** An event offered to the outbox is in the log, or was already queued and so logged before. */
  lemma AppendLogs(s: System, events: seq<Event>, e: Event)
    requires Inv(s) && e in events
    ensures e.id in Next(s, Append(events)).log
  {
    NewEventsFresh(s.queued, events);
    IdsConcat(s.queued, NewEvents(s.queued, events));
  }

  lemma {:induction false} OfferedIsLogged(s: System, steps: seq<Step>, i: nat, e: Event)
    requires Inv(s) && Possible(s, steps) && i < |steps| && steps[i].Append? && e in steps[i].events
    ensures e.id in Run(s, steps).log
    decreases |steps|
  {
    var t := Next(s, steps[0]);
    if i == 0 {
      AppendLogs(s, steps[0].events, e);
      LogGrows(t, steps[1..]);
    } else {
      StepKeepsInv(s, steps[0]);
      OfferedIsLogged(t, steps[1..], i - 1, e);
    }
  }

  /**
   Whatever the connections do, and whenever they or the processes are cut off, every event ever
   appended is still queued, is in the catalog, or was pushed out by the capacity after it was last added.
   */
  lemma NoEventLost(host: string, steps: seq<Step>)
    requires Possible(Initial(host), steps)
    ensures var s := Run(Initial(host), steps);
            forall i, e :: 0 <= i < |steps| && steps[i].Append? && e in steps[i].events ==>
                             e.id in Ids(s.queued) || e.id in s.catalog || e.id in s.evicted
    ensures var s := Run(Initial(host), steps);
            forall id :: id in s.evicted ==> id !in Ids(s.queued)
  {
    RunKeepsInv(Initial(host), steps);
    var s := Run(Initial(host), steps);
    forall i, e | 0 <= i < |steps| && steps[i].Append? && e in steps[i].events
      ensures e.id in Ids(s.queued) || e.id in s.catalog || e.id in s.evicted
    {
      OfferedIsLogged(Initial(host), steps, i, e);
    }
  }

  /**
   No step but an append pushes anything out. An append pushes out only from an outbox that it leaves full,
   and only events older than all that it keeps; an id that it adds again counts as pushed out no longer.
   */
  lemma EvictionIsOldestFirst(s: System, step: Step)
    requires Inv(s) && Enabled(s, step)
    ensures var t := Next(s, step);
            if step.Append? then
              exists gone :: && gone + t.queued == s.queued + NewEvents(s.queued, step.events)
                             && (gone != [] ==> |t.queued| == 256)
                             && forall id :: id in t.evicted <==>
                                  id in Ids(gone) || (id in s.evicted && id !in Ids(NewEvents(s.queued, step.events)))
            else t.evicted == s.evicted
  {
    if step.Append? {
      AppendSplits(s.queued, step.events);
      assert Evicted(s.queued, step.events) + Next(s, step).queued == s.queued + NewEvents(s.queued, step.events);
    }
  }
}
