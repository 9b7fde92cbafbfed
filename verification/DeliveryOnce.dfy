/**
 The subscribe-once path: one subscription on a plain connection, with storing
 and acknowledging what it returns, delivers the page it asked for.
 */
module DeliveryOnce {
  import opened Domain
  import opened Sequences
  import opened RuntimeOutbox
  import opened Protocol
  import opened EventStream
  import opened Delivery
  import opened DeliverySafety
  import opened DeliveryTheorems
  import opened DeliveryCursor
  import opened DeliveryAnswers
  import opened DeliveryProgress

  // ---------- nothing is left over on a plain connection ----------

  ghost predicate NonePage(frames: seq<Frame>) {
    forall f :: f in frames ==> !IsPage(f)
  }

  /** No stream page is under way where there is no stream. */
  ghost predicate NoPages(conn: Connection) {
    conn.mode.Plain? ==> NonePage(Unrelated(conn.phase)) && NonePage(conn.pending) && NonePage(conn.toController)
  }

  ghost predicate NoPagesAnywhere(s: System) {
    forall c :: c in s.connections ==> NoPages(s.connections[c])
  }

  lemma NonePageConcat(a: seq<Frame>, b: seq<Frame>)
    requires NonePage(a) && NonePage(b)
    ensures NonePage(a + b)
  {
  }

  lemma AnswerBringsNoPage(host: string, queued: seq<Event>, conn: Connection)
    requires NoPages(conn) && conn.toAgent != []
    ensures NoPages(AgentStep(host, queued, conn).connection)
  {
  }

  lemma ReadBringsNoPage(host: string, conn: Connection)
    requires NoPages(conn) && CanRead(conn) && ReadStep(host, conn).Some?
    ensures NoPages(ReadStep(host, conn).value)
  {
    if conn.mode.Plain? {
      var rest, u := DropFrame(conn), Unrelated(conn.phase);
      assert !IsPage(NextFrame(conn)) && NonePage(rest.pending) && NonePage(rest.toController);
      NonePageConcat(u, [NextFrame(conn)]);
      NonePageConcat(rest.pending, u);
    }
  }

  lemma StepBringsNoPage(s: System, step: Step)
    requires NoPagesAnywhere(s) && Enabled(s, step)
    ensures NoPagesAnywhere(Next(s, step))
  {
    match step
    case AgentAnswers(c) => AnswerBringsNoPage(s.host, s.queued, s.connections[c]);
    case ControllerReads(c) =>
      if ReadStep(s.host, s.connections[c]).Some? {
        ReadBringsNoPage(s.host, s.connections[c]);
      }
    case _ => QuietStep(s, step);
  }

  lemma QuietStep(s: System, step: Step)
    requires NoPagesAnywhere(s) && Enabled(s, step) && !step.AgentAnswers? && !step.ControllerReads?
    ensures NoPagesAnywhere(Next(s, step))
  {
  }

  lemma {:induction false} RunBringsNoPage(s: System, steps: seq<Step>)
    requires NoPagesAnywhere(s) && Possible(s, steps)
    ensures NoPagesAnywhere(Run(s, steps))
    decreases |steps|
  {
    if steps == [] {
    } else {
      StepBringsNoPage(s, steps[0]);
      RunBringsNoPage(Next(s, steps[0]), steps[1..]);
    }
  }

  /** A Controller that has nothing under way on a plain connection has nothing left to read on it. */
  lemma FreeIsCalm(s: System, c: nat)
    requires Reachable(s) && c in s.connections && s.connections[c].phase.Free?
    ensures s.connections[c] == Calm(Plain, Free, [])
  {
    var conn := s.connections[c];
    var host, steps :| Possible(Initial(host), steps) && s == Run(Initial(host), steps);
    RunBringsNoPage(Initial(host), steps);
    ReachableInv(s);
    assert ConnInv(s.host, s.catalog, conn) && NoPages(conn);
    OnlyResponses(conn.pending);
    OnlyResponses(conn.toController);
  }

  lemma OnlyResponses(frames: seq<Frame>)
    requires Responses(frames) == [] && NonePage(frames)
    ensures frames == []
  {
    FilterAll(frames, (f: Frame) => !IsPage(f));
  }

  // ---------- one subscription ----------

  function Asking(serial: nat, after: Option<Id>, limit: nat): Connection {
    Calm(Plain, AwaitPage(FromController(serial), []), []).(
      toAgent := [Request(FromController(serial), SubscribeEvents(after, limit))])
  }

  function PageAnswer(serial: nat, page: seq<Event>): Frame {
    Envelope(FromController(serial), true, RuntimeEventPage(page, LastId(page)))
  }

  function AskSteps(c: nat, after: Option<Id>, limit: nat): seq<Step> {
    [SendSubscribe(c, after, limit), AgentAnswers(c), ControllerReads(c)]
  }

  lemma Asks(s: System, c: nat, after: Option<Id>, limit: nat)
    requires c in s.connections && s.connections[c] == Calm(Plain, Free, [])
    ensures Enabled(s, SendSubscribe(c, after, limit))
    ensures Next(s, SendSubscribe(c, after, limit)) ==
            At(s, c, Asking(s.serial, after, limit), s.queued, s.catalog, s.serial + 1)
  {
    var request := Request(FromController(s.serial), SubscribeEvents(after, limit));
    AsksOnly(s.connections[c], request, AwaitPage(FromController(s.serial), []), Asking(s.serial, after, limit));
  }

  lemma PageAnswered(host: string, queued: seq<Event>, serial: nat, after: Option<Id>, limit: nat)
    ensures AgentStep(host, queued, Asking(serial, after, limit)) ==
            Shared(queued, Calm(Plain, AwaitPage(FromController(serial), []), []).(
                             toController := [PageAnswer(serial, SubscribePage(queued, after, limit))]))
  {
    var frame := PageAnswer(serial, SubscribePage(queued, after, limit));
    assert [Request(FromController(serial), SubscribeEvents(after, limit))][1..] == [];
    assert [] + [frame] == [frame];
  }

  lemma PageTaken(host: string, serial: nat, page: seq<Event>)
    ensures var conn :=
            Calm(Plain, AwaitPage(FromController(serial), []), []).(toController := [PageAnswer(serial, page)]);
            CanRead(conn) && ReadStep(host, conn) == Some(Calm(Plain, Holding(OfHost(page, host), false), []))
  {
    assert [PageAnswer(serial, page)][1..] == [];
    var none: seq<Frame> := [];
    assert none + none == none;
  }

  /** Asking for a page and reading it. */
  lemma AskLeads(s: System, c: nat, after: Option<Id>, limit: nat)
    requires c in s.connections && s.connections[c] == Calm(Plain, Free, [])
    ensures var own := OfHost(SubscribePage(s.queued, after, limit), s.host);
            Leads(s, AskSteps(c, after, limit),
                  At(s, c, Calm(Plain, Holding(own, false), []), s.queued, s.catalog, s.serial + 1))
  {
    var page := SubscribePage(s.queued, after, limit);
    var asking, held := Asking(s.serial, after, limit), Calm(Plain, Holding(OfHost(page, s.host), false), []);
    var answered :=
      Calm(Plain, AwaitPage(FromController(s.serial), []), []).(toController := [PageAnswer(s.serial, page)]);
    Asks(s, c, after, limit);
    PageAnswered(s.host, s.queued, s.serial, after, limit);
    AnswerAt(s, c, asking, s.queued, s.catalog, s.serial + 1, answered, s.queued);
    PageTaken(s.host, s.serial, page);
    ReadAt(s, c, answered, s.queued, s.catalog, s.serial + 1, held);
    ThreeSteps(s, SendSubscribe(c, after, limit), At(s, c, asking, s.queued, s.catalog, s.serial + 1), AgentAnswers(c),
               At(s, c, answered, s.queued, s.catalog, s.serial + 1), ControllerReads(c),
               At(s, c, held, s.queued, s.catalog, s.serial + 1));
  }

  /** With nothing to store there is nothing to acknowledge. */
  lemma NothingSettles(s: System, c: nat, serial: nat)
    ensures Leads(At(s, c, Calm(Plain, Holding([], false), []), s.queued, s.catalog, serial),
                  [ControllerIngests(c), SendAck(c)],
                  At(s, c, Calm(Plain, Free, []), s.queued, s.catalog, serial))
  {
    var held, stored := Calm(Plain, Holding([], false), []), Calm(Plain, Persisted([], false), []);
    assert Ids([]) == [] && s.catalog + Elems([]) == s.catalog;
    var a, b := At(s, c, held, s.queued, s.catalog, serial), At(s, c, stored, s.queued, s.catalog, serial);
    IngestAt(s, c, held, s.queued, s.catalog, serial);
    AtAgain(s, c, stored, s.queued, s.catalog, serial, Calm(Plain, Free, []));
    LeadsOneStep(a, ControllerIngests(c));
    LeadsNext(a, [ControllerIngests(c)], b, SendAck(c));
    assert [ControllerIngests(c)] + [SendAck(c)] == [ControllerIngests(c), SendAck(c)];
  }

  /**
   From every reachable state in which the Controller has nothing under way on a plain connection, one
   subscription with the steps that follow it delivers exactly those events of the page it asks for that are
   of the Controller's host, and the connection is free again.
   */
  lemma OneSubscriptionDelivers(s: System, c: nat, after: Option<Id>, limit: nat)
    returns (steps: seq<Step>, t: System, page: seq<Event>)
    requires Reachable(s) && c in s.connections && s.connections[c].phase.Free?
    ensures Leads(s, steps, t) && NextEvents(s.queued, after, limit, page)
    ensures Delivered(s, t, set e | e in page && e.hostId == s.host)
    ensures c in t.connections && t.connections[c] == s.connections[c]
  {
    FreeIsCalm(s, c);
    page := SubscribePage(s.queued, after, limit);
    SubscribePageExactly(s.queued, after, limit);
    var own := OfHost(page, s.host);
    var held := At(s, c, Calm(Plain, Holding(own, false), []), s.queued, s.catalog, s.serial + 1);
    AskLeads(s, c, after, limit);
    if own == [] {
      t := At(s, c, Calm(Plain, Free, []), s.queued, s.catalog, s.serial + 1);
      steps := AskSteps(c, after, limit) + [ControllerIngests(c), SendAck(c)];
      NothingSettles(s, c, s.serial + 1);
      LeadsOn(s, AskSteps(c, after, limit), held, [ControllerIngests(c), SendAck(c)], t);
      NothingOfHost(page, s.host);
    } else {
      t := At(s, c, Calm(Plain, Free, []), Acknowledged(s.queued, Ids(own)), s.catalog + Elems(Ids(own)), s.serial + 2);
      steps := AskSteps(c, after, limit) + SettleSteps(c);
      Settles(s, c, Plain, own, [], s.queued, s.serial + 1);
      LeadsOn(s, AskSteps(c, after, limit), held, SettleSteps(c), t);
      OwnDelivered(s, t, page, own);
    }
  }

  lemma NothingOfHost(page: seq<Event>, host: string)
    requires OfHost(page, host) == []
    ensures (set e | e in page && e.hostId == host) == {}
  {
    assert forall e :: e in page && e.hostId == host ==> e in OfHost(page, host);
  }

  lemma OwnDelivered(s: System, t: System, page: seq<Event>, own: seq<Event>)
    requires Reachable(s) && own == OfHost(page, s.host) && own != [] && forall e :: e in page ==> e in s.queued
    requires t.queued == Acknowledged(s.queued, Ids(own)) && t.catalog == s.catalog + Elems(Ids(own))
    ensures Delivered(s, t, set e | e in page && e.hostId == s.host)
  {
    ReachableInv(s);
    RestOfQueue(s.queued, own);
    PageStored(own);
  }

  /**
   Subscribed to from the start with the largest limit, the outbox gives up everything of the Controller's
   host at once, and all of it is in the catalog.
   */
  lemma OnceDeliversAll(s: System, c: nat) returns (steps: seq<Step>, t: System)
    requires Reachable(s) && c in s.connections && s.connections[c].phase.Free?
    ensures Leads(s, steps, t) && c in t.connections && t.connections[c] == s.connections[c]
    ensures forall e :: e in t.queued <==> e in s.queued && e.hostId != s.host
    ensures forall e :: e in s.queued && e.hostId == s.host ==> e.id in t.catalog
  {
    var page;
    steps, t, page := OneSubscriptionDelivers(s, c, None, 256);
    ReachableInv(s);
    var from: nat :| AfterCursor(s.queued, None, from) && from + |page| <= |s.queued|
                     && page == s.queued[from..from + |page|]
                && |page| == if |s.queued| - from < 256 then |s.queued| - from else 256;
    assert page == s.queued;
  }

  // ---------- opening a stream ----------

  function OpenSteps(c: nat, providerId: Option<string>, maxInFlight: nat): seq<Step> {
    [SendOpen(c, providerId, maxInFlight), AgentAnswers(c), ControllerReads(c)]
  }

  /** The mode of a stream that has just been opened. */
  function Opening(host: string, providerId: Option<string>, window: nat): Mode {
    Streaming(Some(Scope(Some(host), providerId, None)), window, StreamState(None, {}, {}), [])
  }

  function OpenRequest(s: System, providerId: Option<string>, maxInFlight: nat): Request {
    Request(FromController(s.serial),
            OpenEventStream(None, Some(Scope(Some(s.host), providerId, None)), Clamp(maxInFlight, 1, 64)))
  }

  lemma OpenAsked(s: System, c: nat, providerId: Option<string>, maxInFlight: nat)
    requires c in s.connections && s.connections[c] == Calm(Plain, Free, [])
    ensures Enabled(s, SendOpen(c, providerId, maxInFlight))
    ensures Next(s, SendOpen(c, providerId, maxInFlight)) ==
            At(s, c, Calm(Plain, AwaitOpen(FromController(s.serial), []), []).(
                       toAgent := [OpenRequest(s, providerId, maxInFlight)]), s.queued, s.catalog, s.serial + 1)
  {
    var id := FromController(s.serial);
    AsksOnly(s.connections[c], OpenRequest(s, providerId, maxInFlight), AwaitOpen(id, []),
             Calm(Plain, AwaitOpen(id, []), []).(toAgent := [OpenRequest(s, providerId, maxInFlight)]));
  }

  lemma OpenAnswered(s: System, queued: seq<Event>, providerId: Option<string>, maxInFlight: nat)
    ensures var id, window := FromController(s.serial), Clamp(maxInFlight, 1, 64);
            AgentStep(s.host, queued, Calm(Plain, AwaitOpen(id, []), []).(
                                        toAgent := [OpenRequest(s, providerId, maxInFlight)])) ==
            Shared(queued, Calm(Opening(s.host, providerId, window), AwaitOpen(id, []), []).(
                             toController := [Envelope(id, true, EventStreamOpened(window))]))
  {
    var frame: Frame := Envelope(FromController(s.serial), true, EventStreamOpened(Clamp(maxInFlight, 1, 64)));
    assert [OpenRequest(s, providerId, maxInFlight)][1..] == [];
    assert [] + [frame] == [frame];
  }

  lemma OpenRead(host: string, mode: Mode, id: RequestId, window: nat)
    ensures var conn :=
            Calm(mode, AwaitOpen(id, []), []).(toController := [Envelope(id, true, EventStreamOpened(window))]);
            CanRead(conn) && ReadStep(host, conn) == Some(Calm(mode, Listening, []))
  {
    var frame: Frame := Envelope(id, true, EventStreamOpened(window));
    assert [frame][1..] == [];
    var none: seq<Frame> := [];
    assert none + none == none;
  }

  /**
   From every reachable state in which the Controller has nothing under way on a plain connection, opening a
   stream leads to an idle stream for its host and the provider asked for, with the window asked for kept
   within 1 and 64, nothing in flight and nothing sent.
   */
  lemma StreamOpens(s: System, c: nat, providerId: Option<string>, maxInFlight: nat) returns (t: System)
    requires Reachable(s) && c in s.connections && s.connections[c].phase.Free?
    ensures Leads(s, OpenSteps(c, providerId, maxInFlight), t)
    ensures IdleStream(t, c) && SkipsNothing(t, c)
    ensures var m := t.connections[c].mode;
            && m.scope == Some(Scope(Some(s.host), providerId, None))
            && m.window == (if maxInFlight < 1 then 1 else if maxInFlight > 64 then 64 else maxInFlight)
            && m.state.inFlight == {} && m.state.sent == {}
    ensures t.queued == s.queued && t.catalog == s.catalog
  {
    FreeIsCalm(s, c);
    var id, window := FromController(s.serial), Clamp(maxInFlight, 1, 64);
    var mode := Opening(s.host, providerId, window);
    var asking := Calm(Plain, AwaitOpen(id, []), []).(toAgent := [OpenRequest(s, providerId, maxInFlight)]);
    var answered := Calm(mode, AwaitOpen(id, []), []).(toController := [Envelope(id, true, EventStreamOpened(window))]);
    OpenAsked(s, c, providerId, maxInFlight);
    OpenAnswered(s, s.queued, providerId, maxInFlight);
    AnswerAt(s, c, asking, s.queued, s.catalog, s.serial + 1, answered, s.queued);
    OpenRead(s.host, mode, id, window);
    ReadAt(s, c, answered, s.queued, s.catalog, s.serial + 1, Calm(mode, Listening, []));
    t := At(s, c, Calm(mode, Listening, []), s.queued, s.catalog, s.serial + 1);
    ThreeSteps(s, SendOpen(c, providerId, maxInFlight), At(s, c, asking, s.queued, s.catalog, s.serial + 1),
               AgentAnswers(c), At(s, c, answered, s.queued, s.catalog, s.serial + 1), ControllerReads(c), t);
  }

  lemma ThreeSteps(s0: System, a: Step, s1: System, b: Step, s2: System, c: Step, s3: System)
    requires Enabled(s0, a) && Next(s0, a) == s1 && Enabled(s1, b) && Next(s1, b) == s2
    requires Enabled(s2, c) && Next(s2, c) == s3
    ensures Leads(s0, [a, b, c], s3)
  {
    LeadsOneStep(s0, a);
    LeadsNext(s0, [a], s1, b);
    LeadsNext(s0, [a] + [b], s2, c);
    assert [a, b, c] == [a] + [b] + [c];
  }
}
