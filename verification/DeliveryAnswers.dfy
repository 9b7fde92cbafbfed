/**
 What the Agent's steps do to the outbox and the wire, told by events, ids and
 places in the queue.
 */
module DeliveryAnswers {
  import opened Domain
  import opened Sequences
  import opened RuntimeOutbox
  import opened Protocol
  import opened EventStream
  import opened Delivery
  import opened DeliveryTheorems

  // ---------- places ----------

  /** The entries of `picked` stand at the places `at` of `s`, which rise from `from` on. */
  ghost predicate StandAt<T>(s: seq<T>, from: nat, picked: seq<T>, at: seq<nat>) {
    && |at| == |picked|
    && (forall k :: 0 <= k < |at| ==> from <= at[k] < |s| && picked[k] == s[at[k]])
    && (forall j, k :: 0 <= j < k < |at| ==> at[j] < at[k])
  }

  /** At most `limit` of the wanted entries from `from` on, none skipped before the last of them. */
  ghost predicate FirstAt<T(!new)>(
    s: seq<T>, from: nat, limit: nat, wanted: T -> bool, picked: seq<T>, at: seq<nat>)
  {
    && StandAt(s, from, picked, at)
    && |picked| <= limit
    && (forall k :: 0 <= k < |picked| ==> wanted(picked[k]))
    && (forall j :: from <= j < |s| && wanted(s[j]) && j !in at ==> |at| == limit && forall k <- at :: k < j)
  }

  /** `picked` is made of the first wanted entries of `s` from `from` on, at most `limit` of them, in order. */
  ghost predicate FirstOf<T(!new)>(s: seq<T>, from: nat, limit: nat, wanted: T -> bool, picked: seq<T>) {
    exists at :: FirstAt(s, from, limit, wanted, picked, at)
  }

  lemma StandNext<T>(s: seq<T>, from: nat, picked: seq<T>, at: seq<nat>)
    requires from < |s| && StandAt(s, from + 1, picked, at)
    ensures StandAt(s, from, [s[from]] + picked, [from] + at)
    ensures forall j :: j in [from] + at <==> j == from || j in at
  {
    var now, places := [s[from]] + picked, [from] + at;
    forall k | 0 <= k < |places| ensures from <= places[k] < |s| && now[k] == s[places[k]] {
      if k > 0 {
        assert places[k] == at[k - 1] && now[k] == picked[k - 1];
      }
    }
  }

  lemma FirstAtNext<T(!new)>(s: seq<T>, from: nat, limit: nat, wanted: T -> bool, picked: seq<T>, at: seq<nat>)
    requires from < |s| && wanted(s[from]) && FirstAt(s, from + 1, limit, wanted, picked, at)
    ensures FirstAt(s, from, limit + 1, wanted, [s[from]] + picked, [from] + at)
  {
    StandNext(s, from, picked, at);
    var now := [s[from]] + picked;
    forall k | 0 <= k < |now| ensures wanted(now[k]) {
      assert k > 0 ==> now[k] == picked[k - 1];
    }
  }

  lemma FirstAtSkip<T(!new)>(s: seq<T>, from: nat, limit: nat, wanted: T -> bool, picked: seq<T>, at: seq<nat>)
    requires from < |s| && !wanted(s[from]) && FirstAt(s, from + 1, limit, wanted, picked, at)
    ensures FirstAt(s, from, limit, wanted, picked, at)
  {
  }

  lemma FirstOfNext<T(!new)>(s: seq<T>, from: nat, limit: nat, wanted: T -> bool, picked: seq<T>)
    requires from < |s| && FirstOf(s, from + 1, limit, wanted, picked)
    ensures wanted(s[from]) ==> FirstOf(s, from, limit + 1, wanted, [s[from]] + picked)
    ensures !wanted(s[from]) ==> FirstOf(s, from, limit, wanted, picked)
  {
    var at :| FirstAt(s, from + 1, limit, wanted, picked, at);
    if wanted(s[from]) {
      FirstAtNext(s, from, limit, wanted, picked, at);
    } else {
      FirstAtSkip(s, from, limit, wanted, picked, at);
    }
  }

  lemma TakeFilterNext<T(!new)>(s: seq<T>, from: nat, limit: nat, wanted: T -> bool)
    requires from < |s|
    ensures wanted(s[from]) ==>
              Take(Filter(s[from..], wanted), limit + 1) == [s[from]] + Take(Filter(s[from + 1..], wanted), limit)
    ensures !wanted(s[from]) ==> Filter(s[from..], wanted) == Filter(s[from + 1..], wanted)
  {
    assert s[from..][0] == s[from] && s[from..][1..] == s[from + 1..];
  }

  lemma NoneOf<T(!new)>(s: seq<T>, from: nat, limit: nat, wanted: T -> bool)
    requires from == |s| || limit == 0
    ensures FirstOf(s, from, limit, wanted, [])
  {
    assert FirstAt(s, from, limit, wanted, [], []);
  }

  lemma {:induction false} FilterPicks<T(!new)>(s: seq<T>, from: nat, limit: nat, wanted: T -> bool)
    requires from <= |s|
    ensures FirstOf(s, from, limit, wanted, Take(Filter(s[from..], wanted), limit))
    decreases |s| - from
  {
    if from == |s| || limit == 0 {
      NoneOf(s, from, limit, wanted);
    } else if wanted(s[from]) {
      FilterPicks(s, from + 1, limit - 1, wanted);
      FirstOfNext(s, from, limit - 1, wanted, Take(Filter(s[from + 1..], wanted), limit - 1));
      TakeFilterNext(s, from, limit - 1, wanted);
    } else {
      FilterPicks(s, from + 1, limit, wanted);
      FirstOfNext(s, from, limit, wanted, Take(Filter(s[from + 1..], wanted), limit));
      TakeFilterNext(s, from, limit, wanted);
    }
  }

  /** Reading goes on behind the first event with the cursor's id, or starts over when there is none. */
  ghost predicate AfterCursor(queued: seq<Event>, cursor: Option<Id>, from: nat) {
    if cursor.Some? && exists e :: e in queued && e.id == cursor.value then
      && 0 < from <= |queued| && queued[from - 1].id == cursor.value
      && forall k :: 0 <= k < from - 1 ==> queued[k].id != cursor.value
    else from == 0
  }

  lemma {:induction false} StartIsAfterCursor(queued: seq<Event>, cursor: Option<Id>)
    ensures AfterCursor(queued, cursor, StartAfter(queued, cursor))
  {
    if cursor.None? || queued == [] {
    } else if queued[0].id == cursor.value {
      assert queued[0] in queued;
    } else {
      var rest := queued[1..];
      StartIsAfterCursor(rest, cursor);
      assert forall e :: e in queued <==> e == queued[0] || e in rest;
    }
  }

  // ---------- acknowledgements ----------

  /** Everything that a step on `c` leaves alone apart from the outbox. */
  ghost predicate OnlyAt(s: System, t: System, c: nat) {
    && t.host == s.host && t.log == s.log && t.evicted == s.evicted && t.catalog == s.catalog
    && c in s.connections && c in t.connections
    && (forall d :: d in t.connections <==> d in s.connections)
    && forall d :: d in s.connections && d != c ==> t.connections[d] == s.connections[d]
  }

  /** The request at the head of the wire is taken off it and answered with the payload. */
  ghost predicate Answered(before: Connection, after: Connection, payload: Payload)
    requires before.toAgent != []
  {
    && after.toAgent == before.toAgent[1..]
    && after.toController == before.toController + [Envelope(before.toAgent[0].requestId, true, payload)]
    && after.pending == before.pending && after.phase == before.phase && after.received == before.received
  }

  /** The ids that an acknowledgement on the connection takes out: those named and, on a stream, in flight on it. */
  predicate Released(conn: Connection, ids: seq<Id>, id: Id) {
    id in ids && (conn.mode.Streaming? ==> id in conn.mode.state.inFlight)
  }

  /** The stream no longer counts the acknowledged ids as in flight, and is otherwise as it was. */
  ghost predicate SlotsReleased(before: Mode, after: Mode, ids: seq<Id>) {
    match before
    case Plain => after == Plain
    case Streaming(scope, window, state, emitted) =>
      && after.Streaming? && after.scope == scope && after.window == window && after.emitted == emitted
      && after.state.cursor == state.cursor && after.state.sent == state.sent
      && forall id :: id in after.state.inFlight <==> id in state.inFlight && id !in ids
  }

  /** What is left of the outbox. */
  ghost predicate Kept(queued: seq<Event>, conn: Connection, ids: seq<Id>, rest: seq<Event>) {
    && (forall id :: id in Ids(rest) <==> id in Ids(queued) && !Released(conn, ids, id))
    && FirstOf(queued, 0, |queued|, (e: Event) => !Released(conn, ids, e.id), rest)
  }

  /**
   An acknowledgement takes exactly the released events out of the outbox and leaves the others in order;
   the answer is how many went; and a stream gets their slots back.
   */
  lemma AcknowledgementExactly(s: System, c: nat)
    requires Enabled(s, AgentAnswers(c)) && s.connections[c].toAgent[0].action.AckEvents?
    ensures var t, before := Next(s, AgentAnswers(c)), s.connections[c];
            var ids := before.toAgent[0].action.ids;
            && OnlyAt(s, t, c)
            && Kept(s.queued, before, ids, t.queued)
            && Answered(before, t.connections[c], EventsAcked(|s.queued| - |t.queued|))
            && SlotsReleased(before.mode, t.connections[c].mode, ids)
  {
    AnswerTells(s.host, s.queued, s.connections[c]);
    AcknowledgedExactly(s.queued, s.connections[c]);
  }

  lemma AnswerTells(host: string, queued: seq<Event>, conn: Connection)
    requires conn.toAgent != [] && conn.toAgent[0].action.AckEvents?
    ensures var after, ids := AgentStep(host, queued, conn), conn.toAgent[0].action.ids;
            && after.queued == Acknowledged(queued, AllowedOn(conn, ids))
            && Answered(conn, after.connection, EventsAcked(|queued| - |after.queued|))
            && SlotsReleased(conn.mode, after.connection.mode, ids)
  {
  }

  function AllowedOn(conn: Connection, ids: seq<Id>): seq<Id> {
    if conn.mode.Plain? then ids else Allowed(conn.mode.state, ids)
  }

  lemma AcknowledgedExactly(queued: seq<Event>, conn: Connection)
    requires conn.toAgent != [] && conn.toAgent[0].action.AckEvents?
    ensures var ids := conn.toAgent[0].action.ids; Kept(queued, conn, ids, Acknowledged(queued, AllowedOn(conn, ids)))
  {
    var ids := conn.toAgent[0].action.ids;
    var stays := (e: Event) => !Released(conn, ids, e.id);
    FilterCongruent(queued, (e: Event) => e.id !in AllowedOn(conn, ids), stays);
    FilterPicks(queued, 0, |queued|, stays);
    assert queued[0..] == queued;
    FilteredIds(queued, conn, ids);
  }

  lemma FilteredIds(queued: seq<Event>, conn: Connection, ids: seq<Id>)
    ensures forall id :: id in Ids(Filter(queued, (e: Event) => !Released(conn, ids, e.id))) <==>
                         id in Ids(queued) && !Released(conn, ids, id)
  {
    var rest := Filter(queued, (e: Event) => !Released(conn, ids, e.id));
    forall id ensures id in Ids(rest) <==> id in Ids(queued) && !Released(conn, ids, id) {
      IdMember(rest, id);
      IdMember(queued, id);
    }
  }

  // ---------- pages ----------

  /** A page of a plain subscription: the events right behind the cursor, at most the limit clamped to 1..256. */
  ghost predicate NextEvents(queued: seq<Event>, cursor: Option<Id>, limit: nat, page: seq<Event>) {
    exists from: nat ::
      && AfterCursor(queued, cursor, from) && from + |page| <= |queued|
      && page == queued[from..from + |page|]
      && var most := if limit < 1 then 1 else if limit > 256 then 256 else limit;
         |page| == if |queued| - from < most then |queued| - from else most
  }

  /** The id of the last event of a page. */
  ghost predicate EndsWith(page: seq<Event>, last: Option<Id>) {
    if page == [] then last == None else last == Some(page[|page| - 1].id)
  }

  /** A subscription outside a stream is answered with the events behind its cursor; a stream refuses it. */
  lemma SubscriptionExactly(s: System, c: nat)
    requires Enabled(s, AgentAnswers(c)) && s.connections[c].toAgent[0].action.SubscribeEvents?
    ensures var t, before := Next(s, AgentAnswers(c)), s.connections[c];
            var action := before.toAgent[0].action;
            && OnlyAt(s, t, c) && t.queued == s.queued && t.connections[c].mode == before.mode
            && if before.mode.Streaming? then Answered(before, t.connections[c], Refused)
               else exists page, last :: NextEvents(s.queued, action.after, action.limit, page) && EndsWith(page, last)
                                         && Answered(before, t.connections[c], RuntimeEventPage(page, last))
  {
    var t, before := Next(s, AgentAnswers(c)), s.connections[c];
    if before.mode.Plain? {
      var action := before.toAgent[0].action;
      var page := SubscribePage(s.queued, action.after, action.limit);
      SubscribePageExactly(s.queued, action.after, action.limit);
      assert EndsWith(page, LastId(page));
      assert Answered(before, t.connections[c], RuntimeEventPage(page, LastId(page)));
    }
  }

  lemma SubscribePageExactly(queued: seq<Event>, after: Option<Id>, limit: nat)
    ensures NextEvents(queued, after, limit, SubscribePage(queued, after, limit))
  {
    var from, page := StartAfter(queued, after), SubscribePage(queued, after, limit);
    StartIsAfterCursor(queued, after);
    assert page == queued[from..from + |page|];
  }

  /** The scope names a host, and not this one. */
  predicate ForAnotherHost(scope: Option<Scope>, host: string) {
    scope != None && scope.value.hostId !in {None, Some(host)}
  }

  /**
   A stream opened for another host, or on a connection that has one, is refused; else it starts with nothing
   sent.
   */
  lemma OpeningExactly(s: System, c: nat)
    requires Enabled(s, AgentAnswers(c)) && s.connections[c].toAgent[0].action.OpenEventStream?
    ensures var t, before := Next(s, AgentAnswers(c)), s.connections[c];
            var action, after := before.toAgent[0].action, t.connections[c];
            && OnlyAt(s, t, c) && t.queued == s.queued
            && if before.mode.Streaming? || ForAnotherHost(action.scope, s.host)
               then Answered(before, after, Refused) && after.mode == before.mode
               else
                 && after.mode.Streaming? && after.mode.scope == action.scope && after.mode.emitted == []
                 && after.mode.state.cursor == action.start
                 && after.mode.state.inFlight == {} && after.mode.state.sent == {}
                 && 1 <= after.mode.window <= 64
                 && (1 <= action.maxInFlight <= 64 ==> after.mode.window == action.maxInFlight)
                 && (action.maxInFlight > 64 ==> after.mode.window == 64)
                 && Answered(before, after, EventStreamOpened(after.mode.window))
  {
  }

  /** What a stream has still to send: not sent yet, and of the host, provider and project that its scope names. */
  predicate Wanted(scope: Option<Scope>, sent: set<Id>, e: Event) {
    && e.id !in sent
    && match scope
       case None => true
       case Some(Scope(host, provider, project)) =>
         && (host == None || host == Some(e.hostId))
         && (provider == None || provider == Some(e.providerId))
         && (project == None || project == e.projectId)
  }

  lemma CandidatesAreWanted(queued: seq<Event>, scope: Option<Scope>, sent: set<Id>)
    ensures Candidates(queued, scope, sent) == Filter(queued, (e: Event) => Wanted(scope, sent, e))
  {
    FilterCongruent(queued, (e: Event) => e.id !in sent && MatchesScope(e, scope),
                    (e: Event) => Wanted(scope, sent, e));
  }

  /** A page of a stream: the first wanted events behind its cursor, as many as the window has room for. */
  ghost predicate NextOfStream(queued: seq<Event>, m: Mode, page: seq<Event>)
    requires m.Streaming?
  {
    if |m.state.inFlight| >= m.window then page == []
    else
      exists from: nat ::
        && AfterCursor(queued, m.state.cursor, from)
        && FirstOf(queued, from, m.window - |m.state.inFlight|, (e: Event) => Wanted(m.scope, m.state.sent, e), page)
  }

  lemma TickPageExactly(queued: seq<Event>, m: Mode)
    requires m.Streaming? && m.window <= 64
    ensures NextOfStream(queued, m, TickPage(m.state, m.scope, m.window, queued))
  {
    if |m.state.inFlight| < m.window {
      var from, free := StartAfter(queued, m.state.cursor), m.window - |m.state.inFlight|;
      StartIsAfterCursor(queued, m.state.cursor);
      CandidatesAreWanted(queued[from..], m.scope, m.state.sent);
      FilterPicks(queued, from, free, (e: Event) => Wanted(m.scope, m.state.sent, e));
    }
  }

  /** The page's ids are in flight and sent, its last id is the cursor, and it is the last frame on the wire. */
  ghost predicate PageSent(before: Connection, after: Connection, page: seq<Event>, frameId: RequestId)
    requires before.mode.Streaming? && page != []
  {
    var last := Some(page[|page| - 1].id);
    && after.toController == before.toController + [Envelope(frameId, true, EventStreamPage(page, last, false))]
    && after.mode.Streaming?
    && after.mode == before.mode.(state := after.mode.state, emitted := before.mode.emitted + Ids(page))
    && after.mode.state.cursor == last
    && (forall id :: id in after.mode.state.inFlight <==> id in before.mode.state.inFlight || id in Ids(page))
    && (forall id :: id in after.mode.state.sent <==> id in before.mode.state.sent || id in Ids(page))
  }

  /**
   A tick sends the next page when there is one, else a heartbeat with the cursor when that is due, and else
   nothing; it changes nothing but its connection.
   */
  lemma TickExactly(s: System, c: nat, due: bool)
    requires Reachable(s) && Enabled(s, AgentTicks(c, due))
    ensures var t, before := Next(s, AgentTicks(c, due)), s.connections[c];
            var after, frameId := t.connections[c], FromAgent(s.serial);
            && OnlyAt(s, t, c) && t.queued == s.queued
            && after == before.(mode := after.mode, toController := after.toController)
            && exists page ::
                 && NextOfStream(s.queued, before.mode, page)
                 && if page != [] then PageSent(before, after, page, frameId)
                    else
                      && after.mode == before.mode
                      && after.toController == before.toController +
                           if due then [Envelope(frameId, true, EventStreamPage([], before.mode.state.cursor, true))]
                           else []
  {
    var t, before := Next(s, AgentTicks(c, due)), s.connections[c];
    var m := before.mode;
    var page := TickPage(m.state, m.scope, m.window, s.queued);
    NoSlotLeaks(s, c);
    TickPageExactly(s.queued, m);
    TickTells(s.queued, before, s.serial, due);
  }

  lemma TickTells(queued: seq<Event>, conn: Connection, serial: nat, due: bool)
    requires conn.mode.Streaming?
    ensures var page := TickPage(conn.mode.state, conn.mode.scope, conn.mode.window, queued);
            var after := TickStep(queued, conn, serial, due);
            && after == conn.(mode := after.mode, toController := after.toController)
            && if page != [] then PageSent(conn, after, page, FromAgent(serial))
               else
                 && after.mode == conn.mode
                 && after.toController == conn.toController +
                      if due then [Envelope(FromAgent(serial), true, EventStreamPage([], conn.mode.state.cursor, true))]
                      else []
  {
  }
}
