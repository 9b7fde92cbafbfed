/**
 The cursor of a stream only saves work as long as its own id does not come back
 to the outbox behind an unsent event.
 */
module DeliveryCursor {
  import opened Domain
  import opened Sequences
  import opened RuntimeOutbox
  import opened EventStream
  import opened Delivery
  import opened DeliverySafety
  import opened DeliveryTheorems

  /** Wherever the cursor's event is, every event in scope up to it has been sent. */
  ghost predicate Covers(queued: seq<Event>, after: Option<Id>, scope: Option<Scope>, sent: set<Id>) {
    forall i, k :: 0 <= i <= k < |queued| && after == Some(queued[k].id) && MatchesScope(queued[i], scope) ==>
                     queued[i].id in sent
  }

  lemma {:induction false} StartAt(queued: seq<Event>, k: nat)
    requires NoDup(Ids(queued)) && k < |queued|
    ensures StartAfter(queued, Some(queued[k].id)) == k + 1
  {
    var start := StartAfter(queued, Some(queued[k].id));
    StartFound(queued, queued[k].id);
    assert Ids(queued)[start - 1] == Ids(queued)[k];
  }

  lemma {:induction false} StartFound(queued: seq<Event>, id: Id)
    ensures StartAfter(queued, Some(id)) > 0 <==> id in Ids(queued)
  {
    if queued == [] {
    } else {
      IdsTail(queued);
      StartFound(queued[1..], id);
    }
  }

  /** With distinct ids this is what the search from the cursor relies on. */
  lemma CoversExactly(queued: seq<Event>, after: Option<Id>, scope: Option<Scope>, sent: set<Id>)
    requires NoDup(Ids(queued))
    ensures Covers(queued, after, scope, sent) <==> CursorCovers(queued, after, scope, sent)
  {
    var start := StartAfter(queued, after);
    if Covers(queued, after, scope, sent) {
      assert start > 0 ==> after == Some(queued[start - 1].id);
    }
    if CursorCovers(queued, after, scope, sent) {
      forall i, k | 0 <= i <= k < |queued| && after == Some(queued[k].id) && MatchesScope(queued[i], scope)
        ensures queued[i].id in sent
      {
        StartAt(queued, k);
      }
    }
  }

  // ---------- what keeps it ----------

  lemma SuffixKeepsCovers(
    front: seq<Event>, rest: seq<Event>, after: Option<Id>, scope: Option<Scope>, sent: set<Id>)
    requires Covers(front + rest, after, scope, sent)
    ensures Covers(rest, after, scope, sent)
  {
    var queued, n := front + rest, |front|;
    forall i, k | 0 <= i <= k < |rest| && after == Some(rest[k].id) && MatchesScope(rest[i], scope)
      ensures rest[i].id in sent
    {
      assert queued[n + i] == rest[i] && queued[n + k] == rest[k];
    }
  }

  lemma HeadKeepsCovers(
    queued: seq<Event>, rest: seq<Event>, after: Option<Id>, scope: Option<Scope>, sent: set<Id>)
    requires queued != [] && Covers(queued, after, scope, sent) && Covers(rest, after, scope, sent)
    requires forall e :: e in rest ==> e in queued[1..]
    ensures Covers([queued[0]] + rest, after, scope, sent)
  {
    var now := [queued[0]] + rest;
    forall i, k | 0 <= i <= k < |now| && after == Some(now[k].id) && MatchesScope(now[i], scope)
      ensures now[i].id in sent
    {
      if i > 0 {
        assert now[i] == rest[i - 1] && now[k] == rest[k - 1];
      } else if k > 0 {
        assert now[k] == rest[k - 1] && rest[k - 1] in rest;
        var j :| 0 <= j < |queued[1..]| && queued[1..][j] == now[k];
        assert queued[j + 1] == now[k];
      }
    }
  }

  /** Leaving events out keeps the cursor's coverage. */
  lemma {:induction false} FilterKeepsCovers(
    queued: seq<Event>, keep: Event -> bool, after: Option<Id>, scope: Option<Scope>, sent: set<Id>)
    requires Covers(queued, after, scope, sent)
    ensures Covers(Filter(queued, keep), after, scope, sent)
  {
    if queued == [] {
    } else {
      assert queued == [queued[0]] + queued[1..];
      SuffixKeepsCovers([queued[0]], queued[1..], after, scope, sent);
      FilterKeepsCovers(queued[1..], keep, after, scope, sent);
      if keep(queued[0]) {
        HeadKeepsCovers(queued, Filter(queued[1..], keep), after, scope, sent);
      }
    }
  }

  /** So does appending anything but the cursor's own id. */
  lemma AppendKeepsCovers(
    queued: seq<Event>, added: seq<Event>, after: Option<Id>, scope: Option<Scope>, sent: set<Id>)
    requires Covers(queued, after, scope, sent) && (after.Some? ==> after.value !in Ids(added))
    ensures Covers(queued + added, after, scope, sent)
  {
    var now := queued + added;
    forall k | |queued| <= k < |now| ensures now[k].id in Ids(added) {
      assert Ids(added)[k - |queued|] == now[k].id;
    }
    forall i, k | 0 <= i <= k < |now| && after == Some(now[k].id) && MatchesScope(now[i], scope)
      ensures now[i].id in sent
    {
      assert now[i] == queued[i] && now[k] == queued[k];
    }
  }

  // ---------- the next page ----------

  /** With a covered cursor a page is the front of all candidates. */
  lemma CoveredPage(queued: seq<Event>, after: Option<Id>, scope: Option<Scope>, sent: set<Id>, free: nat)
    requires CursorCovers(queued, after, scope, sent) && 1 <= free <= 64
    ensures StreamPage(queued, after, scope, sent, free) == Take(Candidates(queued, scope, sent), free)
  {
    CandidatesSplit(queued, after, scope, sent);
    CoveredPageAgrees(queued, after, scope, sent, free);
    WholeOutboxPage(queued, scope, sent, free);
  }

  /** The front of all unsent events in scope, as far as the window allows. */
  function Front(queued: seq<Event>, state: StreamState, scope: Option<Scope>, window: nat): seq<Event> {
    if window <= |state.inFlight| then []
    else Take(Candidates(queued, scope, state.sent), window - |state.inFlight|)
  }

  lemma TickPageIsFront(queued: seq<Event>, state: StreamState, scope: Option<Scope>, window: nat)
    requires CursorCovers(queued, state.cursor, scope, state.sent) && window <= 64
    ensures TickPage(state, scope, window, queued) == Front(queued, state, scope, window)
  {
    if |state.inFlight| < window {
      CoveredPage(queued, state.cursor, scope, state.sent, window - |state.inFlight|);
    }
  }

  /** Only the last of the events may have the id. */
  ghost predicate OnlyLast(events: seq<Event>, id: Id) {
    forall m :: 0 <= m < |events| - 1 ==> events[m].id != id
  }

  lemma OthersThenLast(others: seq<Event>, last: seq<Event>, id: Id)
    requires |last| <= 1 && forall e :: e in others ==> e.id != id
    ensures OnlyLast(others + last, id)
  {
  }

  lemma OtherIds(front: seq<Event>, last: Event)
    requires NoDup(Ids(front + [last]))
    ensures forall e :: e in front ==> e.id != last.id
  {
    forall e | e in front ensures e.id != last.id {
      var i :| 0 <= i < |front| && front[i] == e;
      assert Ids(front + [last])[i] == e.id && Ids(front + [last])[|front|] == last.id;
    }
  }

  /** Among events with distinct ids, only the last that passes may have the id of the last. */
  lemma OnlyLastPasses(front: seq<Event>, last: Event, keep: Event -> bool)
    requires NoDup(Ids(front + [last]))
    ensures OnlyLast(Filter(front + [last], keep), last.id)
  {
    OtherIds(front, last);
    FilterConcat(front, [last], keep);
    OthersThenLast(Filter(front, keep), Filter([last], keep), last.id);
  }

  lemma TakeOfSum<T>(a: seq<T>, b: seq<T>, n: nat)
    ensures if n < |a| then Take(a + b, n) == a[..n] else a <= Take(a + b, n)
  {
  }

  /** A page that ends with the id of the last of `a` holds all of `a`. */
  lemma PageHasNoGap(a: seq<Event>, b: seq<Event>, n: nat, id: Id)
    requires LastId(Take(a + b, n)) == Some(id) && OnlyLast(a, id)
    ensures a <= Take(a + b, n)
  {
    TakeOfSum(a, b, n);
  }

  /** Sending a page moves the cursor to a place up to which everything has been sent. */
  lemma PageMovesCursor(queued: seq<Event>, scope: Option<Scope>, sent: set<Id>, n: nat, page: seq<Event>)
    requires NoDup(Ids(queued)) && page == Take(Candidates(queued, scope, sent), n) && page != []
    ensures Covers(queued, LastId(page), scope, sent + Elems(Ids(page)))
  {
    forall i, k | 0 <= i <= k < |queued| && LastId(page) == Some(queued[k].id) && MatchesScope(queued[i], scope)
      ensures queued[i].id in sent + Elems(Ids(page))
    {
      if queued[i].id !in sent {
        UnsentIsInPage(queued, scope, sent, n, i, k);
        IdMember(page, queued[i].id);
      }
    }
  }

  lemma UnsentIsInPage(queued: seq<Event>, scope: Option<Scope>, sent: set<Id>, n: nat, i: nat, k: nat)
    requires NoDup(Ids(queued)) && i <= k < |queued| && MatchesScope(queued[i], scope) && queued[i].id !in sent
    requires LastId(Take(Candidates(queued, scope, sent), n)) == Some(queued[k].id)
    ensures queued[i] in Take(Candidates(queued, scope, sent), n)
  {
    CandidatesUpTo(queued, scope, sent, k);
    OnlyLastCandidate(queued, scope, sent, k);
    var first := Candidates(queued[..k + 1], scope, sent);
    PageHasNoGap(first, Candidates(queued[k + 1..], scope, sent), n, queued[k].id);
    UnsentIsLeft(queued[..k + 1], scope, sent, i);
    InPrefix(first, Take(Candidates(queued, scope, sent), n), queued[..k + 1][i]);
  }

  lemma OnlyLastCandidate(queued: seq<Event>, scope: Option<Scope>, sent: set<Id>, k: nat)
    requires k < |queued| && NoDup(Ids(queued[..k + 1]))
    ensures OnlyLast(Candidates(queued[..k + 1], scope, sent), queued[k].id)
  {
    assert queued[..k + 1] == queued[..k] + [queued[k]];
    OnlyLastPasses(queued[..k], queued[k], (e: Event) => e.id !in sent && MatchesScope(e, scope));
  }

  lemma UnsentIsLeft(front: seq<Event>, scope: Option<Scope>, sent: set<Id>, i: nat)
    requires i < |front| && MatchesScope(front[i], scope) && front[i].id !in sent
    ensures front[i] in Candidates(front, scope, sent)
  {
  }

  lemma InPrefix<T>(a: seq<T>, b: seq<T>, x: T)
    requires a <= b && x in a
    ensures x in b
  {
    var i :| 0 <= i < |a| && a[i] == x;
    assert b[i] == x;
  }

  lemma CandidatesUpTo(queued: seq<Event>, scope: Option<Scope>, sent: set<Id>, k: nat)
    requires NoDup(Ids(queued)) && k < |queued|
    ensures NoDup(Ids(queued[..k + 1]))
    ensures Candidates(queued, scope, sent) ==
            Candidates(queued[..k + 1], scope, sent) + Candidates(queued[k + 1..], scope, sent)
  {
    var front, back := queued[..k + 1], queued[k + 1..];
    assert queued == front + back;
    IdsConcat(front, back);
    NoDupConcat(Ids(front), Ids(back));
    FilterConcat(front, back, (e: Event) => e.id !in sent && MatchesScope(e, scope));
  }

  // ---------- steps ----------

  ghost predicate CoversIn(queued: seq<Event>, m: Mode) {
    m.Streaming? ==> Covers(queued, m.state.cursor, m.scope, m.state.sent)
  }

  ghost predicate CursorInv(s: System, c: nat) {
    Inv(s) && (c in s.connections ==> CoversIn(s.queued, s.connections[c].mode))
  }

  /** The cursor's id is among what is added, and is queued then behind an unsent event in scope. */
  ghost predicate ReturnsBehind(queued: seq<Event>, added: seq<Event>, m: Mode)
    requires m.Streaming?
  {
    && m.state.cursor.Some? && m.state.cursor.value in Ids(added)
    && exists i, k :: 0 <= i < k < |queued| && queued[k].id == m.state.cursor.value
                      && MatchesScope(queued[i], m.scope) && queued[i].id !in m.state.sent
  }

  /**
   The step does not leave the cursor's own id of the stream on `c`, appended anew, behind an unsent event in
   scope.
   */
  ghost predicate CursorStays(s: System, step: Step, c: nat) {
    step.Append? && c in s.connections && s.connections[c].mode.Streaming? ==>
      !ReturnsBehind(Appended(s.queued, step.events), NewEvents(s.queued, step.events), s.connections[c].mode)
  }

  ghost predicate CursorStaysIn(s: System, steps: seq<Step>, c: nat)
    requires Possible(s, steps)
    decreases |steps|
  {
    steps == [] || (CursorStays(s, steps[0], c) && CursorStaysIn(Next(s, steps[0]), steps[1..], c))
  }

  /** There is no stream on `c`, or it has sent nothing yet. */
  predicate NothingSent(s: System, c: nat) {
    c in s.connections && s.connections[c].mode.Streaming? ==> s.connections[c].mode.emitted == []
  }

  /** The facts about an open stream that its cursor depends on. */
  lemma StreamFacts(s: System, c: nat)
    requires Inv(s) && c in s.connections && s.connections[c].mode.Streaming?
    ensures var m := s.connections[c].mode;
            && m.window <= 64 && NoDup(Ids(s.queued))
            && m.state.cursor == (if m.emitted == [] then None else Some(m.emitted[|m.emitted| - 1]))
            && Elems(m.emitted) == m.state.sent && NoDup(m.emitted)
  {
    assert ConnInv(s.host, s.catalog, s.connections[c]);
  }

  /** Appending anything but the cursor's own id keeps the cursor's coverage, whatever it pushes out. */
  lemma OtherAppendKeepsCovers(queued: seq<Event>, events: seq<Event>, m: Mode)
    requires CoversIn(queued, m) && ValidQueue(queued)
    requires m.Streaming? && m.state.cursor.Some? ==> m.state.cursor.value !in Ids(NewEvents(queued, events))
    ensures CoversIn(Appended(queued, events), m)
  {
    if m.Streaming? {
      var added := NewEvents(queued, events);
      AppendKeepsCovers(queued, added, m.state.cursor, m.scope, m.state.sent);
      AppendSplits(queued, events);
      SuffixKeepsCovers(Evicted(queued, events), Appended(queued, events), m.state.cursor, m.scope, m.state.sent);
    }
  }

  /** An append keeps it exactly when it does not leave the cursor's id, added anew, behind an unsent event in scope. */
  lemma AppendKeepsCoversExactly(queued: seq<Event>, events: seq<Event>, m: Mode)
    requires CoversIn(queued, m) && ValidQueue(queued) && m.Streaming?
    requires m.state.cursor.Some? ==> m.state.cursor.value in m.state.sent
    ensures CoversIn(Appended(queued, events), m) <==>
            !ReturnsBehind(Appended(queued, events), NewEvents(queued, events), m)
  {
    if m.state.cursor.Some? && m.state.cursor.value in Ids(NewEvents(queued, events)) {
      UncoveredIsBehind(Appended(queued, events), m);
    } else {
      OtherAppendKeepsCovers(queued, events, m);
    }
  }

  lemma AppendKeepsCursor(s: System, events: seq<Event>, c: nat)
    requires CursorInv(s, c)
    ensures CursorInv(Next(s, Append(events)), c) <==> CursorStays(s, Append(events), c)
  {
    AppendKeepsInv(s, events);
    if c in s.connections && s.connections[c].mode.Streaming? {
      StreamFacts(s, c);
      AppendKeepsCoversExactly(s.queued, events, s.connections[c].mode);
    }
  }

  /** The search from the cursor of the stream on `c` leaves no unsent event in scope out. */
  ghost predicate SkipsNothing(s: System, c: nat) {
    c in s.connections && s.connections[c].mode.Streaming? ==>
      var m := s.connections[c].mode;
      CursorCovers(s.queued, m.state.cursor, m.scope, m.state.sent)
  }

  lemma SkipsNothingExactly(s: System, c: nat)
    requires Inv(s)
    ensures CursorInv(s, c) <==> SkipsNothing(s, c)
  {
    if c in s.connections && s.connections[c].mode.Streaming? {
      var m := s.connections[c].mode;
      CoversExactly(s.queued, m.state.cursor, m.scope, m.state.sent);
    }
  }

  /**
   While the search from its cursor leaves nothing out, an append changes that for the stream on `c` exactly
   when it adds the cursor's id anew and leaves it behind an unsent event in scope.
   */
  lemma AppendEndsCoverageExactly(s: System, events: seq<Event>, c: nat)
    requires Inv(s) && SkipsNothing(s, c) && c in s.connections && s.connections[c].mode.Streaming?
    ensures SkipsNothing(Next(s, Append(events)), c) <==>
            !ReturnsBehind(Next(s, Append(events)).queued, NewEvents(s.queued, events), s.connections[c].mode)
  {
    SkipsNothingExactly(s, c);
    AppendKeepsCursor(s, events, c);
    AppendKeepsInv(s, events);
    SkipsNothingExactly(Next(s, Append(events)), c);
  }

  lemma UncoveredIsBehind(queued: seq<Event>, m: Mode)
    requires m.Streaming? && m.state.cursor.Some? && m.state.cursor.value in m.state.sent
    ensures !Covers(queued, m.state.cursor, m.scope, m.state.sent) <==>
            exists i, k :: 0 <= i < k < |queued| && queued[k].id == m.state.cursor.value
                           && MatchesScope(queued[i], m.scope) && queued[i].id !in m.state.sent
  {
    if !Covers(queued, m.state.cursor, m.scope, m.state.sent) {
      var i, k :| 0 <= i <= k < |queued| && m.state.cursor == Some(queued[k].id)
                  && MatchesScope(queued[i], m.scope) && queued[i].id !in m.state.sent;
      assert i != k;
    }
  }

  /** An answer of the Agent only shortens the outbox. */
  lemma AgentStepShrinks(host: string, catalog: set<Id>, queued: seq<Event>, conn: Connection)
    requires ConnInv(host, catalog, conn) && conn.toAgent != []
    ensures exists ids :: AgentStep(host, queued, conn).queued == Acknowledged(queued, ids)
  {
    if conn.phase.AwaitAck? {
      AckAnswerQueue(host, catalog, queued, conn);
    } else {
      NothingAcknowledged(queued);
      OtherAnswerKeepsConn(host, catalog, queued, conn);
    }
  }

  lemma NothingAcknowledged(queued: seq<Event>)
    ensures Acknowledged(queued, []) == queued
  {
    var none: seq<Id> := [];
    FilterAll(queued, (e: Event) => e.id !in none);
  }

  /**
   What an open stream has sent and where its cursor is do not change with an answer, and one opened now has
   sent nothing.
   */
  predicate SameStream(before: Mode, after: Mode) {
    after.Streaming? ==>
      if before.Streaming? then after == before.(state := before.state.(inFlight := after.state.inFlight))
      else after.emitted == []
  }

  lemma AgentStepMode(host: string, queued: seq<Event>, conn: Connection)
    requires conn.toAgent != []
    ensures SameStream(conn.mode, AgentStep(host, queued, conn).connection.mode)
  {
  }

  lemma AcknowledgedKeepsCovers(queued: seq<Event>, ids: seq<Id>, m: Mode)
    requires CoversIn(queued, m)
    ensures CoversIn(Acknowledged(queued, ids), m)
  {
    if m.Streaming? {
      FilterKeepsCovers(queued, (e: Event) => e.id !in ids, m.state.cursor, m.scope, m.state.sent);
    }
  }

  lemma AgentKeepsCursor(s: System, c: nat, d: nat)
    requires CursorInv(s, d) && Enabled(s, AgentAnswers(c))
    ensures CursorInv(Next(s, AgentAnswers(c)), d)
  {
    var t, conn := Next(s, AgentAnswers(c)), s.connections[c];
    AgentKeepsInv(s, c);
    assert ConnInv(s.host, s.catalog, conn);
    AgentStepShrinks(s.host, s.catalog, s.queued, conn);
    AgentStepMode(s.host, s.queued, conn);
    var ids :| t.queued == Acknowledged(s.queued, ids);
    if d in s.connections && t.connections[d].mode.Streaming? {
      StreamFacts(t, d);
      AcknowledgedKeepsCovers(s.queued, ids, s.connections[d].mode);
    }
  }

  lemma TickKeepsCovers(queued: seq<Event>, state: StreamState, scope: Option<Scope>, window: nat)
    requires NoDup(Ids(queued)) && Covers(queued, state.cursor, scope, state.sent) && window <= 64
    ensures var next := AfterPage(state, TickPage(state, scope, window, queued));
            Covers(queued, next.cursor, scope, next.sent)
  {
    CoversExactly(queued, state.cursor, scope, state.sent);
    TickPageIsFront(queued, state, scope, window);
    var page := TickPage(state, scope, window, queued);
    if page != [] {
      PageMovesCursor(queued, scope, state.sent, window - |state.inFlight|, page);
    }
  }

  /** A tick on one connection. */
  lemma TickKeepsCoversIn(queued: seq<Event>, conn: Connection, serial: nat, due: bool)
    requires NoDup(Ids(queued)) && conn.mode.Streaming? && conn.mode.window <= 64 && CoversIn(queued, conn.mode)
    ensures CoversIn(queued, TickStep(queued, conn, serial, due).mode)
  {
    TickKeepsCovers(queued, conn.mode.state, conn.mode.scope, conn.mode.window);
  }

  lemma TickKeepsCursor(s: System, c: nat, due: bool, d: nat)
    requires CursorInv(s, d) && Enabled(s, AgentTicks(c, due))
    ensures CursorInv(Next(s, AgentTicks(c, due)), d)
  {
    TickKeepsInv(s, c, due);
    if c == d {
      StreamFacts(s, c);
      TickKeepsCoversIn(s.queued, s.connections[c], s.serial, due);
    }
  }

  /** No other step touches the outbox, the log or what a stream has sent. */
  lemma OtherKeepsModes(s: System, step: Step)
    requires Enabled(s, step) && !step.Append? && !step.AgentAnswers? && !step.AgentTicks?
    ensures var t := Next(s, step);
            && t.log == s.log && t.queued == s.queued
            && forall c :: c in t.connections ==>
                             || t.connections[c].mode == Plain
                             || (c in s.connections && t.connections[c].mode == s.connections[c].mode)
  {
    if step.ControllerReads? {
      var after := ReadStep(s.host, s.connections[step.c]);
      assert after.Some? ==> after.value.mode == s.connections[step.c].mode;
    }
  }

  lemma StepKeepsCursor(s: System, step: Step, c: nat)
    requires CursorInv(s, c) && Enabled(s, step)
    ensures CursorInv(Next(s, step), c) <==> CursorStays(s, step, c)
  {
    match step
    case Append(events) => AppendKeepsCursor(s, events, c);
    case AgentAnswers(d) => AgentKeepsCursor(s, d, c);
    case AgentTicks(d, due) => TickKeepsCursor(s, d, due, c);
    case _ => OtherKeepsCursor(s, step, c);
  }

  lemma OtherKeepsCursor(s: System, step: Step, c: nat)
    requires CursorInv(s, c) && Enabled(s, step) && !step.Append? && !step.AgentAnswers? && !step.AgentTicks?
    ensures CursorInv(Next(s, step), c)
  {
    StepKeepsInv(s, step);
    OtherKeepsModes(s, step);
  }

  // ---------- every run ----------

  /** In no state of the run does the search from the cursor leave anything out. */
  ghost predicate NeverSkips(s: System, steps: seq<Step>, c: nat)
    requires Possible(s, steps)
    decreases |steps|
  {
    SkipsNothing(s, c) && (steps == [] || NeverSkips(Next(s, steps[0]), steps[1..], c))
  }

  lemma {:induction false} RunKeepsCursor(s: System, steps: seq<Step>, c: nat)
    requires CursorInv(s, c) && Possible(s, steps)
    ensures NeverSkips(s, steps, c) <==> CursorStaysIn(s, steps, c)
    ensures NeverSkips(s, steps, c) ==> SkipsNothing(Run(s, steps), c)
    decreases |steps|
  {
    SkipsNothingExactly(s, c);
    if steps == [] {
    } else {
      var t := Next(s, steps[0]);
      StepKeepsCursor(s, steps[0], c);
      StepKeepsInv(s, steps[0]);
      SkipsNothingExactly(t, c);
      if SkipsNothing(t, c) {
        RunKeepsCursor(t, steps[1..], c);
      } else {
        SkipsAtOnce(t, steps[1..], c);
      }
    }
  }

  lemma SkipsAtOnce(s: System, steps: seq<Step>, c: nat)
    requires Possible(s, steps) && !SkipsNothing(s, c)
    ensures !NeverSkips(s, steps, c)
  {
  }

  /** The next page of the stream is the front of all unsent events in its scope, taken from the whole outbox. */
  predicate NextPageIsFront(t: System, m: Mode)
    requires m.Streaming?
  {
    TickPage(m.state, m.scope, m.window, t.queued) == Front(t.queued, m.state, m.scope, m.window)
  }

  lemma FrontFollows(t: System, m: Mode)
    requires m.Streaming? && m.window <= 64 && CursorCovers(t.queued, m.state.cursor, m.scope, m.state.sent)
    ensures NextPageIsFront(t, m)
  {
    TickPageIsFront(t.queued, m.state, m.scope, m.window);
  }

  lemma StartCovers(s: System, c: nat)
    requires Inv(s) && NothingSent(s, c)
    ensures CursorInv(s, c)
  {
    if c in s.connections && s.connections[c].mode.Streaming? {
      StreamFacts(s, c);
    }
  }

  /**
   From a state in which the stream on `c` has sent nothing, in every run: the search from its cursor never
   leaves an unsent event in scope out exactly when no append of the run leaves the id that the cursor names,
   added anew, behind such an event. What becomes of the cursor's event otherwise, and what else is appended
   again, does not matter.
   */
  lemma CoveredExactly(s: System, steps: seq<Step>, c: nat)
    requires Reachable(s) && NothingSent(s, c) && Possible(s, steps)
    ensures NeverSkips(s, steps, c) <==> CursorStaysIn(s, steps, c)
  {
    ReachableInv(s);
    StartCovers(s, c);
    RunKeepsCursor(s, steps, c);
  }

  /**
   After every such run the stream's next page is the front of all unsent events in its scope, taken from
   the whole outbox: the cursor changes nothing.
   */
  lemma CursorChangesNothing(s: System, steps: seq<Step>, c: nat)
    requires Reachable(s) && NothingSent(s, c) && Possible(s, steps) && CursorStaysIn(s, steps, c)
    ensures var t := Run(s, steps);
            c in t.connections && t.connections[c].mode.Streaming? ==> NextPageIsFront(t, t.connections[c].mode)
  {
    ReachableInv(s);
    StartCovers(s, c);
    RunKeepsCursor(s, steps, c);
    RunKeepsInv(s, steps);
    var t := Run(s, steps);
    if c in t.connections && t.connections[c].mode.Streaming? {
      StreamFacts(t, c);
      FrontFollows(t, t.connections[c].mode);
    }
  }
}
