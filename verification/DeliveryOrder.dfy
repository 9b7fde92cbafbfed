/**
 The outbox is in the order of the latest appends, and a stream follows that
 order as long as no id that it has sent is appended again.
 */
module DeliveryOrder {
  import opened Domain
  import opened Sequences
  import opened RuntimeOutbox
  import opened EventStream
  import opened Delivery
  import opened DeliveryCursor
  import opened DeliverySafety
  import opened DeliveryTheorems

  /** Position of the latest append of `id`, or -1. */
  function Pos(log: seq<Id>, id: Id): (p: int)
    ensures -1 <= p < |log|
    ensures p >= 0 <==> id in log
    ensures p >= 0 ==> log[p] == id
    ensures forall k :: p < k < |log| ==> log[k] != id
  {
    if log == [] then -1
    else
      var last := |log| - 1;
      assert log == log[..last] + [log[last]];
      if log[last] == id then last else Pos(log[..last], id)
  }

  /** The latest appends of the ids are in this order. */
  ghost predicate Ordered(log: seq<Id>, ids: seq<Id>) {
    && (forall i :: 0 <= i < |ids| ==> ids[i] in log)
    && (forall i, j :: 0 <= i < j < |ids| ==> Pos(log, ids[i]) < Pos(log, ids[j]))
  }

  ghost predicate Before(log: seq<Id>, a: seq<Id>, b: seq<Id>) {
    forall x, y :: x in a && y in b ==> Pos(log, x) < Pos(log, y)
  }

  /** No unsent event in scope was appended before one already sent. */
  ghost predicate Frontier(log: seq<Id>, queued: seq<Event>, mode: Mode) {
    mode.Streaming? ==>
      Ordered(log, mode.emitted) && Before(log, mode.emitted, Ids(Candidates(queued, mode.scope, mode.state.sent)))
  }

  /** The queue is in append order, and so is what the stream on `c` sends. */
  ghost predicate StreamInv(s: System, c: nat) {
    && Inv(s)
    && Ordered(s.log, Ids(s.queued))
    && (c in s.connections ==> Frontier(s.log, s.queued, s.connections[c].mode))
  }

  /** What the step appends anew has not been sent by the stream on `c`. */
  predicate NothingResent(s: System, step: Step, c: nat) {
    step.Append? && c in s.connections && s.connections[c].mode.Streaming? ==>
      forall id <- Ids(NewEvents(s.queued, step.events)) :: id !in s.connections[c].mode.state.sent
  }

  predicate NothingResentIn(s: System, steps: seq<Step>, c: nat)
    requires Possible(s, steps)
    decreases |steps|
  {
    steps == [] || (NothingResent(s, steps[0], c) && NothingResentIn(Next(s, steps[0]), steps[1..], c))
  }

  // ---------- order ----------

  lemma {:induction false} PosExtends(log: seq<Id>, more: seq<Id>, id: Id)
    ensures id !in more ==> Pos(log + more, id) == Pos(log, id)
    ensures id in more ==> Pos(log + more, id) == |log| + Pos(more, id)
    decreases |more|
  {
    if more == [] {
      assert log + more == log;
    } else {
      var last := |more| - 1;
      assert (log + more)[..|log| + last] == log + more[..last];
      assert more == more[..last] + [more[last]];
      PosExtends(log, more[..last], id);
    }
  }

  lemma PosAt(ids: seq<Id>, k: nat)
    requires NoDup(ids) && k < |ids|
    ensures Pos(ids, ids[k]) == k
  {
    var p := Pos(ids, ids[k]);
    assert ids[k] in ids && ids[p] == ids[k];
  }

  lemma OrderedParts(log: seq<Id>, a: seq<Id>, b: seq<Id>)
    ensures Ordered(log, a + b) <==> Ordered(log, a) && Ordered(log, b) && Before(log, a, b)
  {
    var ab := a + b;
    if Ordered(log, ab) {
      forall i | 0 <= i < |a| ensures a[i] in log { assert ab[i] == a[i]; }
      forall i | 0 <= i < |b| ensures b[i] in log { assert ab[|a| + i] == b[i]; }
      forall i, j | 0 <= i < j < |a| ensures Pos(log, a[i]) < Pos(log, a[j]) { assert ab[i] == a[i] && ab[j] == a[j]; }
      forall i, j | 0 <= i < j < |b| ensures Pos(log, b[i]) < Pos(log, b[j]) {
        assert ab[|a| + i] == b[i] && ab[|a| + j] == b[j];
      }
      forall x, y | x in a && y in b ensures Pos(log, x) < Pos(log, y) {
        var i :| 0 <= i < |a| && a[i] == x;
        var j :| 0 <= j < |b| && b[j] == y;
        assert ab[i] == x && ab[|a| + j] == y;
      }
    }
    if Ordered(log, a) && Ordered(log, b) && Before(log, a, b) {
      forall i, j | 0 <= i < j < |ab| ensures Pos(log, ab[i]) < Pos(log, ab[j]) {
        if i < |a| <= j {
          assert ab[i] == a[i] && a[i] in a && ab[j] == b[j - |a|] && b[j - |a|] in b;
        }
      }
    }
  }

  /** Fewer ids behind the same first one. */
  lemma OrderedFewer(log: seq<Id>, x: Id, tail: seq<Id>, part: seq<Id>)
    requires Ordered(log, [x] + tail) && Ordered(log, part) && forall y :: y in part ==> y in tail
    ensures Ordered(log, [x] + part)
  {
    OrderedParts(log, [x], tail);
    OrderedParts(log, [x], part);
  }

  lemma {:induction false} OrderedFilter(log: seq<Id>, events: seq<Event>, keep: Event -> bool)
    requires Ordered(log, Ids(events))
    ensures Ordered(log, Ids(Filter(events, keep)))
  {
    if events == [] {
    } else {
      var head, tail := events[0], events[1..];
      assert events == [head] + tail;
      FirstId(head, tail);
      OrderedParts(log, [head.id], Ids(tail));
      OrderedFilter(log, tail, keep);
      if keep(head) {
        FirstId(head, Filter(tail, keep));
        FilteredIds(tail, keep);
        OrderedFewer(log, head.id, Ids(tail), Ids(Filter(tail, keep)));
      }
    }
  }

  lemma FirstId(head: Event, tail: seq<Event>)
    ensures Ids([head] + tail) == [head.id] + Ids(tail)
  {
  }

  lemma FilteredIds(events: seq<Event>, keep: Event -> bool)
    ensures forall id :: id in Ids(Filter(events, keep)) ==> id in Ids(events)
  {
    forall id | id in Ids(Filter(events, keep)) ensures id in Ids(events) {
      IdMember(Filter(events, keep), id);
      IdMember(events, id);
    }
  }

  lemma OrderedExtends(log: seq<Id>, more: seq<Id>, ids: seq<Id>)
    requires Ordered(log, ids) && forall id :: id in ids ==> id !in more
    ensures Ordered(log + more, ids)
  {
    forall i | 0 <= i < |ids| ensures Pos(log + more, ids[i]) == Pos(log, ids[i]) {
      assert ids[i] in ids;
      PosExtends(log, more, ids[i]);
    }
  }

  /** What is appended now comes after everything not appended now. */
  lemma NewestLast(log: seq<Id>, more: seq<Id>)
    requires NoDup(more)
    ensures Ordered(log + more, more)
    ensures forall x, y :: x !in more && y in more ==> Pos(log + more, x) < Pos(log + more, y)
  {
    forall k | 0 <= k < |more| ensures Pos(log + more, more[k]) == |log| + k {
      assert more[k] in more;
      PosExtends(log, more, more[k]);
      PosAt(more, k);
    }
    forall x, y | x !in more && y in more ensures Pos(log + more, x) < Pos(log + more, y) {
      PosExtends(log, more, x);
      var k :| 0 <= k < |more| && more[k] == y;
    }
  }

  // ---------- the cursor ----------

  lemma UnsentIsCandidate(queued: seq<Event>, scope: Option<Scope>, sent: set<Id>, i: nat)
    requires i < |queued| && queued[i].id !in sent && MatchesScope(queued[i], scope)
    ensures queued[i].id in Ids(Candidates(queued, scope, sent))
  {
    assert queued[i] in Candidates(queued, scope, sent);
    IdMember(Candidates(queued, scope, sent), queued[i].id);
  }

  /** No event up to one that has been sent is still to be sent. */
  lemma NothingUnsentBefore(log: seq<Id>, queued: seq<Event>, mode: Mode, i: nat, k: nat)
    requires mode.Streaming? && Frontier(log, queued, mode) && Ordered(log, Ids(queued))
    requires i <= k < |queued| && queued[k].id in mode.emitted && MatchesScope(queued[i], mode.scope)
    ensures queued[i].id in mode.state.sent
  {
    assert Pos(log, Ids(queued)[i]) <= Pos(log, Ids(queued)[k]);
    if queued[i].id !in mode.state.sent {
      UnsentIsCandidate(queued, mode.scope, mode.state.sent, i);
    }
  }

  /** On a stream opened without a start id the cursor never has an unsent event in scope before it. */
  lemma FrontierCovers(log: seq<Id>, queued: seq<Event>, mode: Mode)
    requires mode.Streaming? && Frontier(log, queued, mode) && Ordered(log, Ids(queued))
    requires mode.state.cursor == if mode.emitted == [] then None else Some(mode.emitted[|mode.emitted| - 1])
    ensures CursorCovers(queued, mode.state.cursor, mode.scope, mode.state.sent)
  {
    var start := StartAfter(queued, mode.state.cursor);
    if start > 0 {
      var last := mode.emitted[|mode.emitted| - 1];
      assert queued[start - 1].id == last && last in mode.emitted;
      forall i | 0 <= i < start && MatchesScope(queued[i], mode.scope) ensures queued[i].id in mode.state.sent {
        NothingUnsentBefore(log, queued, mode, i, start - 1);
      }
    }
  }

  /** Sending the front of what is left moves the frontier behind it. */
  lemma FrontierMoves(log: seq<Id>, emitted: seq<Id>, page: seq<Id>, rest: seq<Id>, later: seq<Id>)
    requires Ordered(log, emitted) && Before(log, emitted, page + rest) && Ordered(log, page + rest)
    requires forall id :: id in later ==> id in rest
    ensures Ordered(log, emitted + page) && Before(log, emitted + page, later)
  {
    OrderedParts(log, page, rest);
    assert Before(log, emitted, page) by {
      assert forall id :: id in page ==> id in page + rest;
    }
    OrderedParts(log, emitted, page);
    forall x, y | x in emitted + page && y in later ensures Pos(log, x) < Pos(log, y) {
      assert y in page + rest;
    }
  }

  lemma TickKeepsFrontier(log: seq<Id>, queued: seq<Event>, mode: Mode)
    requires mode.Streaming? && Frontier(log, queued, mode) && Ordered(log, Ids(queued)) && NoDup(Ids(queued))
             && mode.window <= 64
    requires mode.state.cursor == if mode.emitted == [] then None else Some(mode.emitted[|mode.emitted| - 1])
    ensures var page := TickPage(mode.state, mode.scope, mode.window, queued);
            var next := mode.(state := AfterPage(mode.state, page), emitted := mode.emitted + Ids(page));
            page != [] ==> Frontier(log, queued, next)
  {
    var page := TickPage(mode.state, mode.scope, mode.window, queued);
    if page != [] {
      FrontierCovers(log, queued, mode);
      TickPageIsFront(queued, mode.state, mode.scope, mode.window);
      var rest := Candidates(queued, mode.scope, mode.state.sent)[|page|..];
      assert Candidates(queued, mode.scope, mode.state.sent) == page + rest;
      FrontSent(log, queued, mode, page, rest);
    }
  }

  /** The front of the candidates has been sent. */
  lemma FrontSent(log: seq<Id>, queued: seq<Event>, mode: Mode, page: seq<Event>, rest: seq<Event>)
    requires mode.Streaming? && Frontier(log, queued, mode) && Ordered(log, Ids(queued))
    requires Candidates(queued, mode.scope, mode.state.sent) == page + rest
    ensures Ordered(log, mode.emitted + Ids(page))
    ensures Before(log, mode.emitted + Ids(page),
                   Ids(Candidates(queued, mode.scope, mode.state.sent + Elems(Ids(page)))))
  {
    CandidatesOrdered(log, queued, mode.scope, mode.state.sent);
    IdsConcat(page, rest);
    RemainingCandidates(queued, mode.scope, mode.state.sent, page, rest);
    FrontierMoves(log, mode.emitted, Ids(page), Ids(rest),
                  Ids(Candidates(queued, mode.scope, mode.state.sent + Elems(Ids(page)))));
  }

  lemma CandidatesOrdered(log: seq<Id>, queued: seq<Event>, scope: Option<Scope>, sent: set<Id>)
    requires Ordered(log, Ids(queued))
    ensures Ordered(log, Ids(Candidates(queued, scope, sent)))
  {
    OrderedFilter(log, queued, (e: Event) => e.id !in sent && MatchesScope(e, scope));
  }

  /** After a page the candidates are among those the page left over. */
  lemma RemainingCandidates(queued: seq<Event>, scope: Option<Scope>, sent: set<Id>, page: seq<Event>, rest: seq<Event>)
    requires Candidates(queued, scope, sent) == page + rest
    ensures forall id :: id in Ids(Candidates(queued, scope, sent + Elems(Ids(page)))) ==> id in Ids(rest)
  {
    var later := Candidates(queued, scope, sent + Elems(Ids(page)));
    forall id | id in Ids(later) ensures id in Ids(rest) {
      IdMember(later, id);
      var e :| e in later && e.id == id;
      assert e in page + rest;
      IdMember(page, id);
      IdMember(rest, id);
    }
  }

  lemma FewerCandidates(log: seq<Id>, big: seq<Event>, small: seq<Event>, mode: Mode)
    requires Frontier(log, big, mode) && forall e :: e in small ==> e in big
    ensures Frontier(log, small, mode)
  {
    if mode.Streaming? {
      var a, b := Candidates(small, mode.scope, mode.state.sent), Candidates(big, mode.scope, mode.state.sent);
      forall id | id in Ids(a) ensures id in Ids(b) {
        IdMember(a, id);
        var e :| e in a && e.id == id;
        assert e in b;
        IdMember(b, id);
      }
    }
  }

  lemma AppendKeepsFrontier(log: seq<Id>, queued: seq<Event>, added: seq<Event>, mode: Mode)
    requires Frontier(log, queued, mode) && NoDup(Ids(added))
    requires mode.Streaming? ==> forall id :: id in mode.emitted ==> id !in Ids(added)
    requires forall id :: id in Ids(queued) ==> id !in Ids(added)
    ensures Frontier(log + Ids(added), queued + added, mode)
  {
    if mode.Streaming? {
      var more := Ids(added);
      OrderedExtends(log, more, mode.emitted);
      NewestLast(log, more);
      var earlier, now :=
        Candidates(queued, mode.scope, mode.state.sent), Candidates(queued + added, mode.scope, mode.state.sent);
      forall x, y | x in mode.emitted && y in Ids(now) ensures Pos(log + more, x) < Pos(log + more, y) {
        IdMember(now, y);
        var e :| e in now && e.id == y;
        if e in queued {
          IdMember(queued, y);
          assert e in earlier;
          IdMember(earlier, y);
          PosExtends(log, more, x);
          PosExtends(log, more, y);
        } else {
          IdMember(added, y);
        }
      }
    }
  }

  // ---------- steps and runs ----------

  /** An append keeps the queue in append order, whatever it appends again. */
  lemma AppendKeepsOrder(s: System, events: seq<Event>)
    requires Inv(s) && Ordered(s.log, Ids(s.queued))
    ensures Ordered(Next(s, Append(events)).log, Ids(Next(s, Append(events)).queued))
  {
    var t, added := Next(s, Append(events)), NewEvents(s.queued, events);
    AddedIds(s.queued, events);
    OrderedExtends(s.log, Ids(added), Ids(s.queued));
    NewestLast(s.log, Ids(added));
    OrderedParts(t.log, Ids(s.queued), Ids(added));
    IdsConcat(s.queued, added);
    AppendSplits(s.queued, events);
    IdsConcat(Evicted(s.queued, events), t.queued);
    OrderedParts(t.log, Ids(Evicted(s.queued, events)), Ids(t.queued));
  }

  lemma AppendKeepsStream(s: System, events: seq<Event>, c: nat)
    requires StreamInv(s, c) && NothingResent(s, Append(events), c)
    ensures StreamInv(Next(s, Append(events)), c)
  {
    var t, added := Next(s, Append(events)), NewEvents(s.queued, events);
    AppendKeepsInv(s, events);
    AppendKeepsOrder(s, events);
    if c in t.connections {
      assert ConnInv(s.host, s.catalog, s.connections[c]);
      AddedIds(s.queued, events);
      AppendSplits(s.queued, events);
      AppendKeepsFrontier(s.log, s.queued, added, s.connections[c].mode);
      FewerCandidates(t.log, s.queued + added, t.queued, s.connections[c].mode);
    }
  }

  lemma AddedIds(queued: seq<Event>, events: seq<Event>)
    requires NoDup(Ids(queued))
    ensures NoDup(Ids(NewEvents(queued, events)))
    ensures forall id :: id in Ids(queued) ==> id !in Ids(NewEvents(queued, events))
  {
    NewEventsFresh(queued, events);
    IdsConcat(queued, NewEvents(queued, events));
    NoDupConcat(Ids(queued), Ids(NewEvents(queued, events)));
  }

  lemma ShorterQueue(log: seq<Id>, queued: seq<Event>, rest: seq<Event>, before: Mode, after: Mode)
    requires Frontier(log, queued, before) && forall e :: e in rest ==> e in queued
    requires SameStream(before, after)
    ensures Frontier(log, rest, after)
  {
    FewerCandidates(log, queued, rest, before);
  }

  lemma AgentKeepsStream(s: System, c: nat, d: nat)
    requires StreamInv(s, d) && Enabled(s, AgentAnswers(c))
    ensures StreamInv(Next(s, AgentAnswers(c)), d)
  {
    var t, conn := Next(s, AgentAnswers(c)), s.connections[c];
    AgentKeepsInv(s, c);
    AgentKeepsOrder(s, c);
    assert ConnInv(s.host, s.catalog, conn);
    AgentStepShrinks(s.host, s.catalog, s.queued, conn);
    AgentStepMode(s.host, s.queued, conn);
    var ids :| t.queued == Acknowledged(s.queued, ids);
    if d in s.connections {
      ShorterQueue(s.log, s.queued, t.queued, s.connections[d].mode, t.connections[d].mode);
    }
  }

  lemma TickKeepsStream(s: System, c: nat, due: bool, d: nat)
    requires StreamInv(s, d) && Enabled(s, AgentTicks(c, due))
    ensures StreamInv(Next(s, AgentTicks(c, due)), d)
  {
    TickKeepsInv(s, c, due);
    var conn := s.connections[c];
    assert ConnInv(s.host, s.catalog, conn);
    if c == d {
      TickKeepsFrontier(s.log, s.queued, conn.mode);
    }
  }

  lemma StepKeepsStream(s: System, step: Step, c: nat)
    requires StreamInv(s, c) && Enabled(s, step) && NothingResent(s, step, c)
    ensures StreamInv(Next(s, step), c)
  {
    match step
    case Append(events) => AppendKeepsStream(s, events, c);
    case AgentAnswers(d) => AgentKeepsStream(s, d, c);
    case AgentTicks(d, due) => TickKeepsStream(s, d, due, c);
    case _ => OtherKeepsStream(s, step, c);
  }

  /** No other step touches the outbox, the log or what a stream has sent. */
  lemma OtherKeepsStream(s: System, step: Step, c: nat)
    requires StreamInv(s, c) && Enabled(s, step) && !step.Append? && !step.AgentAnswers? && !step.AgentTicks?
    ensures StreamInv(Next(s, step), c)
  {
    StepKeepsInv(s, step);
    OtherKeepsModes(s, step);
  }

  lemma {:induction false} RunKeepsStream(s: System, steps: seq<Step>, c: nat)
    requires StreamInv(s, c) && Possible(s, steps) && NothingResentIn(s, steps, c)
    ensures StreamInv(Run(s, steps), c)
    decreases |steps|
  {
    if steps == [] {
    } else {
      StepKeepsStream(s, steps[0], c);
      RunKeepsStream(Next(s, steps[0]), steps[1..], c);
    }
  }

  lemma AgentKeepsOrder(s: System, c: nat)
    requires Inv(s) && Ordered(s.log, Ids(s.queued)) && Enabled(s, AgentAnswers(c))
    ensures Ordered(s.log, Ids(Next(s, AgentAnswers(c)).queued))
  {
    assert ConnInv(s.host, s.catalog, s.connections[c]);
    AgentStepShrinks(s.host, s.catalog, s.queued, s.connections[c]);
    var ids :| AgentStep(s.host, s.queued, s.connections[c]).queued == Acknowledged(s.queued, ids);
    OrderedFilter(s.log, s.queued, (e: Event) => e.id !in ids);
  }

  /** The queue's order needs no condition. */
  lemma StepKeepsOrder(s: System, step: Step)
    requires Inv(s) && Ordered(s.log, Ids(s.queued)) && Enabled(s, step)
    ensures Ordered(Next(s, step).log, Ids(Next(s, step).queued))
  {
    match step
    case Append(events) => AppendKeepsOrder(s, events);
    case AgentAnswers(c) => AgentKeepsOrder(s, c);
    case AgentTicks(_, _) =>
    case _ => OtherKeepsModes(s, step);
  }

  lemma {:induction false} RunKeepsOrder(s: System, steps: seq<Step>)
    requires Inv(s) && Ordered(s.log, Ids(s.queued)) && Possible(s, steps)
    ensures Ordered(Run(s, steps).log, Ids(Run(s, steps).queued))
    decreases |steps|
  {
    if steps == [] {
    } else {
      StepKeepsInv(s, steps[0]);
      StepKeepsOrder(s, steps[0]);
      RunKeepsOrder(Next(s, steps[0]), steps[1..]);
    }
  }

  /** In every run the outbox is in append order. */
  lemma QueueInAppendOrder(s: System)
    requires Reachable(s)
    ensures Ordered(s.log, Ids(s.queued))
  {
    var host, steps :| Possible(Initial(host), steps) && s == Run(Initial(host), steps);
    RunKeepsOrder(Initial(host), steps);
  }

  lemma StreamFollows(s: System, steps: seq<Step>, c: nat)
    requires Reachable(s) && NothingSent(s, c) && Possible(s, steps) && NothingResentIn(s, steps, c)
    ensures StreamInv(Run(s, steps), c)
  {
    ReachableInv(s);
    QueueInAppendOrder(s);
    RunKeepsStream(s, steps, c);
  }

  /**
   From a state in which the stream on `c` has sent nothing, in every run in which no id that it has sent
   is appended anew, it sends ids in the order of their latest appends, and never one twice.
   */
  lemma EmittedInAppendOrder(s: System, steps: seq<Step>, c: nat)
    requires Reachable(s) && NothingSent(s, c) && Possible(s, steps) && NothingResentIn(s, steps, c)
    ensures var t := Run(s, steps);
            c in t.connections && t.connections[c].mode.Streaming? ==>
              Ordered(t.log, t.connections[c].mode.emitted) && NoDup(t.connections[c].mode.emitted)
  {
    StreamFollows(s, steps, c);
    var t := Run(s, steps);
    if c in t.connections && t.connections[c].mode.Streaming? {
      StreamFacts(t, c);
    }
  }
}
