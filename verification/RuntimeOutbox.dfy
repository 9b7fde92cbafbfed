/**
 The Agent's durable outbox of runtime events: a bounded list without repeated
 event ids, from which pages are read and acknowledged events are removed.
 */
module RuntimeOutbox {
  import opened Domain
  import opened Sequences

  type Id = string

  /** `projectId` stands for the `project_id` string read out of the event's JSON payload, if it has one. */
  datatype Event = Event(id: Id, hostId: string, providerId: string, projectId: Option<string>, payload: string)

  const CAPACITY: nat := 256

  function Ids(events: seq<Event>): (r: seq<Id>)
    ensures |r| == |events|
    ensures forall i :: 0 <= i < |r| ==> r[i] == events[i].id
  {
    Map(events, (e: Event) => e.id)
  }

  predicate MatchesScope(event: Event, scope: Option<Scope>) {
    match scope
    case None => true
    case Some(s) =>
      && (s.hostId.Some? ==> s.hostId.value == event.hostId)
      && (s.providerId.Some? ==> s.providerId.value == event.providerId)
      && (s.projectId.Some? ==> event.projectId == s.projectId)
  }

  /** The events of `events` that an append really adds: ids not queued yet, each once. */
  function NewEvents(queued: seq<Event>, events: seq<Event>): seq<Event>
    decreases |events|
  {
    if events == [] then []
    else if events[0].id in Ids(queued) then NewEvents(queued, events[1..])
    else [events[0]] + NewEvents(queued + [events[0]], events[1..])
  }

  /** The list before it is cut back to its capacity. */
  function Enqueued(queued: seq<Event>, events: seq<Event>): seq<Event> {
    queued + NewEvents(queued, events)
  }

  function Appended(queued: seq<Event>, events: seq<Event>): seq<Event> {
    if events == [] then queued else Newest(Enqueued(queued, events), CAPACITY)
  }

  /** What an append drops from the front because of the capacity. */
  function Evicted(queued: seq<Event>, events: seq<Event>): seq<Event> {
    if events == [] || |Enqueued(queued, events)| <= CAPACITY then []
    else Enqueued(queued, events)[..|Enqueued(queued, events)| - CAPACITY]
  }

  function Acknowledged(queued: seq<Event>, ids: seq<Id>): seq<Event> {
    Filter(queued, (e: Event) => e.id !in ids)
  }

  /** One past the first event with the given id; 0 when there is no id or no such event. */
  function StartAfter(queued: seq<Event>, after: Option<Id>): (start: nat)
    ensures start <= |queued|
    ensures start > 0 ==> after == Some(queued[start - 1].id)
  {
    if after.None? || queued == [] then 0
    else if queued[0].id == after.value then 1
    else
      var rest := StartAfter(queued[1..], after);
      if rest == 0 then 0 else rest + 1
  }

  /** The unsent events in scope, in queue order. */
  function Candidates(queued: seq<Event>, scope: Option<Scope>, sent: set<Id>): seq<Event> {
    Filter(queued, (e: Event) => e.id !in sent && MatchesScope(e, scope))
  }

  function StreamPage(
    queued: seq<Event>, after: Option<Id>, scope: Option<Scope>, sent: set<Id>, limit: nat): seq<Event>
  {
    Take(Candidates(queued[StartAfter(queued, after)..], scope, sent), Clamp(limit, 1, 64))
  }

  function SubscribePage(queued: seq<Event>, after: Option<Id>, limit: nat): seq<Event> {
    Take(queued[StartAfter(queued, after)..], Clamp(limit, 1, 256))
  }

  function LastId(events: seq<Event>): Option<Id> {
    if events == [] then None else Some(events[|events| - 1].id)
  }

  /** The outbox as the Agent keeps it: a missing file reads as an empty list. */
  class Outbox {
    var queued: seq<Event>

    constructor ()
      ensures queued == []
    {
      queued := [];
    }

    method Append(events: seq<Event>)
      modifies this
      ensures queued == Appended(old(queued), events)
    {
      if events == [] {
        return;
      }
      var buffer := queued;
      for i := 0 to |events|
        invariant Enqueued(buffer, events[i..]) == Enqueued(queued, events)
        invariant queued == old(queued)
      {
        assert events[i..][1..] == events[i + 1..];
        if events[i].id !in Ids(buffer) {
          assert buffer + NewEvents(buffer, events[i..]) ==
                 (buffer + [events[i]]) + NewEvents(buffer + [events[i]], events[i + 1..]);
          buffer := buffer + [events[i]];
        }
      }
      if |buffer| > CAPACITY {
        buffer := buffer[|buffer| - CAPACITY..];
      }
      queued := buffer;
    }

    method Acknowledge(ids: seq<Id>) returns (removed: nat)
      modifies this
      ensures queued == Acknowledged(old(queued), ids)
      ensures removed == |old(queued)| - |queued|
    {
      var kept: seq<Event> := [];
      if ids == [] {
        FilterAll(queued, (e: Event) => e.id !in ids);
        return 0;
      }
      for i := 0 to |queued|
        invariant queued == old(queued)
        invariant kept == Acknowledged(queued[..i], ids)
      {
        assert queued[..i + 1] == queued[..i] + [queued[i]];
        FilterConcat(queued[..i], [queued[i]], (e: Event) => e.id !in ids);
        if queued[i].id !in ids {
          kept := kept + [queued[i]];
        }
      }
      assert queued[..|queued|] == queued;
      if |kept| == |queued| {
        FilterFull(queued, (e: Event) => e.id !in ids);
        return 0;
      }
      removed := |queued| - |kept|;
      queued := kept;
    }
  }

  lemma {:induction false} FilterFull<T(!new)>(s: seq<T>, keep: T -> bool)
    requires |Filter(s, keep)| == |s|
    ensures Filter(s, keep) == s
  {
    if s == [] {
    } else {
      FilterFull(s[1..], keep);
    }
  }

  ghost predicate ValidQueue(queued: seq<Event>) {
    NoDup(Ids(queued)) && |queued| <= CAPACITY
  }

  /** An append goes through its events one by one. */
  lemma NewEventsStep(queued: seq<Event>, events: seq<Event>)
    requires events != [] && events[0].id !in Ids(queued)
    ensures var q := queued + [events[0]];
            && NewEvents(queued, events) == [events[0]] + NewEvents(q, events[1..])
            && Enqueued(queued, events) == Enqueued(q, events[1..])
            && Ids(q) == Ids(queued) + [events[0].id]
  {
    Associative(queued, [events[0]], NewEvents(queued + [events[0]], events[1..]));
    IdsConcat(queued, [events[0]]);
  }

  lemma {:induction false} EnqueuedDistinct(queued: seq<Event>, events: seq<Event>)
    requires NoDup(Ids(queued))
    ensures NoDup(Ids(Enqueued(queued, events)))
    decreases |events|
  {
    if events == [] {
      assert Enqueued(queued, events) == queued;
    } else if events[0].id in Ids(queued) {
      EnqueuedDistinct(queued, events[1..]);
    } else {
      NewEventsStep(queued, events);
      NoDupAppend(Ids(queued), [events[0].id]);
      EnqueuedDistinct(queued + [events[0]], events[1..]);
    }
  }

  lemma {:induction false} NewEventsFresh(queued: seq<Event>, events: seq<Event>)
    requires NoDup(Ids(queued))
    ensures NoDup(Ids(Enqueued(queued, events)))
    ensures forall e :: e in NewEvents(queued, events) ==> e in events && e.id !in Ids(queued)
    ensures forall e :: e in events ==> e.id in Ids(Enqueued(queued, events))
    decreases |events|
  {
    EnqueuedDistinct(queued, events);
    IdsConcat(queued, NewEvents(queued, events));
    if events == [] {
    } else {
      assert forall e :: e in events <==> e == events[0] || e in events[1..];
      if events[0].id in Ids(queued) {
        NewEventsFresh(queued, events[1..]);
      } else {
        NewEventsStep(queued, events);
        NoDupAppend(Ids(queued), [events[0].id]);
        NewEventsFresh(queued + [events[0]], events[1..]);
        assert Ids(Enqueued(queued, events))[|queued|] == events[0].id;
      }
    }
  }

  lemma IdsConcat(a: seq<Event>, b: seq<Event>)
    ensures Ids(a + b) == Ids(a) + Ids(b)
  {
  }

  lemma NoDupConcat<T>(a: seq<T>, b: seq<T>)
    requires NoDup(a + b)
    ensures NoDup(a) && NoDup(b)
    ensures forall x :: x in a ==> x !in b
  {
    forall i, j | 0 <= i < j < |b| ensures b[i] != b[j] {
      assert (a + b)[|a| + i] == b[i] && (a + b)[|a| + j] == b[j];
    }
    forall i, j | 0 <= i < j < |a| ensures a[i] != a[j] {
      assert (a + b)[i] == a[i] && (a + b)[j] == a[j];
    }
    forall i, j | 0 <= i < |a| && 0 <= j < |b| ensures a[i] != b[j] {
      assert (a + b)[i] == a[i] && (a + b)[|a| + j] == b[j];
    }
  }

  /** An append splits the extended queue into what is evicted from its front and what is kept. */
  lemma AppendSplits(queued: seq<Event>, events: seq<Event>)
    requires |queued| <= CAPACITY
    ensures Enqueued(queued, events) == Evicted(queued, events) + Appended(queued, events)
    ensures |Appended(queued, events)| <= CAPACITY
    ensures Evicted(queued, events) != [] ==> |Appended(queued, events)| == CAPACITY
  {
  }

  /** An append keeps the queue duplicate-free and bounded, and every queued or offered id is kept or evicted. */
  lemma AppendKeepsQueue(queued: seq<Event>, events: seq<Event>)
    requires ValidQueue(queued)
    ensures ValidQueue(Appended(queued, events))
    ensures forall id :: id in Ids(queued) || id in Ids(events) ==>
                           id in Ids(Appended(queued, events)) || id in Ids(Evicted(queued, events))
    ensures forall id :: id in Ids(Appended(queued, events)) ==> id in Ids(queued) || id in Ids(events)
    ensures Evicted(queued, events) != [] ==> |Appended(queued, events)| == CAPACITY
  {
    var gone, kept, added := Evicted(queued, events), Appended(queued, events), NewEvents(queued, events);
    NewEventsFresh(queued, events);
    AppendSplits(queued, events);
    IdsConcat(queued, added);
    IdsConcat(gone, kept);
    assert Ids(gone) + Ids(kept) == Ids(queued) + Ids(added);
    NoDupConcat(Ids(gone), Ids(kept));
    forall id | id in Ids(events) ensures id in Ids(gone) + Ids(kept) {
      IdMember(events, id);
    }
    forall id | id in Ids(queued) + Ids(added) ensures id in Ids(queued) || id in Ids(events) {
      if id in Ids(added) {
        IdMember(added, id);
      }
    }
  }

  lemma IdMember(events: seq<Event>, id: Id)
    ensures id in Ids(events) <==> exists e :: e in events && e.id == id
  {
    if id in Ids(events) {
      var i :| 0 <= i < |events| && Ids(events)[i] == id;
      assert events[i] in events;
    }
    if exists e :: e in events && e.id == id {
      var e :| e in events && e.id == id;
      var i :| 0 <= i < |events| && events[i] == e;
      assert Ids(events)[i] == id;
    }
  }

  /** Acknowledging removes exactly the named events and keeps the others in order. */
  lemma {:induction false} AcknowledgeKeepsQueue(queued: seq<Event>, ids: seq<Id>)
    requires NoDup(Ids(queued))
    ensures NoDup(Ids(Acknowledged(queued, ids)))
    ensures forall id :: id in Ids(Acknowledged(queued, ids)) <==> id in Ids(queued) && id !in ids
  {
    IdsOfFilter(queued, (e: Event) => e.id !in ids);
    forall id ensures id in Ids(Acknowledged(queued, ids)) <==> id in Ids(queued) && id !in ids {
      var a := Acknowledged(queued, ids);
      if id in Ids(a) {
        var i :| 0 <= i < |a| && Ids(a)[i] == id;
        assert a[i] in a;
      }
      if id in Ids(queued) && id !in ids {
        var i :| 0 <= i < |queued| && Ids(queued)[i] == id;
        assert queued[i] in a;
        var j :| 0 <= j < |a| && a[j] == queued[i];
        assert Ids(a)[j] == id;
      }
    }
  }

  lemma IdsTail(events: seq<Event>)
    requires events != []
    ensures Ids(events) == [events[0].id] + Ids(events[1..])
  {
  }

  lemma TailDistinct<T>(x: T, rest: seq<T>)
    requires NoDup([x] + rest)
    ensures NoDup(rest) && x !in rest
  {
    NoDupConcat([x], rest);
  }

  lemma NoDupFirst<T>(x: T, rest: seq<T>)
    requires NoDup(rest) && x !in rest
    ensures NoDup([x] + rest)
  {
    NoDupAppend([x], rest);
  }

  lemma {:induction false} IdsOfFilter(events: seq<Event>, keep: Event -> bool)
    requires NoDup(Ids(events))
    ensures NoDup(Ids(Filter(events, keep)))
    ensures forall id :: id in Ids(Filter(events, keep)) ==> id in Ids(events)
  {
    if events == [] {
    } else {
      IdsTail(events);
      TailDistinct(events[0].id, Ids(events[1..]));
      IdsOfFilter(events[1..], keep);
      if keep(events[0]) {
        IdsTail(Filter(events, keep));
        assert Filter(events, keep)[1..] == Filter(events[1..], keep);
        NoDupFirst(events[0].id, Ids(Filter(events[1..], keep)));
      }
    }
  }

  /** Every event in scope up to and including the cursor has been sent. */
  ghost predicate CursorCovers(queued: seq<Event>, after: Option<Id>, scope: Option<Scope>, sent: set<Id>) {
    forall i :: 0 <= i < StartAfter(queued, after) && MatchesScope(queued[i], scope) ==> queued[i].id in sent
  }

  /** The candidates of the whole outbox are those before the cursor and then those after it. */
  lemma CandidatesSplit(queued: seq<Event>, after: Option<Id>, scope: Option<Scope>, sent: set<Id>)
    ensures var start := StartAfter(queued, after);
            && Candidates(queued, scope, sent) ==
               Candidates(queued[..start], scope, sent) + Candidates(queued[start..], scope, sent)
            && queued[StartAfter(queued, None)..] == queued
    ensures CursorCovers(queued, after, scope, sent) <==>
            Candidates(queued[..StartAfter(queued, after)], scope, sent) == []
  {
    var start := StartAfter(queued, after);
    var keep := (e: Event) => e.id !in sent && MatchesScope(e, scope);
    var front := queued[..start];
    assert queued == front + queued[start..];
    FilterConcat(front, queued[start..], keep);
    if CursorCovers(queued, after, scope, sent) {
      FilterNone(front, keep);
    }
    if Candidates(front, scope, sent) == [] {
      forall i | 0 <= i < start && MatchesScope(queued[i], scope) ensures queued[i].id in sent {
        assert front[i] == queued[i] && front[i] !in Filter(front, keep);
      }
    }
  }

  lemma PageSplit(queued: seq<Event>, after: Option<Id>, scope: Option<Scope>, sent: set<Id>, limit: nat)
    ensures var start := StartAfter(queued, after);
            && StreamPage(queued, after, scope, sent, limit) ==
               Take(Candidates(queued[start..], scope, sent), Clamp(limit, 1, 64))
            && StreamPage(queued, None, scope, sent, limit) ==
               Take(Candidates(queued[..start], scope, sent) + Candidates(queued[start..], scope, sent),
                    Clamp(limit, 1, 64))
  {
    CandidatesSplit(queued, after, scope, sent);
  }

  lemma TakeDiffers<T>(front: seq<T>, back: seq<T>, n: nat)
    requires front != [] && front[0] !in back && n > 0
    ensures Take(front + back, n) != Take(back, n)
  {
    assert Take(front + back, n)[0] == front[0];
    assert back != [] ==> Take(back, n)[0] in back;
  }

  ghost predicate PageAgrees(queued: seq<Event>, after: Option<Id>, scope: Option<Scope>, sent: set<Id>, limit: nat) {
    StreamPage(queued, after, scope, sent, limit) == StreamPage(queued, None, scope, sent, limit)
  }

  /**
   Searching from the cursor gives the page a search of the whole outbox would give,
   for every page size, exactly when no unsent event in scope lies before the cursor.
   */
  lemma CursorIsSpeedUp(queued: seq<Event>, after: Option<Id>, scope: Option<Scope>, sent: set<Id>)
    requires NoDup(Ids(queued))
    ensures CursorCovers(queued, after, scope, sent) <==> forall limit :: PageAgrees(queued, after, scope, sent, limit)
  {
    if CursorCovers(queued, after, scope, sent) {
      forall limit ensures PageAgrees(queued, after, scope, sent, limit) {
        CandidatesSplit(queued, after, scope, sent);
        CoveredPageAgrees(queued, after, scope, sent, limit);
      }
    } else {
      UncoveredPageDiffers(queued, after, scope, sent);
      assert !PageAgrees(queued, after, scope, sent, 64);
    }
  }

  lemma CoveredPageAgrees(queued: seq<Event>, after: Option<Id>, scope: Option<Scope>, sent: set<Id>, limit: nat)
    requires Candidates(queued[..StartAfter(queued, after)], scope, sent) == []
    ensures StreamPage(queued, after, scope, sent, limit) == StreamPage(queued, None, scope, sent, limit)
  {
    PageSplit(queued, after, scope, sent, limit);
    var back := Candidates(queued[StartAfter(queued, after)..], scope, sent);
    assert [] + back == back;
  }

  /** Without a cursor the page is the front of the candidates of the whole outbox. */
  lemma WholeOutboxPage(queued: seq<Event>, scope: Option<Scope>, sent: set<Id>, limit: nat)
    ensures StreamPage(queued, None, scope, sent, limit) == Take(Candidates(queued, scope, sent), Clamp(limit, 1, 64))
  {
    assert queued[StartAfter(queued, None)..] == queued;
  }

  lemma UncoveredPageDiffers(queued: seq<Event>, after: Option<Id>, scope: Option<Scope>, sent: set<Id>)
    requires NoDup(Ids(queued)) && !CursorCovers(queued, after, scope, sent)
    ensures StreamPage(queued, after, scope, sent, 64) != StreamPage(queued, None, scope, sent, 64)
  {
    CandidatesSplit(queued, after, scope, sent);
    var start := StartAfter(queued, after);
    var front, back := Candidates(queued[..start], scope, sent), Candidates(queued[start..], scope, sent);
    assert front[0] in front;
    DisjointHalves(queued, start, front[0]);
    PageSplit(queued, after, scope, sent, 64);
    TakeDiffers(front, back, 64);
  }

  lemma DisjointHalves(queued: seq<Event>, start: nat, event: Event)
    requires NoDup(Ids(queued)) && start <= |queued| && event in queued[..start]
    ensures event !in queued[start..]
  {
    assert queued == queued[..start] + queued[start..];
    IdsConcat(queued[..start], queued[start..]);
    NoDupConcat(Ids(queued[..start]), Ids(queued[start..]));
    IdMember(queued[..start], event.id);
    IdMember(queued[start..], event.id);
  }

  /** An id that leaves the outbox and comes back behind unsent events hides them from a stream whose cursor it is. */
  lemma ReappendedCursorSkips()
    ensures exists queued: seq<Event>, after: Option<Id>, sent: set<Id> ::
              && NoDup(Ids(queued))
              && after.Some? && after.value in sent
              && StreamPage(queued, after, None, sent, 64) == []
              && |StreamPage(queued, None, None, sent, 64)| == 1
  {
    var unsent := Event("b", "h", "p", None, "");
    var back := Event("a", "h", "p", None, "");
    var queued := [unsent, back];
    var sent: set<Id> := {"a"};
    assert Ids(queued) == ["b", "a"];
    assert queued[1..] == [back];
    assert StartAfter(queued, Some("a")) == 2 by {
      assert StartAfter([back], Some("a")) == 1;
    }
    assert queued[2..] == [];
    var keep := (e: Event) => e.id !in sent && MatchesScope(e, None);
    assert Filter([back], keep) == [] by { assert Filter(([back])[1..], keep) == []; }
    assert Filter(queued, keep) == [unsent];
    assert queued[0..] == queued;
    assert StreamPage(queued, None, None, sent, 64) == [unsent];
    assert StreamPage(queued, Some("a"), None, sent, 64) == [];
  }

  lemma TakeMember<T>(s: seq<T>, n: nat)
    ensures forall x :: x in Take(s, n) ==> x in s
    ensures |Take(s, n)| <= n
    ensures Take(s, n) <= s
  {
  }

  lemma NoDupIdsPrefix(a: seq<Event>, b: seq<Event>)
    requires a <= b && NoDup(Ids(b))
    ensures NoDup(Ids(a))
  {
    assert b == a + b[|a|..];
    IdsConcat(a, b[|a|..]);
    NoDupConcat(Ids(a), Ids(b[|a|..]));
  }

  /** A page is made of queued, unsent events in scope. */
  lemma StreamPageMembers(queued: seq<Event>, after: Option<Id>, scope: Option<Scope>, sent: set<Id>, limit: nat)
    ensures forall e :: e in StreamPage(queued, after, scope, sent, limit) ==>
            e in queued && e.id !in sent && MatchesScope(e, scope)
  {
    var tail := queued[StartAfter(queued, after)..];
    var all := Candidates(tail, scope, sent);
    TakeMember(all, Clamp(limit, 1, 64));
    forall e | e in StreamPage(queued, after, scope, sent, limit)
      ensures e in queued && e.id !in sent && MatchesScope(e, scope)
    {
      assert e in all && e in tail;
    }
  }

  lemma StreamPageDistinct(queued: seq<Event>, after: Option<Id>, scope: Option<Scope>, sent: set<Id>, limit: nat)
    requires NoDup(Ids(queued))
    ensures NoDup(Ids(StreamPage(queued, after, scope, sent, limit)))
    ensures |StreamPage(queued, after, scope, sent, limit)| <= Clamp(limit, 1, 64)
  {
    var start := StartAfter(queued, after);
    var tail := queued[start..];
    assert queued == queued[..start] + tail;
    IdsConcat(queued[..start], tail);
    NoDupConcat(Ids(queued[..start]), Ids(tail));
    IdsOfFilter(tail, (e: Event) => e.id !in sent && MatchesScope(e, scope));
    var all := Candidates(tail, scope, sent);
    TakeMember(all, Clamp(limit, 1, 64));
    NoDupIdsPrefix(StreamPage(queued, after, scope, sent, limit), all);
  }
}
