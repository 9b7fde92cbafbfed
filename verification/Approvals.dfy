/**
 The Agent's one-time approval store: a durable, bounded list of consumed
 approvals, with an in-memory set in front of it that a restart empties.
 */
module Approvals {
  import opened Sequences
  import opened Text

  type Key = string

  const REMEMBERED: nat := 4096

  /**
   An approval envelope as presented for a change set. `genuine` stands for the signature, expiry
   and one-time-use checks made on the envelope itself.
   */
  datatype Approval = Approval(changeSetId: string, operationsHash: string, approvalId: string, nonce: string,
                               genuine: bool)

  function ReplayKey(approval: Approval): Key {
    approval.approvalId + ":" + approval.nonce
  }

  predicate Bound(approval: Approval, changeSetId: string, operationsHash: string) {
    && !Blank(approval.changeSetId)
    && approval.changeSetId == changeSetId
    && approval.operationsHash == operationsHash
    && approval.genuine
  }

  class Store {
    /** The list on disk, oldest first; a missing file reads as an empty list. */
    var durable: seq<Key>
    /** The running process's memory of consumed keys. */
    var memory: set<Key>

    constructor ()
      ensures durable == [] && memory == {}
    {
      durable, memory := [], {};
    }

    ghost predicate Valid()
      reads this
    {
      && |durable| <= REMEMBERED
      && memory <= Elems(durable)
    }

    /** A process starts with empty memory over the list on disk. */
    method Restart()
      requires Valid()
      modifies this`memory
      ensures Valid() && memory == {}
    {
      memory := {};
    }

    /** Accepts an approval that is bound to the change set and whose key is not on the list, and puts the key there. */
    method Consume(approval: Approval, changeSetId: string, operationsHash: string) returns (accepted: bool)
      requires Valid()
      modifies this
      ensures Valid()
      ensures forall keys ::
                Present(History(old(durable), old(memory), keys), approval, changeSetId, operationsHash) ==
                (History(durable, memory, if accepted then keys + [ReplayKey(approval)] else keys), accepted)
      ensures accepted <==> Bound(approval, changeSetId, operationsHash) && ReplayKey(approval) !in old(durable)
      ensures durable == if accepted then Newest(old(durable) + [ReplayKey(approval)], REMEMBERED) else old(durable)
      ensures memory == if accepted then Elems(durable)
                        else if Bound(approval, changeSetId, operationsHash) then old(memory) + {ReplayKey(approval)}
                        else old(memory)
    {
      if Blank(approval.changeSetId) || approval.changeSetId != changeSetId
         || approval.operationsHash != operationsHash || !approval.genuine {
        return false;
      }
      var key := ReplayKey(approval);
      if key in memory {
        return false;
      }
      var consumed := durable;
      if key in consumed {
        memory := memory + {key};
        return false;
      }
      consumed := consumed + [key];
      if |consumed| > REMEMBERED {
        consumed := consumed[|consumed| - REMEMBERED..];
      }
      durable := consumed;
      memory := Elems(consumed);
      return true;
    }
  }

  // ---------- every run ----------

  datatype Event = Restarted | Presented(approval: Approval, changeSetId: string, operationsHash: string)

  /** The store over a run: the list on disk, the process's memory, and every key accepted so far, oldest first. */
  datatype History = History(durable: seq<Key>, memory: set<Key>, accepted: seq<Key>)

  /** Presenting an approval: the memory is asked before the list. */
  function Present(h: History, approval: Approval, changeSetId: string, operationsHash: string): (History, bool) {
    var key := ReplayKey(approval);
    if !Bound(approval, changeSetId, operationsHash) then (h, false)
    else if key in h.memory then (h, false)
    else if key in h.durable then (h.(memory := h.memory + {key}), false)
    else
      var durable := Newest(h.durable + [key], REMEMBERED);
      (History(durable, Elems(durable), h.accepted + [key]), true)
  }

  predicate Accepts(h: History, event: Event) {
    event.Presented? && Present(h, event.approval, event.changeSetId, event.operationsHash).1
  }

  /** The effect of one event; a restart empties the memory. */
  function After(h: History, event: Event): History {
    match event
    case Restarted => h.(memory := {})
    case Presented(approval, changeSetId, operationsHash) => Present(h, approval, changeSetId, operationsHash).0
  }

  function AfterAll(h: History, events: seq<Event>): History
    decreases |events|
  {
    if events == [] then h else AfterAll(After(h, events[0]), events[1..])
  }

  function NothingAccepted(): History {
    History([], {}, [])
  }

  /** Equal keys are accepted more than `REMEMBERED` acceptances apart. */
  ghost predicate Spaced(accepted: seq<Key>) {
    forall i, j :: 0 <= i < j < |accepted| && accepted[i] == accepted[j] ==> j - i > REMEMBERED
  }

  /** The list is the newest accepted keys, and the memory knows nothing that the list does not. */
  ghost predicate Remembered(h: History) {
    h.durable == Newest(h.accepted, REMEMBERED) && h.memory <= Elems(h.durable) && Spaced(h.accepted)
  }

  /** The memory never changes a decision: an approval is accepted as if there were only the list. */
  lemma MemoryDecidesNothing(h: History, event: Event)
    requires Remembered(h)
    ensures Accepts(h, event) <==>
            && event.Presented? && Bound(event.approval, event.changeSetId, event.operationsHash)
            && ReplayKey(event.approval) !in h.durable
  {
  }

  lemma SpacedNext(accepted: seq<Key>, durable: seq<Key>, key: Key)
    requires durable == Newest(accepted, REMEMBERED) && Spaced(accepted) && key !in durable
    ensures Spaced(accepted + [key]) && Newest(durable + [key], REMEMBERED) == Newest(accepted + [key], REMEMBERED)
  {
    forall i | 0 <= i < |accepted| && accepted[i] == key ensures |accepted| - i > REMEMBERED {
      var base := |accepted| - |durable|;
      assert forall k :: 0 <= k < |durable| ==> durable[k] == accepted[base + k] && durable[k] in durable;
    }
  }

  lemma StepRemembers(h: History, event: Event)
    requires Remembered(h)
    ensures Remembered(After(h, event))
  {
    MemoryDecidesNothing(h, event);
    if Accepts(h, event) {
      SpacedNext(h.accepted, h.durable, ReplayKey(event.approval));
    }
  }

  /**
   Over any run with restarts the list on disk is exactly the newest accepted keys, the memory is part of
   it, and a key is accepted again only after `REMEMBERED` other acceptances.
   */
  lemma {:induction false} OneTimeUse(h: History, events: seq<Event>)
    requires Remembered(h)
    ensures Remembered(AfterAll(h, events))
    decreases |events|
  {
    if events == [] {
    } else {
      StepRemembers(h, events[0]);
      OneTimeUse(After(h, events[0]), events[1..]);
    }
  }

  /** The bound is exact: a key is refused as long as it is among the newest keys, and accepted as soon as it is not. */
  lemma RefusedExactlyWhileRemembered(
    events: seq<Event>, approval: Approval, changeSetId: string, operationsHash: string)
    requires Bound(approval, changeSetId, operationsHash)
    ensures var h := AfterAll(NothingAccepted(), events);
            Accepts(h, Presented(approval, changeSetId, operationsHash)) <==>
            forall i :: 0 <= i < |h.accepted| && h.accepted[i] == ReplayKey(approval) ==> i < |h.accepted| - REMEMBERED
  {
    OneTimeUse(NothingAccepted(), events);
    var h, key := AfterAll(NothingAccepted(), events), ReplayKey(approval);
    MemoryDecidesNothing(h, Presented(approval, changeSetId, operationsHash));
    var base := |h.accepted| - |h.durable|;
    forall i | 0 <= i < |h.accepted| && h.accepted[i] == key && i >= |h.accepted| - REMEMBERED
      ensures key in h.durable
    {
      assert h.durable[i - base] == key;
    }
    if key in h.durable {
      var k :| 0 <= k < |h.durable| && h.durable[k] == key;
      assert h.accepted[base + k] == key;
    }
  }

  // ---------- what is accepted ----------

  /** The approval is for this change set and these operations, and genuine. */
  predicate IsFor(approval: Approval, changeSetId: string, operationsHash: string) {
    && (exists i :: 0 <= i < |changeSetId| && !IsSpace(changeSetId[i]))
    && approval.changeSetId == changeSetId && approval.operationsHash == operationsHash && approval.genuine
  }

  /** The key stands among the last 4096 of the list. */
  ghost predicate AmongNewest(accepted: seq<Key>, key: Key) {
    exists i :: 0 <= i < |accepted| && i >= |accepted| - 4096 && accepted[i] == key
  }

  /**
   After any run an approval is accepted exactly when it is for the change set and its operations, genuine,
   and its id and nonce are not those of one of the last 4096 accepted; and only then it is remembered.
   */
  lemma AcceptedExactly(events: seq<Event>, approval: Approval, changeSetId: string, operationsHash: string)
    ensures var h, event := AfterAll(NothingAccepted(), events), Presented(approval, changeSetId, operationsHash);
            var key := approval.approvalId + ":" + approval.nonce;
            && (Accepts(h, event) <==> IsFor(approval, changeSetId, operationsHash) && !AmongNewest(h.accepted, key))
            && After(h, event).accepted == (if Accepts(h, event) then h.accepted + [key] else h.accepted)
  {
    var h := AfterAll(NothingAccepted(), events);
    OneTimeUse(NothingAccepted(), events);
    BoundExactly(approval, changeSetId, operationsHash);
    if Bound(approval, changeSetId, operationsHash) {
      RefusedExactlyWhileRemembered(events, approval, changeSetId, operationsHash);
    }
  }

  lemma BoundExactly(approval: Approval, changeSetId: string, operationsHash: string)
    ensures Bound(approval, changeSetId, operationsHash) <==> IsFor(approval, changeSetId, operationsHash)
  {
  }

  /** Ids without a colon and nonces can be read out of the keys again. */
  lemma KeysTell(a: Approval, b: Approval)
    requires ReplayKey(a) == ReplayKey(b)
    requires ':' !in a.approvalId && ':' !in b.approvalId
    ensures a.approvalId == b.approvalId && a.nonce == b.nonce
  {
    FirstColon(a.approvalId, a.nonce);
    FirstColon(b.approvalId, b.nonce);
    SameColon(ReplayKey(a), |a.approvalId|, |b.approvalId|);
  }

  /** There is a colon at `m` and none before it. */
  predicate ColonAt(s: string, m: nat) {
    m < |s| && s[m] == ':' && forall i :: 0 <= i < m ==> s[i] != ':'
  }

  lemma FirstColon(id: string, nonce: string)
    requires ':' !in id
    ensures var s := id + ":" + nonce; ColonAt(s, |id|) && s[..|id|] == id && s[|id| + 1..] == nonce
  {
    var s := id + ":" + nonce;
    forall i | 0 <= i < |id| ensures s[i] != ':' {
      assert s[i] == id[i] && id[i] in id;
    }
  }

  lemma SameColon(s: string, m: nat, n: nat)
    requires ColonAt(s, m) && ColonAt(s, n)
    ensures m == n
  {
  }

  /** With a colon in an id they cannot. */
  lemma KeysCanMeet() returns (a: Approval, b: Approval)
    ensures a.approvalId != b.approvalId && a.nonce != b.nonce && ReplayKey(a) == ReplayKey(b)
  {
    a, b := Approval("x", "h", "a:b", "c", true), Approval("x", "h", "a", "b:c", true);
  }
}
