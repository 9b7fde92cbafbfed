/** The Agent's outbox of collection batches: the newest few runs, each at most once. */
module CollectionOutbox {
  import opened Domain
  import opened Sequences

  datatype Batch = Batch(runId: string, content: string)

  const KEPT: nat := 8

  function WithoutRun(batches: seq<Batch>, runId: string): seq<Batch> {
    Filter(batches, (b: Batch) => b.runId != runId)
  }

  /** The same list kept without a bound: a batch replaces an earlier one of its run and goes to the back. */
  function MovedToBack(batches: seq<Batch>, batch: Batch): seq<Batch> {
    WithoutRun(batches, batch.runId) + [batch]
  }

  function Appended(batches: seq<Batch>, batch: Batch): seq<Batch> {
    Newest(MovedToBack(batches, batch), KEPT)
  }

  function Reversed(batches: seq<Batch>): (r: seq<Batch>)
    ensures |r| == |batches|
    ensures forall i :: 0 <= i < |r| ==> r[i] == batches[|batches| - 1 - i]
  {
    seq(|batches|, i requires 0 <= i < |batches| => batches[|batches| - 1 - i])
  }

  class Outbox {
    var batches: seq<Batch>

    constructor ()
      ensures batches == []
    {
      batches := [];
    }

    method Append(batch: Batch)
      modifies this
      ensures batches == Appended(old(batches), batch)
    {
      var kept: seq<Batch> := [];
      for i := 0 to |batches|
        invariant batches == old(batches)
        invariant kept == WithoutRun(batches[..i], batch.runId)
      {
        FilterNext(batches, i, (b: Batch) => b.runId != batch.runId);
        if batches[i].runId != batch.runId {
          kept := kept + [batches[i]];
        }
      }
      assert batches[..|batches|] == batches;
      kept := kept + [batch];
      if |kept| > KEPT {
        kept := kept[|kept| - KEPT..];
      }
      batches := kept;
    }

    /** The newest batches first, at most `limit` of them. */
    method Replay(limit: nat) returns (page: seq<Batch>)
      ensures page == Take(Reversed(batches), Clamp(limit, 1, 32))
    {
      page := [];
      var i := |batches|;
      while i > 0 && |page| < Clamp(limit, 1, 32)
        invariant 0 <= i <= |batches| && |page| == |batches| - i <= Clamp(limit, 1, 32)
        invariant forall k :: 0 <= k < |page| ==> page[k] == Reversed(batches)[k]
      {
        i := i - 1;
        page := page + [batches[i]];
      }
    }
  }

  function Bounded(batches: seq<Batch>, appends: seq<Batch>): seq<Batch>
    decreases |appends|
  {
    if appends == [] then batches else Bounded(Appended(batches, appends[0]), appends[1..])
  }

  function Unbounded(batches: seq<Batch>, appends: seq<Batch>): seq<Batch>
    decreases |appends|
  {
    if appends == [] then batches else Unbounded(MovedToBack(batches, appends[0]), appends[1..])
  }

  ghost predicate DistinctRuns(batches: seq<Batch>) {
    forall i, j :: 0 <= i < j < |batches| ==> batches[i].runId != batches[j].runId
  }

  lemma DistinctFront(first: Batch, tail: seq<Batch>, part: seq<Batch>)
    requires DistinctRuns([first] + tail) && DistinctRuns(part) && forall b :: b in part ==> b in tail
    ensures DistinctRuns([first] + part)
  {
    forall b | b in tail ensures b.runId != first.runId {
      var i :| 0 <= i < |tail| && tail[i] == b;
      assert ([first] + tail)[0] == first && ([first] + tail)[i + 1] == b;
    }
    assert forall i :: 0 <= i < |part| ==> part[i] in part;
  }

  lemma {:induction false} WithoutRunCount(batches: seq<Batch>, runId: string)
    requires DistinctRuns(batches)
    ensures |WithoutRun(batches, runId)| >= |batches| - 1
    ensures DistinctRuns(WithoutRun(batches, runId))
  {
    if batches == [] {
    } else {
      var tail := batches[1..];
      assert batches == [batches[0]] + tail;
      WithoutRunCount(tail, runId);
      if batches[0].runId == runId {
        assert forall b :: b in tail ==> b.runId != runId;
        FilterAll(tail, (b: Batch) => b.runId != runId);
      } else {
        DistinctFront(batches[0], tail, WithoutRun(tail, runId));
      }
    }
  }

  /** Cutting before or after a move to the back keeps the same newest batches. */
  lemma CutCommutes(whole: seq<Batch>, batch: Batch)
    requires DistinctRuns(whole)
    ensures Appended(Newest(whole, KEPT), batch) == Newest(MovedToBack(whole, batch), KEPT)
  {
    WithoutRunCount(whole, batch.runId);
    if |whole| > KEPT {
      var front, back := whole[..|whole| - KEPT], whole[|whole| - KEPT..];
      assert whole == front + back;
      FilterConcat(front, back, (b: Batch) => b.runId != batch.runId);
      WithoutRunCount(back, batch.runId);
      var end := MovedToBack(back, batch);
      Associative(WithoutRun(front, batch.runId), WithoutRun(back, batch.runId), [batch]);
      NewestOfEnd(WithoutRun(front, batch.runId), end, KEPT);
    }
  }

  lemma MoveKeepsDistinct(batches: seq<Batch>, batch: Batch)
    requires DistinctRuns(batches)
    ensures DistinctRuns(MovedToBack(batches, batch))
  {
    WithoutRunCount(batches, batch.runId);
    var kept := WithoutRun(batches, batch.runId);
    assert forall i :: 0 <= i < |kept| ==> kept[i] in kept;
  }

  /**
   For every sequence of appends the bounded outbox holds exactly the newest entries of the list
   that was never cut.
   */
  lemma {:induction false} BoundedIsNewestOfUnbounded(whole: seq<Batch>, appends: seq<Batch>)
    requires DistinctRuns(whole)
    ensures Bounded(Newest(whole, KEPT), appends) == Newest(Unbounded(whole, appends), KEPT)
    decreases |appends|
  {
    if appends == [] {
    } else {
      CutCommutes(whole, appends[0]);
      MoveKeepsDistinct(whole, appends[0]);
      BoundedIsNewestOfUnbounded(MovedToBack(whole, appends[0]), appends[1..]);
    }
  }

  /** The page lists the whole from its end backwards, as far as the list that is kept and the limit go. */
  ghost predicate ListsNewest(page: seq<Batch>, whole: seq<Batch>, limit: nat) {
    && |page| <= |whole|
    && |page| <= 8 && |page| <= (if limit < 1 then 1 else if limit > 32 then 32 else limit)
    && (|page| == |whole| || |page| == 8 || |page| == if limit < 1 then 1 else if limit > 32 then 32 else limit)
    && forall i :: 0 <= i < |page| ==> page[i] == whole[|whole| - 1 - i]
  }

  lemma PageOfNewest(whole: seq<Batch>, limit: nat)
    ensures ListsNewest(Take(Reversed(Newest(whole, KEPT)), Clamp(limit, 1, 32)), whole, limit)
  {
  }

  lemma BoundedFromEmpty(appends: seq<Batch>)
    ensures Bounded([], appends) == Newest(Unbounded([], appends), KEPT)
  {
    BoundedIsNewestOfUnbounded([], appends);
  }

  /** A replay of `limit` batches lists the newest ones of the uncut list, newest first. */
  lemma ReplayIsNewestFirst(appends: seq<Batch>, limit: nat)
    ensures ListsNewest(Take(Reversed(Bounded([], appends)), Clamp(limit, 1, 32)), Unbounded([], appends), limit)
  {
    BoundedFromEmpty(appends);
    PageOfNewest(Unbounded([], appends), limit);
  }
}
