/** Any sequence of requests and reads on one connection keeps the order of all frames but the answers. */
module AgentSession {
  import opened AgentClient
  import opened Protocol
  import opened Sequences

  /** Waiting for the answer to a request, or taking the next frame up. */
  datatype Use = Await(id: RequestId) | Take

  /** A client and the frames taken up from it so far, oldest first. */
  datatype Session<P> = Session(taken: seq<Envelope<P>>, pending: seq<Envelope<P>>, wire: seq<Envelope<P>>)

  /** The session after one use that succeeds, as the client's methods specify it. */
  function Used<P(!new)>(s: Session<P>, use: Use): Session<P> {
    match use
    case Await(id) =>
      var k := StopAt(s.pending + s.wire, id);
      if k == |s.pending + s.wire| then s
      else
        Session(s.taken, PendingAfter(s.pending, k + 1) + (s.pending + s.wire)[..k],
                WireAfter(s.pending, s.wire, k + 1))
    case Take =>
      if s.pending != [] then Session(s.taken + [s.pending[0]], s.pending[1..], s.wire)
      else if s.wire != [] then Session(s.taken + [s.wire[0]], [], s.wire[1..])
      else s
  }

  function UsedAll<P(!new)>(s: Session<P>, uses: seq<Use>): Session<P>
    decreases |uses|
  {
    if uses == [] then s else UsedAll(Used(s, uses[0]), uses[1..])
  }

  /** All frames in the order in which they have been and will be taken up. */
  function AllFrames<P>(s: Session<P>): seq<Envelope<P>> {
    s.taken + s.pending + s.wire
  }

  function NotFor<P>(id: RequestId): Envelope<P> -> bool {
    (frame: Envelope<P>) => frame.requestId != id
  }

  ghost predicate NoneFor<P>(frames: seq<Envelope<P>>, id: RequestId) {
    forall i :: 0 <= i < |frames| ==> frames[i].requestId != id
  }

  /** Of the frames, `k` alone carries the id. */
  ghost predicate OnlyAt<P>(frames: seq<Envelope<P>>, k: nat, id: RequestId) {
    && k < |frames| && frames[k].requestId == id
    && NoneFor(frames[..k], id) && NoneFor(frames[k + 1..], id)
  }

  /** A request made with a new id: nothing read so far carries it, and one answer is still to be read. */
  ghost predicate FreshUse<P(!new)>(s: Session<P>, use: Use) {
    match use
    case Await(id) =>
      && AllCompatible(s.pending) && NoneFor(s.taken, id) && NoneFor(s.pending, id)
      && exists k: nat :: OnlyAt(s.wire, k, id) && AllCompatible(s.wire[..k])
    case Take => true
  }

  ghost predicate FreshUses<P(!new)>(s: Session<P>, uses: seq<Use>)
    decreases |uses|
  {
    uses == [] || (FreshUse(s, uses[0]) && FreshUses(Used(s, uses[0]), uses[1..]))
  }

  /** The frames that answer none of the requests made. */
  function NotAnswers<P>(uses: seq<Use>): Envelope<P> -> bool {
    (frame: Envelope<P>) => Await(frame.requestId) !in uses
  }

  lemma FilterKeepsAll<P(!new)>(frames: seq<Envelope<P>>, id: RequestId)
    requires NoneFor(frames, id)
    ensures Filter(frames, NotFor(id)) == frames
  {
    FilterAll(frames, NotFor(id));
  }

  lemma FilterDropsAnswer<P(!new)>(answer: Envelope<P>, id: RequestId)
    requires answer.requestId == id
    ensures Filter([answer], NotFor(id)) == []
  {
    FilterNone([answer], NotFor(id));
  }

  lemma FilterDropsOne<P(!new)>(before: seq<Envelope<P>>, answer: Envelope<P>, rest: seq<Envelope<P>>, id: RequestId)
    requires NoneFor(before, id) && answer.requestId == id && NoneFor(rest, id)
    ensures Filter(before + [answer] + rest, NotFor(id)) == before + rest
  {
    FilterKeepsAll(before, id);
    FilterKeepsAll(rest, id);
    FilterDropsAnswer(answer, id);
    FilterConcat(before, [answer], NotFor(id));
    assert before + [] == before;
    FilterConcat(before + [answer], rest, NotFor(id));
  }

  /** The answer to a fresh request is found on the wire. */
  lemma FreshStop<P(!new)>(pending: seq<Envelope<P>>, wire: seq<Envelope<P>>, id: RequestId, k: nat)
    requires AllCompatible(pending) && NoneFor(pending, id) && OnlyAt(wire, k, id) && AllCompatible(wire[..k])
    ensures StopAt(pending + wire, id) == |pending| + k
  {
    var frames := pending + wire;
    forall i | 0 <= i < |pending| + k ensures frames[i].requestId != id && frames[i].compatible {
      assert i >= |pending| ==> frames[i] == wire[..k][i - |pending|];
    }
    StopAtUnique(frames, id, |pending| + k);
  }

  /** What waiting leaves when the answer is on the wire. */
  lemma AwaitLeaves<P(!new)>(s: Session<P>, id: RequestId, k: nat)
    requires k < |s.wire| && StopAt(s.pending + s.wire, id) == |s.pending| + k
    ensures Used(s, Await(id)) == Session(s.taken, s.pending + s.wire[..k], s.wire[k + 1..])
  {
    var n := |s.pending| + k;
    assert (s.pending + s.wire)[..n] == s.pending + s.wire[..k];
    assert PendingAfter(s.pending, n + 1) == [];
    assert [] + (s.pending + s.wire[..k]) == s.pending + s.wire[..k];
  }

  lemma Regrouped<T>(a: seq<T>, b: seq<T>, c: seq<T>, k: nat)
    requires k < |c|
    ensures a + b + c == a + (b + c[..k]) + [c[k]] + c[k + 1..]
  {
  }

  lemma NoneInParts<P(!new)>(a: seq<Envelope<P>>, b: seq<Envelope<P>>, c: seq<Envelope<P>>, id: RequestId)
    requires NoneFor(a, id) && NoneFor(b, id) && NoneFor(c, id)
    ensures NoneFor(a + (b + c), id)
  {
  }

  /** A fresh request takes its answer out of the frames and leaves the others in order. */
  lemma AwaitKeepsOrder<P(!new)>(s: Session<P>, id: RequestId)
    requires FreshUse(s, Await(id))
    ensures AllFrames(Used(s, Await(id))) == Filter(AllFrames(s), NotFor(id))
  {
    var k: nat :| OnlyAt(s.wire, k, id) && AllCompatible(s.wire[..k]);
    FreshStop(s.pending, s.wire, id, k);
    AwaitLeaves(s, id, k);
    Regrouped(s.taken, s.pending, s.wire, k);
    NoneInParts(s.taken, s.pending, s.wire[..k], id);
    FilterDropsOne(s.taken + (s.pending + s.wire[..k]), s.wire[k], s.wire[k + 1..], id);
  }

  lemma TakeKeepsOrder<P(!new)>(s: Session<P>)
    ensures AllFrames(Used(s, Take)) == AllFrames(s)
  {
  }

  lemma NotAnswersNext<P(!new)>(frames: seq<Envelope<P>>, uses: seq<Use>)
    requires uses != []
    ensures Filter(frames, NotAnswers(uses)) ==
            if uses[0].Await? then Filter(Filter(frames, NotFor(uses[0].id)), NotAnswers(uses[1..]))
            else Filter(frames, NotAnswers(uses[1..]))
  {
    assert uses == [uses[0]] + uses[1..];
    if uses[0].Await? {
      FilterTwice(frames, NotFor(uses[0].id), NotAnswers(uses[1..]));
      FilterCongruent(frames, NotAnswers(uses), x => NotFor(uses[0].id)(x) && NotAnswers(uses[1..])(x));
    } else {
      FilterCongruent(frames, NotAnswers(uses), NotAnswers(uses[1..]));
    }
  }

  lemma UseKeepsOrder<P(!new)>(s: Session<P>, uses: seq<Use>)
    requires uses != [] && FreshUse(s, uses[0])
    ensures Filter(AllFrames(Used(s, uses[0])), NotAnswers(uses[1..])) == Filter(AllFrames(s), NotAnswers(uses))
  {
    NotAnswersNext(AllFrames(s), uses);
    match uses[0]
    case Await(id) => AwaitKeepsOrder(s, id);
    case Take => TakeKeepsOrder(s);
  }

  /**
   Over any sequence of requests with new ids and of reads, what has been taken up, what is set aside and
   what is on the wire are together all frames but the answers, in their first order.
   */
  lemma {:induction false} SessionKeepsOrder<P(!new)>(s: Session<P>, uses: seq<Use>)
    requires FreshUses(s, uses)
    ensures AllFrames(UsedAll(s, uses)) == Filter(AllFrames(s), NotAnswers(uses))
    decreases |uses|
  {
    if uses == [] {
      FilterAll(AllFrames(s), NotAnswers(uses));
    } else {
      SessionKeepsOrder(Used(s, uses[0]), uses[1..]);
      UseKeepsOrder(s, uses);
    }
  }
}
