/**
 The Controller's end of a connection: one reader shared by the answers to
 requests and by the pages that an open stream pushes at any time.
 */
module AgentClient {
  import opened Sequences
  import opened Protocol

  datatype Answer<+P> = Answered(payload: P) | Failed

  /** Position of the first frame that ends the wait for `id`: its answer, or a line that cannot be accepted. */
  function StopAt<P(!new)>(frames: seq<Envelope<P>>, id: RequestId): (k: nat)
    ensures k <= |frames|
    ensures forall i :: 0 <= i < k ==> frames[i].requestId != id && frames[i].compatible
    ensures k < |frames| ==> frames[k].requestId == id || !frames[k].compatible
  {
    if frames == [] || frames[0].requestId == id || !frames[0].compatible then 0
    else 1 + StopAt(frames[1..], id)
  }

  ghost predicate AllCompatible<P>(frames: seq<Envelope<P>>) {
    forall i :: 0 <= i < |frames| ==> frames[i].compatible
  }

  /** The first `k` frames neither answer the request nor end the wait. */
  ghost predicate PassedOver<P>(frames: seq<Envelope<P>>, k: nat, id: RequestId) {
    k <= |frames| && forall i :: 0 <= i < k ==> frames[i].requestId != id && frames[i].compatible
  }

  lemma PassedNext<P>(frames: seq<Envelope<P>>, k: nat, id: RequestId)
    requires PassedOver(frames, k, id) && k < |frames| && frames[k].requestId != id && frames[k].compatible
    ensures PassedOver(frames, k + 1, id) && frames[..k + 1] == frames[..k] + [frames[k]]
  {
  }

  lemma {:induction false} StopAtUnique<P(!new)>(frames: seq<Envelope<P>>, id: RequestId, k: nat)
    requires PassedOver(frames, k, id)
    requires k < |frames| ==> frames[k].requestId == id || !frames[k].compatible
    ensures StopAt(frames, id) == k
  {
    var j := StopAt(frames, id);
    assert !(j < k) && !(k < j);
  }

  class Client<P(!new)> {
    /** Frames read while waiting for another answer. */
    var pending: seq<Envelope<P>>
    /** Lines the Agent has sent and the Controller has not read. */
    var wire: seq<Envelope<P>>

    constructor (wire: seq<Envelope<P>>)
      ensures pending == [] && this.wire == wire
    {
      pending, this.wire := [], wire;
    }

    ghost predicate Valid()
      reads this
    {
      AllCompatible(pending)
    }

    /**
     The next frame: a set-aside one first, then one from the wire; nothing when the connection is closed or
     the line is bad.
     */
    method NextResponse() returns (frame: Option<Envelope<P>>)
      requires Valid()
      modifies this
      ensures Valid()
      ensures old(pending) != [] ==> frame == Some(old(pending)[0]) && pending == old(pending)[1..] && wire == old(wire)
      ensures old(pending) == [] ==> pending == [] && wire == if old(wire) == [] then [] else old(wire)[1..]
      ensures old(pending) == [] ==>
              frame == if old(wire) == [] || !old(wire)[0].compatible then None else Some(old(wire)[0])
    {
      if pending != [] {
        frame := Some(pending[0]);
        pending := pending[1..];
        return;
      }
      if wire == [] {
        return None;
      }
      var line := wire[0];
      wire := wire[1..];
      frame := if line.compatible then Some(line) else None;
    }

    /**
     Waits for the answer to request `id`. The frames passed over are set aside in the order read,
     behind whatever was still pending when the answer came.
     */
    method AwaitAnswer(id: RequestId) returns (answer: Answer<P>)
      requires Valid()
      modifies this
      ensures Valid()
      ensures var frames := old(pending + wire);
              var k := StopAt(frames, id);
              if k == |frames| || !frames[k].compatible then
                answer == Failed && pending == [] && wire == WireAfter(old(pending), old(wire), k + 1)
              else
                && answer == Answered(frames[k].payload)
                && pending == PendingAfter(old(pending), k + 1) + frames[..k]
                && wire == WireAfter(old(pending), old(wire), k + 1)
    {
      ghost var before, lines := pending, wire;
      ghost var frames := before + lines;
      var unrelated: seq<Envelope<P>> := [];
      while true
        invariant Valid()
        invariant PassedOver(frames, |unrelated|, id) && unrelated == frames[..|unrelated|]
        invariant pending == PendingAfter(before, |unrelated|)
        invariant wire == WireAfter(before, lines, |unrelated|)
        decreases |frames| - |unrelated|
      {
        ghost var k := |unrelated|;
        var response := NextOf(before, lines, k);
        if response.None? {
          StopAtUnique(frames, id, k);
          return Failed;
        }
        if response.value.requestId == id {
          StopAtUnique(frames, id, k);
          pending := pending + unrelated;
          return Answered(response.value.payload);
        }
        PassedNext(frames, k, id);
        unrelated := unrelated + [response.value];
      }
    }

    /** The next frame of a client that has read `k` of its frames. */
    method NextOf(ghost before: seq<Envelope<P>>, ghost lines: seq<Envelope<P>>, ghost k: nat)
      returns (frame: Option<Envelope<P>>)
      requires Valid() && pending == PendingAfter(before, k) && wire == WireAfter(before, lines, k)
               && k <= |before + lines|
      modifies this
      ensures Valid() && pending == PendingAfter(before, k + 1) && wire == WireAfter(before, lines, k + 1)
      ensures frame.Some? ==> k < |before + lines| && frame.value == (before + lines)[k] && frame.value.compatible
      ensures frame.None? ==> pending == [] && (k < |before + lines| ==> !(before + lines)[k].compatible)
    {
      FrameTaken(before, lines, k);
      frame := NextResponse();
    }
  }

  /** What the next frame is, and what is left after it. */
  lemma FrameTaken<P(!new)>(pending: seq<Envelope<P>>, wire: seq<Envelope<P>>, k: nat)
    ensures k < |pending + wire| ==> (pending + wire)[..k + 1] == (pending + wire)[..k] + [(pending + wire)[k]]
    ensures PendingAfter(pending, k) != [] ==>
              && k < |pending + wire| && PendingAfter(pending, k)[0] == (pending + wire)[k]
              && PendingAfter(pending, k)[1..] == PendingAfter(pending, k + 1)
              && WireAfter(pending, wire, k + 1) == WireAfter(pending, wire, k)
    ensures PendingAfter(pending, k) == [] && WireAfter(pending, wire, k) != [] ==>
              && k < |pending + wire| && WireAfter(pending, wire, k)[0] == (pending + wire)[k]
              && WireAfter(pending, wire, k)[1..] == WireAfter(pending, wire, k + 1)
              && PendingAfter(pending, k + 1) == []
    ensures PendingAfter(pending, k) == [] && WireAfter(pending, wire, k) == [] ==>
              |pending + wire| <= k && PendingAfter(pending, k + 1) == [] && WireAfter(pending, wire, k + 1) == []
  {
  }

  /** What is left of the set-aside frames once `k` frames have been taken. */
  function PendingAfter<P>(pending: seq<Envelope<P>>, k: nat): seq<Envelope<P>> {
    if k <= |pending| then pending[k..] else []
  }

  /** What is left of the wire once `k` frames have been taken, set-aside ones first. */
  function WireAfter<P>(pending: seq<Envelope<P>>, wire: seq<Envelope<P>>, k: nat): seq<Envelope<P>> {
    if k <= |pending| then wire else if k - |pending| <= |wire| then wire[k - |pending|..] else []
  }

  /** What is still to be processed after the answer to `id` has been taken. */
  function Remaining<P(!new)>(pending: seq<Envelope<P>>, wire: seq<Envelope<P>>, id: RequestId): seq<Envelope<P>> {
    var k := StopAt(pending + wire, id);
    PendingAfter(pending, k + 1) + (pending + wire)[..k] + WireAfter(pending, wire, k + 1)
  }

  lemma AnswerOnWire<P(!new)>(pending: seq<Envelope<P>>, wire: seq<Envelope<P>>, id: RequestId)
    requires |pending| <= StopAt(pending + wire, id) < |pending + wire|
    ensures var k := StopAt(pending + wire, id);
            Remaining(pending, wire, id) == (pending + wire)[..k] + (pending + wire)[k + 1..]
  {
  }

  lemma AnswerSetAside<P(!new)>(pending: seq<Envelope<P>>, wire: seq<Envelope<P>>, id: RequestId)
    requires StopAt(pending + wire, id) < |pending|
    ensures var k := StopAt(pending + wire, id);
            && Remaining(pending, wire, id) == pending[k + 1..] + pending[..k] + wire
            && (pending + wire)[..k] + (pending + wire)[k + 1..] == pending[..k] + (pending[k + 1..] + wire)
  {
    var k := StopAt(pending + wire, id);
    assert (pending + wire)[..k] == pending[..k];
    assert (pending + wire)[k + 1..] == pending[k + 1..] + wire;
  }

  /** Two parts change places exactly when one of them is empty. */
  lemma Rotation<T>(a: seq<T>, b: seq<T>, w: seq<T>, moved: seq<T>, kept: seq<T>)
    requires forall x :: x in a ==> x !in b
    requires moved == b + a + w && kept == a + (b + w)
    ensures moved == kept <==> a == [] || b == []
    ensures multiset(moved) == multiset(kept)
  {
    if a != [] && b != [] {
      assert moved[0] == b[0] && kept[0] == a[0];
      assert a[0] in a && b[0] in b;
    }
  }

  ghost predicate OrderKept<P(!new)>(pending: seq<Envelope<P>>, wire: seq<Envelope<P>>, id: RequestId)
    requires StopAt(pending + wire, id) < |pending + wire|
  {
    var k := StopAt(pending + wire, id);
    var rest := (pending + wire)[..k] + (pending + wire)[k + 1..];
    && multiset(Remaining(pending, wire, id)) == multiset(rest)
    && (Remaining(pending, wire, id) == rest <==> k == 0 || |pending| <= k + 1)
  }

  lemma SetAsideOrderKept<P(!new)>(pending: seq<Envelope<P>>, wire: seq<Envelope<P>>, id: RequestId)
    requires NoDup(pending) && StopAt(pending + wire, id) < |pending|
    ensures OrderKept(pending, wire, id)
  {
    var k := StopAt(pending + wire, id);
    AnswerSetAside(pending, wire, id);
    PartsDisjoint(pending, k);
    Rotation(pending[..k], pending[k + 1..], wire, Remaining(pending, wire, id),
             (pending + wire)[..k] + (pending + wire)[k + 1..]);
  }

  lemma PartsDisjoint<T>(s: seq<T>, k: nat)
    requires NoDup(s) && k < |s|
    ensures forall x :: x in s[..k] ==> x !in s[k + 1..]
    ensures (s[..k] == [] <==> k == 0) && (s[k + 1..] == [] <==> |s| <= k + 1)
  {
  }

  /**
   Nothing is lost or duplicated around an answer, and nothing is reordered exactly when the answer was
   not set aside between two other frames.
   */
  lemma AnswerKeepsOrder<P(!new)>(pending: seq<Envelope<P>>, wire: seq<Envelope<P>>, id: RequestId)
    requires NoDup(pending) && StopAt(pending + wire, id) < |pending + wire|
    ensures var k := StopAt(pending + wire, id);
            var rest := (pending + wire)[..k] + (pending + wire)[k + 1..];
            && multiset(Remaining(pending, wire, id)) == multiset(rest)
            && (Remaining(pending, wire, id) == rest <==> k == 0 || |pending| <= k + 1)
  {
    if StopAt(pending + wire, id) < |pending| {
      SetAsideOrderKept(pending, wire, id);
    } else {
      AnswerOnWire(pending, wire, id);
    }
  }
}
