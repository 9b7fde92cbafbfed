/** A turn's answer does not depend on where, or whether, it is cancelled, as long as the interruption is granted. */
module TurnCancellation {
  import opened AppServer
  import opened Sequences

  lemma LinesNext(m: Message, rest: seq<Message>)
    ensures Lines([m] + rest) == [Valid(m)] + Lines(rest)
  {
  }

  /** Waiting for a reply takes it out of the stream and loses, adds and reorders nothing else. */
  lemma {:induction false} ReplyTakenOut(lines: seq<Line>, id: nat)
    requires NextReply(lines, id).Got?
    ensures var r := NextReply(lines, id);
            && lines == Lines(r.skipped) + [Valid(r.message)] + r.rest
            && r.message.id == Some(id)
            && forall m :: m in r.skipped ==> m.id != Some(id)
  {
    var m := lines[0].message;
    if m.id == Some(id) {
      assert Lines([]) == [];
    } else {
      ReplyTakenOut(lines[1..], id);
      LinesNext(m, NextReply(lines[1..], id).skipped);
      assert lines == [Valid(m)] + lines[1..];
    }
  }

  /** The reply at `k` is the first message with the id, every line before it can be read, and it is no error. */
  predicate GrantedAt(lines: seq<Line>, id: nat, k: nat) {
    && k < |lines| && lines[k].Valid? && lines[k].message.id == Some(id) && !lines[k].message.failed
    && forall i :: 0 <= i < k ==> lines[i].Valid? && lines[i].message.id != Some(id)
  }

  lemma GrantedNext(lines: seq<Line>, id: nat, k: nat)
    requires lines != [] && lines[0].Valid? && lines[0].message.id != Some(id)
    ensures GrantedAt(lines, id, k + 1) <==> GrantedAt(lines[1..], id, k)
  {
    if GrantedAt(lines, id, k + 1) {
      assert forall i :: 0 <= i <= k ==> lines[1..][i] == lines[i + 1];
    }
    if GrantedAt(lines[1..], id, k) {
      assert forall i :: 0 < i <= k + 1 ==> lines[i] == lines[1..][i - 1];
    }
  }

  lemma {:induction false} GrantedIsAnswered(lines: seq<Line>, id: nat, k: nat)
    requires GrantedAt(lines, id, k)
    ensures Answered(NextReply(lines, id))
    ensures NextReply(lines, id).message == lines[k].message && NextReply(lines, id).rest == lines[k + 1..]
    decreases k
  {
    if k > 0 {
      GrantedNext(lines, id, k - 1);
      GrantedIsAnswered(lines[1..], id, k - 1);
      assert lines[1..][k..] == lines[k + 1..];
    }
  }

  lemma {:induction false} AnsweredIsGranted(lines: seq<Line>, id: nat) returns (k: nat)
    requires Answered(NextReply(lines, id))
    ensures GrantedAt(lines, id, k)
  {
    if lines[0].message.id == Some(id) {
      k := 0;
    } else {
      var j := AnsweredIsGranted(lines[1..], id);
      GrantedNext(lines, id, j);
      k := j + 1;
    }
  }

  /** A request is granted exactly when such a reply comes, and that is the one it gets. */
  lemma AnsweredExactly(lines: seq<Line>, id: nat)
    ensures Answered(NextReply(lines, id)) <==> exists k: nat :: GrantedAt(lines, id, k)
    ensures forall k: nat :: GrantedAt(lines, id, k) ==>
                               && NextReply(lines, id).message == lines[k].message
                               && NextReply(lines, id).rest == lines[k + 1..]
  {
    forall k: nat | GrantedAt(lines, id, k)
      ensures Answered(NextReply(lines, id)) && NextReply(lines, id).message == lines[k].message
              && NextReply(lines, id).rest == lines[k + 1..]
    {
      GrantedIsAnswered(lines, id, k);
    }
    if Answered(NextReply(lines, id)) {
      var k := AnsweredIsGranted(lines, id);
    }
  }

  /** The place of the reply that an interruption consumes. */
  function ReplyAt(arrivals: seq<Line>, id: nat, asked: nat): nat
    requires asked <= |arrivals|
  {
    asked + |NextReply(arrivals[asked..], id).skipped|
  }

  /** A granted interruption removes one line from what the turn is delivered, and that line is its reply. */
  lemma InterruptionRemovesItsReply(arrivals: seq<Line>, id: nat, asked: nat)
    requires asked <= |arrivals| && !Refused(arrivals, id, true, asked)
    ensures var r := ReplyAt(arrivals, id, asked);
            && asked <= r < |arrivals| && arrivals[r].Valid? && arrivals[r].message.id == Some(id)
            && TurnLines(arrivals, id, true, asked) == arrivals[..r] + arrivals[r + 1..]
  {
    var reply := NextReply(arrivals[asked..], id);
    ReplyTakenOut(arrivals[asked..], id);
    MiddleOut(arrivals, asked, Lines(reply.skipped), Valid(reply.message), reply.rest);
  }

  lemma MiddleOut<T>(all: seq<T>, n: nat, a: seq<T>, x: T, b: seq<T>)
    requires n <= |all| && all[n..] == a + [x] + b
    ensures n + |a| < |all| && all[n + |a|] == x
    ensures all[..n] + a + b == all[..n + |a|] + all[n + |a| + 1..]
  {
    assert all[n..][|a|] == x;
    assert all[n..][..|a|] == a && all[n..][|a| + 1..] == b;
    assert all[..n] + a == all[..n + |a|];
  }

  lemma Surrounded<T>(all: seq<T>, r: nat)
    requires r < |all|
    ensures all == all[..r] + [all[r]] + all[r + 1..]
  {
  }

  // ---------- the answer ----------

  lemma {:induction false} DeltasJoin(a: seq<Line>, b: seq<Line>)
    ensures Deltas(a + b) == Deltas(a) + Deltas(b)
  {
    if b == [] {
      assert a + b == a;
    } else {
      var last := |b| - 1;
      DeltasJoin(a, b[..last]);
      assert (a + b)[..|a + b| - 1] == a + b[..last];
    }
  }

  ghost predicate SameAnswer(a: Outcome, b: Outcome) {
    && a.Completed? == b.Completed?
    && (a.Completed? ==> a.completion == b.completion && a.text == b.text)
  }

  ghost predicate Quiet(lines: seq<Line>, turnId: string) {
    forall i :: 0 <= i < |lines| ==> !Ends(lines[i], turnId)
  }

  lemma EndAfter(a: seq<Line>, b: seq<Line>, turnId: string)
    requires Quiet(a, turnId)
    ensures EndOf(a + b, turnId) == |a| + EndOf(b, turnId)
  {
    EndAt(a + b, turnId, |a| + EndOf(b, turnId));
  }

  lemma AnswerAfter(a: seq<Line>, b: seq<Line>, turnId: string)
    requires Quiet(a, turnId) && Expected(b, turnId).Completed?
    ensures Expected(a + b, turnId).Completed?
    ensures Expected(a + b, turnId).completion == Expected(b, turnId).completion
    ensures Expected(a + b, turnId).text ==
            FinalText(Deltas(a) + Deltas(b[..EndOf(b, turnId)]), Expected(b, turnId).completion)
  {
    EndAfter(a, b, turnId);
    var k := EndOf(b, turnId);
    assert (a + b)[..|a| + k] == a + b[..k];
    DeltasJoin(a, b[..k]);
  }

  lemma EndsEarly(a: seq<Line>, b: seq<Line>, turnId: string)
    requires !Quiet(a, turnId)
    ensures EndOf(a + b, turnId) == EndOf(a, turnId) < |a|
    ensures SameAnswer(Expected(a + b, turnId), Expected(a, turnId))
  {
    EndAt(a + b, turnId, EndOf(a, turnId));
    assert (a + b)[..EndOf(a, turnId)] == a[..EndOf(a, turnId)];
  }

  lemma QuietNext(a: seq<Line>, m: Message, turnId: string)
    requires Quiet(a, turnId) && !Completes(m, turnId)
    ensures Quiet(a + [Valid(m)], turnId)
    ensures Deltas(a + [Valid(m)]) == Deltas(a) + DeltaOf(m)
  {
    assert (a + [Valid(m)])[..|a|] == a;
  }

  lemma CompletesAfter(a: seq<Line>, b: seq<Line>, turnId: string)
    requires Quiet(a, turnId)
    ensures Expected(a + b, turnId).Completed? == Expected(b, turnId).Completed?
  {
    EndAfter(a, b, turnId);
  }

  /** The agent text up to the end of the turn. */
  function TextOf(lines: seq<Line>, turnId: string): string {
    Deltas(lines[..EndOf(lines, turnId)])
  }

  /** More text leaves the answer alone: it is none, or it is all there is and the completion's own. */
  predicate AddsNothing(text: string, more: string, completion: Message) {
    more == [] || (text == [] && more == completion.text)
  }

  lemma AddsNothingExactly(a: string, more: string, b: string, completion: Message)
    ensures FinalText(a + more + b, completion) == FinalText(a + b, completion) <==>
            AddsNothing(a + b, more, completion)
  {
    assert |a + more + b| == |a + b| + |more|;
    if more == [] {
      assert a + more == a;
    } else if a + b == [] {
      assert a + more + b == more;
    }
  }

  /** What a turn that goes on after `a` answers. */
  lemma GoesOn(a: seq<Line>, b: seq<Line>, turnId: string)
    requires Quiet(a, turnId)
    ensures var e := Expected(b, turnId);
            && Expected(a + b, turnId).Completed? == e.Completed?
            && (e.Completed? ==>
                  && Expected(a + b, turnId).completion == e.completion
                  && Expected(a + b, turnId).text == FinalText(Deltas(a) + TextOf(b, turnId), e.completion))
  {
    CompletesAfter(a, b, turnId);
    if Expected(b, turnId).Completed? {
      AnswerAfter(a, b, turnId);
    }
  }

  /** What a turn answers that completes right after `a`. */
  lemma CompletesAtOnce(a: seq<Line>, m: Message, b: seq<Line>, turnId: string)
    requires Quiet(a, turnId) && Completes(m, turnId)
    ensures var e := Expected(a + [Valid(m)] + b, turnId);
            e.Completed? && e.completion == m && e.text == FinalText(Deltas(a), m)
  {
    var lines := a + [Valid(m)] + b;
    EndAt(lines, turnId, |a|);
    assert lines[|a|] == Valid(m) && lines[..|a|] == a;
  }

  /**
   Leaving the message between `before` and `after` out changes no answer: the turn is over before it, or
   it completes the turn and the same completion follows, or it adds nothing to the text.
   */
  ghost predicate Harmless(before: seq<Line>, m: Message, after: seq<Line>, turnId: string) {
    var rest, text := Expected(after, turnId), TextOf(after, turnId);
    || !Quiet(before, turnId)
    || if Completes(m, turnId) then rest.Completed? && rest.completion == m && AddsNothing(Deltas(before), text, m)
       else rest.Completed? ==> AddsNothing(Deltas(before) + text, DeltaOf(m), rest.completion)
  }

  /** The turn completes with the message. */
  lemma HarmlessCompletion(a: seq<Line>, m: Message, b: seq<Line>, turnId: string)
    requires Quiet(a, turnId) && Completes(m, turnId)
    ensures SameAnswer(Expected(a + b, turnId), Expected(a + [Valid(m)] + b, turnId)) <==> Harmless(a, m, b, turnId)
  {
    CompletesAtOnce(a, m, b, turnId);
    GoesOn(a, b, turnId);
    AddsNothingExactly(Deltas(a), TextOf(b, turnId), [], m);
    assert Deltas(a) + TextOf(b, turnId) + [] == Deltas(a) + TextOf(b, turnId) && Deltas(a) + [] == Deltas(a);
  }

  /** The turn goes on after the message. */
  lemma HarmlessText(a: seq<Line>, m: Message, b: seq<Line>, turnId: string)
    requires Quiet(a, turnId) && !Completes(m, turnId)
    ensures SameAnswer(Expected(a + b, turnId), Expected(a + [Valid(m)] + b, turnId)) <==> Harmless(a, m, b, turnId)
  {
    QuietNext(a, m, turnId);
    GoesOn(a, b, turnId);
    GoesOn(a + [Valid(m)], b, turnId);
    var rest := Expected(b, turnId);
    if rest.Completed? {
      AddsNothingExactly(Deltas(a), DeltaOf(m), TextOf(b, turnId), rest.completion);
    }
  }

  /** The turn is over before the message. */
  lemma HarmlessLater(a: seq<Line>, m: Message, b: seq<Line>, turnId: string)
    requires !Quiet(a, turnId)
    ensures SameAnswer(Expected(a + b, turnId), Expected(a + [Valid(m)] + b, turnId))
  {
    Associative(a, [Valid(m)], b);
    EndsEarly(a, b, turnId);
    EndsEarly(a, [Valid(m)] + b, turnId);
  }

  lemma HarmlessExactly(a: seq<Line>, m: Message, b: seq<Line>, turnId: string)
    ensures SameAnswer(Expected(a + b, turnId), Expected(a + [Valid(m)] + b, turnId)) <==> Harmless(a, m, b, turnId)
  {
    if !Quiet(a, turnId) {
      HarmlessLater(a, m, b, turnId);
    } else if Completes(m, turnId) {
      HarmlessCompletion(a, m, b, turnId);
    } else {
      HarmlessText(a, m, b, turnId);
    }
  }

  /** The reply that a granted interruption consumes can be missed. */
  ghost predicate HarmlessReply(arrivals: seq<Line>, id: nat, asked: nat, turnId: string)
    requires asked <= |arrivals| && !Refused(arrivals, id, true, asked)
  {
    InterruptionRemovesItsReply(arrivals, id, asked);
    var r := ReplyAt(arrivals, id, asked);
    Harmless(arrivals[..r], arrivals[r].message, arrivals[r + 1..], turnId)
  }

  /**
   Interrupted at any point and granted, a turn answers as if it had not been interrupted, exactly when its
   reply can be missed.
   */
  lemma InterruptionKeepsAnswer(arrivals: seq<Line>, id: nat, asked: nat, turnId: string)
    requires asked <= |arrivals| && !Refused(arrivals, id, true, asked)
    ensures SameAnswer(Expected(TurnLines(arrivals, id, true, asked), turnId), Expected(arrivals, turnId)) <==>
            HarmlessReply(arrivals, id, asked, turnId)
  {
    InterruptionRemovesItsReply(arrivals, id, asked);
    var r := ReplyAt(arrivals, id, asked);
    Surrounded(arrivals, r);
    HarmlessExactly(arrivals[..r], arrivals[r].message, arrivals[r + 1..], turnId);
  }

  /** A reply that is neither agent text nor the turn's completion can always be missed. */
  lemma PlainReplyIsHarmless(arrivals: seq<Line>, id: nat, asked: nat, turnId: string)
    requires asked <= |arrivals| && !Refused(arrivals, id, true, asked)
    requires var m := NextReply(arrivals[asked..], id).message; !IsDelta(m) && !Completes(m, turnId)
    ensures HarmlessReply(arrivals, id, asked, turnId)
  {
    var reply := NextReply(arrivals[asked..], id);
    ReplyTakenOut(arrivals[asked..], id);
    MiddleOut(arrivals, asked, Lines(reply.skipped), Valid(reply.message), reply.rest);
  }

  /** The text is what the agent's messages before the turn's completion add, if that is anything. */
  ghost predicate IsAllText(lines: seq<Line>, turnId: string, text: string) {
    exists k: nat, parts: seq<string> ::
      CompletedAt(lines, turnId, k) && Adds(lines[..k], parts) && (Joined(parts) != [] ==> text == Joined(parts))
  }

  lemma AnswerTold(lines: seq<Line>, turnId: string)
    requires Expected(lines, turnId).Completed?
    ensures IsAllText(lines, turnId, Expected(lines, turnId).text)
  {
    ExpectedTells(lines, turnId);
    var k: nat :| EndedAt(lines, turnId, Expected(lines, turnId), k);
  }

  /**
   The answer is the agent text of everything that arrives before the turn's completion, in order, if there is
   any.
   */
  lemma AnswerIsAllText(arrivals: seq<Line>, id: nat, interrupted: bool, asked: nat, turnId: string)
    requires asked <= |arrivals| && !Refused(arrivals, id, interrupted, asked)
    requires interrupted ==> HarmlessReply(arrivals, id, asked, turnId)
    requires Expected(TurnLines(arrivals, id, interrupted, asked), turnId).Completed?
    ensures IsAllText(arrivals, turnId, Expected(TurnLines(arrivals, id, interrupted, asked), turnId).text)
  {
    if interrupted {
      InterruptionKeepsAnswer(arrivals, id, asked, turnId);
    }
    AnswerTold(arrivals, turnId);
  }
}
