/**
 The client of the Codex app-server: one line stream carries replies and
 notifications, and a running turn can be interrupted once.
 */
module AppServer {
  import opened Sequences

  /**
   A decoded message. `name` is the method it names; `delta`, `turnId` and `text` are what is read out of
   its parameters, `startedTurn` is the turn id in its result. A message that names no method is a reply.
   */
  datatype Message = Message(
    id: Option<nat>,
    failed: bool,
    name: Option<string>,
    delta: Option<string>,
    turnId: Option<string>,
    text: string,
    startedTurn: Option<string>)

  datatype Line = Garbled | Valid(message: Message)

  datatype Sent = Sent(name: string, id: nat)

  datatype Outcome = Completed(completion: Message, text: string, events: seq<Message>) | Failed

  /** What the cancellation channel does in one round: its value at the top, and whether its change is selected. */
  datatype Poll = Poll(cancelled: bool, wakes: bool)

  datatype Event = Arrived(message: Message) | CancellationRequested | Lost

  const EVENTS: nat := 512

  function Lines(messages: seq<Message>): seq<Line> {
    Map(messages, (m: Message) => Valid(m))
  }

  // ---------- requests ----------

  datatype Reply =
    | Got(skipped: seq<Message>, message: Message, rest: seq<Line>)
    | Broken(skipped: seq<Message>, rest: seq<Line>)
    | Closed(skipped: seq<Message>)

  function AfterSkipping(before: seq<Message>, reply: Reply): Reply {
    reply.(skipped := before + reply.skipped)
  }

  lemma SkipOne(before: seq<Message>, m: Message, reply: Reply)
    ensures AfterSkipping(before, AfterSkipping([m], reply)) == AfterSkipping(before + [m], reply)
  {
    Associative(before, [m], reply.skipped);
  }

  /** The first message with the id, the messages before it, and what follows. */
  function NextReply(lines: seq<Line>, id: nat): Reply {
    if lines == [] then Closed([])
    else
      match lines[0]
      case Garbled => Broken([], lines[1..])
      case Valid(m) =>
        if m.id == Some(id) then Got([], m, lines[1..]) else AfterSkipping([m], NextReply(lines[1..], id))
  }

  function Left(reply: Reply): seq<Line> {
    match reply
    case Got(_, _, rest) => rest
    case Broken(_, rest) => rest
    case Closed(_) => []
  }

  predicate Answered(reply: Reply) {
    reply.Got? && !reply.message.failed
  }

  // ---------- a turn ----------

  predicate IsDelta(m: Message) {
    m.name == Some("item/agentMessage/delta")
  }

  predicate Completes(m: Message, turnId: string) {
    m.name == Some("turn/completed") && (m.turnId.None? || m.turnId == Some(turnId))
  }

  function DeltaOf(m: Message): string {
    if IsDelta(m) && m.delta.Some? then m.delta.value else []
  }

  /** The agent text in the messages, in order of arrival. */
  function Deltas(lines: seq<Line>): string {
    if lines == [] then []
    else
      var last := |lines| - 1;
      Deltas(lines[..last]) + if lines[last].Valid? then DeltaOf(lines[last].message) else []
  }

  function Messages(lines: seq<Line>): seq<Message> {
    if lines == [] then []
    else
      var last := |lines| - 1;
      Messages(lines[..last]) + if lines[last].Valid? then [lines[last].message] else []
  }

  predicate Ends(line: Line, turnId: string) {
    line.Garbled? || Completes(line.message, turnId)
  }

  /** Where the turn ends: the first line that cannot be read or completes it. */
  function EndOf(lines: seq<Line>, turnId: string): (k: nat)
    ensures k <= |lines|
    ensures k < |lines| ==> Ends(lines[k], turnId)
    ensures forall i :: 0 <= i < k ==> !Ends(lines[i], turnId)
  {
    if lines == [] || Ends(lines[0], turnId) then 0 else 1 + EndOf(lines[1..], turnId)
  }

  function FinalText(answer: string, completion: Message): string {
    if answer == [] then completion.text else answer
  }

  /** What a turn returns that is delivered `lines`. */
  function Expected(lines: seq<Line>, turnId: string): Outcome {
    var k := EndOf(lines, turnId);
    if k == |lines| || lines[k].Garbled? then Failed
    else Completed(lines[k].message, FinalText(Deltas(lines[..k]), lines[k].message),
                   Take(Messages(lines[..k + 1]), EVENTS))
  }

  /** The lines a turn is delivered when it interrupts after having read `asked` of the arrivals. */
  function Delivered(arrivals: seq<Line>, asked: nat, id: nat): seq<Line>
    requires asked <= |arrivals|
  {
    var reply := NextReply(arrivals[asked..], id);
    arrivals[..asked] + Lines(reply.skipped) + Left(reply)
  }

  /** The server did not grant the interruption asked for. */
  predicate Refused(arrivals: seq<Line>, id: nat, interrupted: bool, asked: nat) {
    interrupted && asked <= |arrivals| && !Answered(NextReply(arrivals[asked..], id))
  }

  /** The lines that a turn is delivered, interrupted or not. */
  function TurnLines(arrivals: seq<Line>, id: nat, interrupted: bool, asked: nat): seq<Line> {
    if interrupted && asked <= |arrivals| then Delivered(arrivals, asked, id) else arrivals
  }

  lemma {:induction false} ReplyLength(lines: seq<Line>, id: nat)
    ensures |NextReply(lines, id).skipped| + |Left(NextReply(lines, id))| <= |lines|
  {
    if lines != [] && lines[0].Valid? && lines[0].message.id != Some(id) {
      ReplyLength(lines[1..], id);
    }
  }

  /** Interrupting while messages are still queued leaves them in front of those that come before the reply. */
  lemma AskingPoint(done: seq<Line>, queued: seq<Message>, lines: seq<Line>, id: nat)
    ensures var arrivals, asked, r := done + (Lines(queued) + lines), |done| + |queued|, NextReply(lines, id);
            && asked <= |arrivals| && arrivals[asked..] == lines
            && Delivered(arrivals, asked, id) == done + (Lines(queued + r.skipped) + Left(r))
  {
    var arrivals, asked, r := done + (Lines(queued) + lines), |done| + |queued|, NextReply(lines, id);
    Associative(done, Lines(queued), lines);
    assert arrivals[..asked] == done + Lines(queued);
    assert Lines(queued + r.skipped) == Lines(queued) + Lines(r.skipped);
    Associative(Lines(queued), Lines(r.skipped), Left(r));
    Associative(done, Lines(queued), Lines(r.skipped) + Left(r));
    Associative(done + Lines(queued), Lines(r.skipped), Left(r));
  }

  /** The state of a turn that has been delivered `done` and goes on. */
  ghost predicate Running(done: seq<Line>, turnId: string, answer: string, events: seq<Message>) {
    && (forall i :: 0 <= i < |done| ==> !Ends(done[i], turnId))
    && answer == Deltas(done)
    && events == Take(Messages(done), EVENTS)
  }

  lemma RunningNext(done: seq<Line>, turnId: string, answer: string, events: seq<Message>, m: Message)
    requires Running(done, turnId, answer, events) && !Completes(m, turnId)
    ensures Running(done + [Valid(m)], turnId, answer + DeltaOf(m), if |events| < EVENTS then events + [m] else events)
  {
    assert (done + [Valid(m)])[..|done|] == done;
  }

  lemma {:induction false} EndAt(lines: seq<Line>, turnId: string, k: nat)
    requires k <= |lines| && (k < |lines| ==> Ends(lines[k], turnId))
    requires forall i :: 0 <= i < k ==> !Ends(lines[i], turnId)
    ensures EndOf(lines, turnId) == k
  {
  }

  /** The line after `done` ends the turn. */
  lemma Finishes(done: seq<Line>, rest: seq<Line>, turnId: string, answer: string, events: seq<Message>)
    requires Running(done, turnId, answer, events)
    requires rest != [] ==> Ends(rest[0], turnId)
    ensures EndOf(done + rest, turnId) == |done|
    ensures Expected(done + rest, turnId) ==
            if rest == [] || rest[0].Garbled? then Failed
            else Completed(rest[0].message, FinalText(answer, rest[0].message),
                           if |events| < EVENTS then events + [rest[0].message] else events)
  {
    var lines := done + rest;
    EndAt(lines, turnId, |done|);
    assert lines[..|done|] == done;
    if rest != [] {
      assert lines[..|done| + 1] == done + [rest[0]];
      assert (done + [rest[0]])[..|done|] == done;
    }
  }

  /** There is no readable line after `done`. */
  predicate Stuck(lines: seq<Line>, done: seq<Line>) {
    done <= lines && (|done| < |lines| ==> lines[|done|].Garbled?)
  }

  lemma StuckFails(lines: seq<Line>, done: seq<Line>, turnId: string)
    requires forall i :: 0 <= i < |done| ==> !Ends(done[i], turnId)
    ensures Stuck(lines, done) ==> Expected(lines, turnId) == Failed
  {
    if Stuck(lines, done) {
      EndAt(lines, turnId, |done|);
    }
  }

  lemma NextLine(done: seq<Line>, m: Message, rest: seq<Line>)
    ensures done + ([Valid(m)] + rest) == (done + [Valid(m)]) + rest
    ensures (done + ([Valid(m)] + rest))[|done| + 1..] == rest
  {
  }

  // ---------- what a turn's outcome tells ----------

  /** The message says that this turn, or a turn it does not name, is completed. */
  predicate SaysCompleted(m: Message, turnId: string) {
    m.name == Some("turn/completed") && m.turnId in {None, Some(turnId)}
  }

  /** The line at `k` is the first that completes the turn, and all before it can be read. */
  ghost predicate CompletedAt(lines: seq<Line>, turnId: string, k: nat) {
    && k < |lines| && lines[k].Valid? && SaysCompleted(lines[k].message, turnId)
    && forall i :: 0 <= i < k ==> lines[i].Valid? && !SaysCompleted(lines[i].message, turnId)
  }

  function Joined(parts: seq<string>): string {
    if parts == [] then [] else Joined(parts[..|parts| - 1]) + parts[|parts| - 1]
  }

  /** What each of the lines adds to the agent's text. */
  ghost predicate Adds(lines: seq<Line>, parts: seq<string>) {
    && |parts| == |lines|
    && forall i :: 0 <= i < |lines| ==>
         parts[i] == match lines[i]
                     case Garbled => []
                     case Valid(m) =>
                       if m.name == Some("item/agentMessage/delta") && m.delta != None then m.delta.value else []
  }

  /** The messages of the lines, the first 512 of them. */
  ghost predicate FirstMessages(lines: seq<Line>, events: seq<Message>) {
    && |events| == (if |lines| > 512 then 512 else |lines|)
    && forall i :: 0 <= i < |events| ==> lines[i] == Valid(events[i])
  }

  /** The outcome of a turn that was delivered `lines` and ended at `k`. */
  ghost predicate EndedAt(lines: seq<Line>, turnId: string, outcome: Outcome, k: nat) {
    && outcome.Completed? && CompletedAt(lines, turnId, k)
    && outcome.completion == lines[k].message
    && FirstMessages(lines[..k + 1], outcome.events)
    && exists parts ::
         && Adds(lines[..k], parts)
         && outcome.text == if Joined(parts) == [] then outcome.completion.text else Joined(parts)
  }

  /**
   A turn completes with the first message that says so of this turn, before which every line could be read,
   and its text is what the agent's messages up to there add; without such a message it fails.
   */
  ghost predicate Tells(lines: seq<Line>, turnId: string, outcome: Outcome) {
    if exists k :: CompletedAt(lines, turnId, k) then exists k :: EndedAt(lines, turnId, outcome, k)
    else outcome == Failed
  }

  lemma {:induction false} DeltasAdd(lines: seq<Line>) returns (parts: seq<string>)
    ensures Adds(lines, parts) && Joined(parts) == Deltas(lines)
  {
    if lines == [] {
      parts := [];
    } else {
      var last := |lines| - 1;
      var before := DeltasAdd(lines[..last]);
      parts := before + [if lines[last].Valid? then DeltaOf(lines[last].message) else []];
      assert parts[..last] == before;
    }
  }

  lemma {:induction false} MessagesOf(lines: seq<Line>)
    requires forall i :: 0 <= i < |lines| ==> lines[i].Valid?
    ensures |Messages(lines)| == |lines| && forall i :: 0 <= i < |lines| ==> lines[i] == Valid(Messages(lines)[i])
  {
    if lines != [] {
      MessagesOf(lines[..|lines| - 1]);
    }
  }

  lemma CompletesExactly(m: Message, turnId: string)
    ensures Completes(m, turnId) <==> SaysCompleted(m, turnId)
  {
  }

  lemma EndExactly(lines: seq<Line>, turnId: string, k: nat)
    ensures CompletedAt(lines, turnId, k) <==>
            k == EndOf(lines, turnId) && k < |lines| && lines[k].Valid?
  {
    forall i | 0 <= i < |lines| && lines[i].Valid?
      ensures Ends(lines[i], turnId) <==> SaysCompleted(lines[i].message, turnId)
    {
      CompletesExactly(lines[i].message, turnId);
    }
    if CompletedAt(lines, turnId, k) {
      EndAt(lines, turnId, k);
    }
  }

  lemma ExpectedTells(lines: seq<Line>, turnId: string)
    ensures Tells(lines, turnId, Expected(lines, turnId))
  {
    var k := EndOf(lines, turnId);
    forall j: nat ensures CompletedAt(lines, turnId, j) <==> j == k && k < |lines| && lines[k].Valid? {
      EndExactly(lines, turnId, j);
    }
    if k < |lines| && lines[k].Valid? {
      var parts := DeltasAdd(lines[..k]);
      MessagesOf(lines[..k + 1]);
      assert EndedAt(lines, turnId, Expected(lines, turnId), k);
    }
  }

  /** A turn that was delivered `lines` has this outcome, and `rest` is still to come. */
  ghost predicate FollowedBy(lines: seq<Line>, turnId: string, outcome: Outcome, rest: seq<Line>) {
    && Tells(lines, turnId, outcome) && outcome == Expected(lines, turnId)
    && forall k: nat :: CompletedAt(lines, turnId, k) ==> rest == lines[k + 1..]
  }

  lemma CompletionFollows(
    done: seq<Line>, m: Message, rest: seq<Line>, turnId: string, answer: string, events: seq<Message>)
    requires Running(done, turnId, answer, events) && Completes(m, turnId)
    ensures FollowedBy(done + ([Valid(m)] + rest), turnId,
                       Completed(m, FinalText(answer, m), if |events| < EVENTS then events + [m] else events), rest)
  {
    var lines := done + ([Valid(m)] + rest);
    Finishes(done, [Valid(m)] + rest, turnId, answer, events);
    NextLine(done, m, rest);
    ExpectedTells(lines, turnId);
    forall k: nat | CompletedAt(lines, turnId, k) ensures rest == lines[k + 1..] {
      EndExactly(lines, turnId, k);
    }
  }

  lemma FailureFollows(lines: seq<Line>, done: seq<Line>, turnId: string, rest: seq<Line>)
    requires forall i :: 0 <= i < |done| ==> !Ends(done[i], turnId)
    ensures Stuck(lines, done) ==> FollowedBy(lines, turnId, Failed, rest)
  {
    StuckFails(lines, done, turnId);
    ExpectedTells(lines, turnId);
    forall k: nat ensures Stuck(lines, done) ==> !CompletedAt(lines, turnId, k) {
      EndExactly(lines, turnId, k);
    }
  }

  // ---------- the client ----------

  class Client {
    var nextId: nat
    /** Messages read while a reply was awaited, oldest first. */
    var notifications: seq<Message>
    /** The lines the server will write; end of input follows them. */
    var stdout: seq<Line>
    var sent: seq<Sent>

    constructor (stdout: seq<Line>)
      ensures nextId == 1 && notifications == [] && this.stdout == stdout && sent == []
    {
      nextId, notifications, sent := 1, [], [];
      this.stdout := stdout;
    }

    /** Everything that has arrived or will arrive, in order. */
    ghost function Arrivals(): seq<Line>
      reads this
    {
      Lines(notifications) + stdout
    }

    /** The outcome is what the delivered lines say, and what follows the turn's end is still to come. */
    ghost predicate Followed(delivered: seq<Line>, turnId: string, outcome: Outcome)
      reads this
    {
      FollowedBy(delivered, turnId, outcome, Arrivals())
    }

    /** Sends a request and reads up to its reply; what comes before is queued. */
    method Request(name: string) returns (reply: Option<Message>)
      modifies this
      ensures nextId == old(nextId) + 1 && sent == old(sent) + [Sent(name, old(nextId))]
      ensures var r := NextReply(old(stdout), old(nextId));
              && notifications == old(notifications) + r.skipped
              && stdout == Left(r)
              && reply == if Answered(r) then Some(r.message) else None
    {
      var id := nextId;
      nextId := nextId + 1;
      sent := sent + [Sent(name, id)];
      ghost var before, lines := notifications, stdout;
      ghost var skipped: seq<Message> := [];
      while stdout != []
        invariant nextId == id + 1 && sent == old(sent) + [Sent(name, id)]
        invariant notifications == before + skipped
        invariant NextReply(lines, id) == AfterSkipping(skipped, NextReply(stdout, id))
        decreases |stdout|
      {
        var line := stdout[0];
        stdout := stdout[1..];
        if line.Garbled? {
          return None;
        }
        if line.message.id != Some(id) {
          notifications := notifications + [line.message];
          SkipOne(skipped, line.message, NextReply(stdout, id));
          skipped := skipped + [line.message];
          continue;
        }
        return if line.message.failed then None else Some(line.message);
      }
      return None;
    }

    /** Takes the next queued message, or waits for a line or a cancellation. */
    method NextMessageOrCancellation(wakes: bool) returns (event: Event)
      modifies this
      ensures nextId == old(nextId) && sent == old(sent)
      ensures match event
              case Arrived(m) => old(Arrivals()) == [Valid(m)] + Arrivals()
              case CancellationRequested => wakes && old(notifications) == [] && Arrivals() == old(Arrivals())
                                            && notifications == [] && stdout == old(stdout)
              case Lost => (old(Arrivals()) == [] || old(Arrivals())[0].Garbled?)
                           && Arrivals() == if old(Arrivals()) == [] then [] else old(Arrivals())[1..]
      ensures |notifications| + |stdout| <= old(|notifications| + |stdout|) - (if event.Arrived? then 1 else 0)
    {
      if notifications != [] {
        event := Arrived(notifications[0]);
        notifications := notifications[1..];
        assert old(Arrivals()) == [Valid(event.message)] + Arrivals();
        return;
      }
      if wakes {
        return CancellationRequested;
      }
      if stdout == [] {
        return Lost;
      }
      var line := stdout[0];
      if line.Garbled? {
        stdout := stdout[1..];
        assert old(Arrivals()) == [line] + Arrivals();
        return Lost;
      }
      event := Arrived(line.message);
      stdout := stdout[1..];
      assert old(Arrivals()) == [Valid(event.message)] + Arrivals();
    }

    /** Asks the server to interrupt the turn, having delivered `done` of the arrivals. */
    method Interrupt(ghost arrivals: seq<Line>, ghost done: seq<Line>) returns (ok: bool, ghost asked: nat)
      requires arrivals == done + Arrivals()
      modifies this
      ensures nextId == old(nextId) + 1 && sent == old(sent) + [Sent("turn/interrupt", old(nextId))]
      ensures asked <= |arrivals| && ok == Answered(NextReply(arrivals[asked..], old(nextId)))
      ensures Delivered(arrivals, asked, old(nextId)) == done + Arrivals()
      ensures |notifications| + |stdout| <= old(|notifications| + |stdout|)
    {
      ghost var queued, lines, id := notifications, stdout, nextId;
      asked := |done| + |queued|;
      AskingPoint(done, queued, lines, id);
      ReplyLength(lines, id);
      var reply := Request("turn/interrupt");
      ok := reply.Some?;
    }

    /**
     Runs a turn under any behaviour of the cancellation channel. `asked` is the number of arrivals read
     when the interruption was requested.
     */
    method RunTurn(polls: seq<Poll>) returns (outcome: Outcome, interrupted: bool, ghost asked: nat)
      modifies this
      ensures sent == old(sent) + [Sent("turn/start", old(nextId))]
                      + if interrupted then [Sent("turn/interrupt", old(nextId) + 1)] else []
      ensures var start := NextReply(old(stdout), old(nextId));
              var arrivals := Lines(old(notifications) + start.skipped) + Left(start);
              if !Answered(start) || start.message.startedTurn.None? then outcome == Failed && !interrupted
              else
                var turnId := start.message.startedTurn.value;
                && asked <= |arrivals|
                && if Refused(arrivals, old(nextId) + 1, interrupted, asked) then outcome == Failed
                   else Followed(TurnLines(arrivals, old(nextId) + 1, interrupted, asked), turnId, outcome)
    {
      var started := Request("turn/start");
      if started.None? || started.value.startedTurn.None? {
        return Failed, false, 0;
      }
      outcome, interrupted, asked := FollowTurn(polls, started.value.startedTurn.value);
    }

    /** The turn goes on: `done` of its lines are delivered and the others still come. */
    ghost predicate GoesOn(arrivals: seq<Line>, id: nat, interrupted: bool, asked: nat, done: seq<Line>)
      reads this
    {
      && asked <= |arrivals|
      && (!interrupted ==> nextId == id)
      && !Refused(arrivals, id, interrupted, asked)
      && TurnLines(arrivals, id, interrupted, asked) == done + Arrivals()
    }

    /** One round: interrupts if cancelled and not yet done, and takes the next message if there is one. */
    method NextOfTurn(
      poll: Poll, was: bool, ghost arrivals: seq<Line>, ghost id: nat, ghost at: nat, ghost done: seq<Line>)
      returns (event: Event, interrupted: bool, ghost asked: nat)
      requires GoesOn(arrivals, id, was, at, done)
      modifies this
      ensures was ==> interrupted && asked == at
      ensures sent == old(sent) + if interrupted && !was then [Sent("turn/interrupt", id)] else []
      ensures asked <= |arrivals|
      ensures |notifications| + |stdout| <= old(|notifications| + |stdout|) - (if event.Arrived? then 1 else 0)
      ensures event.CancellationRequested? ==> poll.wakes && GoesOn(arrivals, id, interrupted, asked, done)
      ensures event.Arrived? ==> GoesOn(arrivals, id, interrupted, asked, done + [Valid(event.message)])
      ensures event.Lost? ==> Refused(arrivals, id, interrupted, asked)
                              || Stuck(TurnLines(arrivals, id, interrupted, asked), done)
    {
      interrupted, asked := was, at;
      if poll.cancelled && !interrupted {
        var ok;
        ok, asked := Interrupt(arrivals, done);
        interrupted := true;
        if !ok {
          return Lost, interrupted, asked;
        }
      }
      ghost var coming := Arrivals();
      event := NextMessageOrCancellation(poll.wakes);
      match event
      case CancellationRequested =>
        if !interrupted {
          var ok;
          ok, asked := Interrupt(arrivals, done);
          interrupted := true;
          if !ok {
            return Lost, interrupted, asked;
          }
        }
      case Arrived(m) =>
        NextLine(done, m, Arrivals());
      case Lost =>
        assert Stuck(done + coming, done);
    }

    /** The loop that follows a started turn to its end. */
    method FollowTurn(polls: seq<Poll>, turnId: string) returns (outcome: Outcome, interrupted: bool, ghost asked: nat)
      modifies this
      ensures sent == old(sent) + if interrupted then [Sent("turn/interrupt", old(nextId))] else []
      ensures asked <= |old(Arrivals())|
      ensures if Refused(old(Arrivals()), old(nextId), interrupted, asked) then outcome == Failed
              else Followed(TurnLines(old(Arrivals()), old(nextId), interrupted, asked), turnId, outcome)
    {
      ghost var id, arrivals, done: seq<Line> := nextId, Arrivals(), [];
      interrupted, asked := false, 0;
      var answer: string := [];
      var events: seq<Message> := [];
      var i := 0;
      while true
        invariant i <= |polls|
        invariant sent == old(sent) + if interrupted then [Sent("turn/interrupt", id)] else []
        invariant GoesOn(arrivals, id, interrupted, asked, done)
        invariant Running(done, turnId, answer, events)
        decreases |polls| - i + |notifications| + |stdout|
      {
        var poll := if i < |polls| then polls[i] else Poll(false, false);
        i := if i < |polls| then i + 1 else i;
        var event;
        event, interrupted, asked := NextOfTurn(poll, interrupted, arrivals, id, asked, done);
        match event
        case CancellationRequested =>
        case Lost =>
          FailureFollows(TurnLines(arrivals, id, interrupted, asked), done, turnId, Arrivals());
          return Failed, interrupted, asked;
        case Arrived(m) =>
          ghost var said, seen := answer, events;
          if |events| < EVENTS {
            events := events + [m];
          }
          if IsDelta(m) {
            if m.delta.Some? {
              answer := answer + m.delta.value;
            }
          } else if Completes(m, turnId) {
            CompletionFollows(done, m, Arrivals(), turnId, said, seen);
            NextLine(done, m, Arrivals());
            outcome := Completed(m, if answer == [] then m.text else answer, events);
            return outcome, interrupted, asked;
          }
          RunningNext(done, turnId, said, seen, m);
          done := done + [Valid(m)];
      }
    }
  }
}
