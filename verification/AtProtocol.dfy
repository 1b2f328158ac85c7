/** The command protocol of huawei_tgm/atchannel.c between one issuing thread, the reader
thread and a closing thread.  One event is one section under s_commandmutex: the wait on the
condition variable gives the lock up, so a command spans several events. */
module AtProtocol {
  import opened CText
  import opened AtLines

  /** The arguments of at_send_command_full(); `want` is a non-NULL out pointer, `timed` a
  timeout other than 0. */
  datatype Command = Command(kind: CommandType, prefix: Option<string>, pdu: Option<string>, want: bool, timed: bool)

  datatype Error = Ok | Generic | CommandPending | ChannelClosed | TimedOut | InvalidResponse

  /** What a call came back with, and the lines that came while it was pending. */
  datatype Return = Return(command: Command, error: Error, out: Option<Response>, seen: seq<string>)

  datatype State = State(
    slot: Slot,
    closed: bool,                // s_readerClosed
    waiting: Option<Command>,    // the command whose issuer is in the condition wait
    seen: seq<string>,           // lines processed since it was installed
    unsolicited: seq<string>,    // lines handed to the unsolicited handler, ever
    calls: seq<Return>)          // the calls that have returned

  const INITIAL := State(Slot(NoResult, None, None, None), false, None, [], [], [])

  datatype Event =
    | Issue(command: Command, open: bool, written: bool)  // open: s_fd >= 0; written: write() succeeds
    | Line(line: string)
    | Timeout
    | Wake                                                 // signalled or spurious
    | Close
    | Open                                                 // at_open(), which takes no lock

  function Clear(slot: Slot): Slot {
    slot.(response := None, prefix := None, pdu := None)
  }

  function Finish(s: State, command: Command, error: Error, out: Option<Response>): State {
    s.(slot := Clear(s.slot), waiting := None, calls := s.calls + [Return(command, error, out, s.seen)])
  }

  /** The first section: refuse, or write and install. */
  function OnIssue(s: State, command: Command, open: bool, written: bool): State {
    var s := s.(seen := []);
    if s.slot.response.Some? then Finish(s, command, CommandPending, None)
    else if !open || s.closed then Finish(s, command, ChannelClosed, None)
    else if !written then Finish(s, command, Generic, None)
    else s.(slot := Fresh(command.kind, command.prefix, command.pdu), waiting := Some(command))
  }

  /** A command whose response at_open() has taken away while it waits.  The issuer reads through the
  NULL pointer when it wakes up; here it waits on, and only a timeout brings it back. */
  predicate Stranded(s: State) {
    s.waiting.Some? && s.slot.response == None
  }

  /** Behind the wait: the response in order, then the wrapper's check. */
  function OnDone(s: State, command: Command): State
    requires s.slot.response.Some?
  {
    var r := s.slot.response.value;
    var answer := r.(intermediates := Reversed(r.intermediates));
    var out := if command.want then Some(answer) else None;
    if s.closed then
      Finish(s, command, ChannelClosed, out)
    else if TakesOne(command.kind) && command.want && answer.success && answer.intermediates == [] then
      Finish(s, command, InvalidResponse, None)
    else
      Finish(s, command, Ok, out)
  }

  function OnLine(s: State, line: string): State {
    var (slot, destination) := Route(s.slot, line);
    s.(slot := slot,
       seen := if s.waiting.Some? then s.seen + [line] else s.seen,
       unsolicited := if destination == Unsolicited then s.unsolicited + [line] else s.unsolicited)
  }

  /** An event that cannot happen in a state leaves it alone. */
  function Step(s: State, e: Event): State {
    match e
    case Issue(command, open, written) =>
      if s.waiting.Some? then s else OnIssue(s, command, open, written)
    case Line(line) => OnLine(s, line)
    case Timeout =>
      if s.waiting.Some? && s.waiting.value.timed then Finish(s, s.waiting.value, TimedOut, None) else s
    case Wake =>
      if s.waiting.Some? && s.slot.response.Some? && (s.slot.response.value.final.Some? || s.closed)
      then OnDone(s, s.waiting.value)
      else s
    case Close => s.(closed := true)
    case Open => s.(slot := Clear(s.slot), closed := false)
  }

  function Run(events: seq<Event>): State {
    if events == [] then INITIAL else Step(Run(events[..|events| - 1]), events[|events| - 1])
  }

  // ---------------------------------------------------------------- what a call may answer

  /** The answer that the lines call for. */
  function Answer(command: Command, seen: seq<string>): Response {
    var final := LastFinal(seen);
    Response(final.Some? && IsFinalSuccess(final.value), final,
             Wanted(command.kind, command.prefix, command.pdu.Some?, seen))
  }

  predicate NeedsIntermediate(command: Command) {
    TakesOne(command.kind) && command.want
  }

  /** A call tells the truth about the lines that came while it was pending. */
  ghost predicate Honest(r: Return) {
    var answer := Answer(r.command, r.seen);
    match r.error
    case Ok =>
      && answer.final.Some?
      && r.out == (if r.command.want then Some(answer) else None)
      && !(NeedsIntermediate(r.command) && answer.success && answer.intermediates == [])
    case InvalidResponse =>
      NeedsIntermediate(r.command) && answer.success && answer.intermediates == [] && r.out == None
    case ChannelClosed => r.out == None || (r.command.want && r.out == Some(answer))
    case TimedOut => r.command.timed && r.out == None
    case Generic => r.out == None && r.seen == []
    case CommandPending => false
  }

  ghost predicate Inv(s: State) {
    && (s.waiting == None ==> Cleared(s.slot))
    && (s.waiting.Some? && !Stranded(s) ==>
         Folded(s.slot, s.waiting.value.kind, s.waiting.value.prefix, s.waiting.value.pdu, s.seen))
    && (Stranded(s) ==> Cleared(s.slot))
    && forall i | 0 <= i < |s.calls| :: Honest(s.calls[i])
  }

  lemma IssueKeepsInv(s: State, command: Command, open: bool, written: bool)
    requires Inv(s) && s.waiting == None
    ensures Inv(OnIssue(s, command, open, written))
  {
    RoutingIsFold(command.kind, command.prefix, command.pdu, []);
    assert RouteAll(Fresh(command.kind, command.prefix, command.pdu), []) == Fresh(command.kind, command.prefix, command.pdu);
  }

  lemma LineKeepsInv(s: State, line: string)
    requires Inv(s)
    ensures Inv(OnLine(s, line))
  {
    if s.waiting.Some? && !Stranded(s) {
      var c := s.waiting.value;
      StepFolds(s.slot, c.kind, c.prefix, c.pdu, s.seen, line);
    }
  }

  lemma DoneKeepsInv(s: State)
    requires Inv(s) && s.waiting.Some? && !Stranded(s) && (s.slot.response.value.final.Some? || s.closed)
    ensures Inv(OnDone(s, s.waiting.value))
  {
    var c, r := s.waiting.value, s.slot.response.value;
    assert r.(intermediates := Reversed(r.intermediates)) == Answer(c, s.seen);
  }

  lemma TimeoutKeepsInv(s: State)
    requires Inv(s) && s.waiting.Some? && s.waiting.value.timed
    ensures Inv(Finish(s, s.waiting.value, TimedOut, None))
  {
  }

  lemma OpenKeepsInv(s: State)
    requires Inv(s)
    ensures Inv(s.(slot := Clear(s.slot), closed := false))
  {
  }

  lemma StepKeepsInv(s: State, e: Event)
    requires Inv(s)
    ensures Inv(Step(s, e))
  {
    match e
    case Issue(command, open, written) =>
      if s.waiting == None {
        IssueKeepsInv(s, command, open, written);
      }
    case Line(line) => LineKeepsInv(s, line);
    case Timeout =>
      if s.waiting.Some? && s.waiting.value.timed {
        TimeoutKeepsInv(s);
      }
    case Wake =>
      if s.waiting.Some? && !Stranded(s) && (s.slot.response.value.final.Some? || s.closed) {
        DoneKeepsInv(s);
      }
    case Close => assert Step(s, e).slot == s.slot;
    case Open => OpenKeepsInv(s);
  }

  /** In every interleaving of issuing, lines, timeouts, wake-ups, closing and reopening, every call that
  has returned was honest, and between calls the slot is clear. */
  lemma {:induction false} RunsAreHonest(events: seq<Event>)
    ensures Inv(Run(events))
  {
    if events != [] {
      RunsAreHonest(events[..|events| - 1]);
      StepKeepsInv(Run(events[..|events| - 1]), events[|events| - 1]);
    }
  }

  /** at_open() has come since the waiting command was issued. */
  predicate OpenedWhileWaiting(events: seq<Event>) {
    if events == [] then false
    else
      var init, e := events[..|events| - 1], events[|events| - 1];
      Run(init).waiting.Some? && (e == Open || OpenedWhileWaiting(init))
  }

  lemma StrandedStep(s: State, e: Event)
    requires Step(s, e).waiting.Some?
    ensures Stranded(Step(s, e)) <==> s.waiting.Some? && (e == Open || Stranded(s))
  {
  }

  /** A waiting command loses its response exactly if the channel is reopened while it waits; otherwise
  the slot holds the fold of its lines. */
  lemma {:induction false} StrandedIffReopened(events: seq<Event>)
    requires Run(events).waiting.Some?
    ensures Stranded(Run(events)) <==> OpenedWhileWaiting(events)
    ensures var s, c := Run(events), Run(events).waiting.value;
      !OpenedWhileWaiting(events) ==> Folded(s.slot, c.kind, c.prefix, c.pdu, s.seen)
  {
    var init, e := events[..|events| - 1], events[|events| - 1];
    StrandedStep(Run(init), e);
    if Run(init).waiting.Some? {
      StrandedIffReopened(init);
    }
    assert Inv(Run(events)) by {
      RunsAreHonest(events);
    }
  }

  /** A successful call of a kind that takes one line got exactly one, of the right shape, and
  it came while the call was pending. */
  lemma OneOfTheRightShape(events: seq<Event>, i: nat)
    requires i < |Run(events).calls|
    requires var r := Run(events).calls[i]; r.error == Ok && NeedsIntermediate(r.command) && r.out.Some? && r.out.value.success
    ensures var r := Run(events).calls[i];
      && |r.out.value.intermediates| == 1
      && Matches(r.command.kind, r.command.prefix, r.out.value.intermediates[0])
      && r.out.value.intermediates[0] in r.seen
  {
    RunsAreHonest(events);
    var r := Run(events).calls[i];
    assert Honest(r);
    var offered := Offered(r.command.pdu.Some?, r.seen);
    MatchingFits(r.command.kind, r.command.prefix, offered);
    OfferedSeen(r.command.pdu.Some?, r.seen);
    var all := Matching(r.command.kind, r.command.prefix, offered);
    assert r.out.value.intermediates == all[..1];
    assert all[0] in all;
  }

  lemma {:induction false} OfferedSeen(pdu: bool, lines: seq<string>)
    ensures forall line | line in Offered(pdu, lines) :: line in lines && !IsFinal(line)
  {
    if lines != [] {
      OfferedSeen(pdu, lines[1..]);
      OfferedSeen(false, lines[1..]);
    }
  }

  /** Once a call has returned, later lines reach the unsolicited handler and nothing else,
  until the next command. */
  lemma {:induction false} BetweenCalls(events: seq<Event>, lines: seq<string>)
    requires Run(events).waiting == None
    ensures var s := Run(events); var s' := LinesOnly(s, lines);
      s' == s.(unsolicited := s.unsolicited + lines)
  {
    var s := Run(events);
    if lines == [] {
      assert s.unsolicited + [] == s.unsolicited;
    } else {
      var before, line := lines[..|lines| - 1], lines[|lines| - 1];
      BetweenCalls(events, before);
      RunsAreHonest(events);
      assert s.unsolicited + before + [line] == s.unsolicited + lines;
    }
  }

  function LinesOnly(s: State, lines: seq<string>): State {
    if lines == [] then s
    else Step(LinesOnly(s, lines[..|lines| - 1]), Line(lines[|lines| - 1]))
  }
}
