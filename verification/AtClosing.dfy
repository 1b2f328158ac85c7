/** When and with what calls of at_send_command_full() return, told from the events alone: which command waits, whether the
channel is shut, and what has come since the command was issued. */
module AtClosing {
  import opened CText
  import opened AtLines
  import opened AtProtocol

  /** Of closing and opening the channel, closing came last. */
  predicate Shut(events: seq<Event>) {
    events != [] &&
    match events[|events| - 1]
    case Close => true
    case Open => false
    case _ => Shut(events[..|events| - 1])
  }

  /** A final line has come behind event n. */
  predicate FinalSince(events: seq<Event>, n: nat) {
    exists m | n < m < |events| :: events[m].Line? && IsFinal(events[m].line)
  }

  /** The channel has been reopened behind event n. */
  predicate OpenSince(events: seq<Event>, n: nat) {
    exists m | n < m < |events| :: events[m] == Open
  }

  /** The lines behind event n. */
  function LinesSince(events: seq<Event>, n: nat): seq<string> {
    if |events| <= n + 1 then []
    else
      var e := events[|events| - 1];
      LinesSince(events[..|events| - 1], n) + if e.Line? then [e.line] else []
  }

  /** Which issue is waiting for its answer. */
  function Waiter(events: seq<Event>): (w: Option<nat>)
    ensures w.Some? ==> w.value < |events| && events[w.value].Issue?
  {
    if events == [] then None
    else
      var init, e := events[..|events| - 1], events[|events| - 1];
      var w := Waiter(init);
      match e
      case Issue(_, open, written) => if w == None && open && written && !Shut(init) then Some(|init|) else w
      case Timeout => if w.Some? && events[w.value].command.timed then None else w
      case Wake =>
        if w.Some? && !OpenSince(init, w.value) && (FinalSince(init, w.value) || Shut(init)) then None else w
      case _ => w
  }

  lemma FinalSinceStep(events: seq<Event>, e: Event, n: nat)
    requires n < |events|
    ensures FinalSince(events + [e], n) <==> FinalSince(events, n) || (e.Line? && IsFinal(e.line))
    ensures OpenSince(events + [e], n) <==> OpenSince(events, n) || e == Open
  {
    var all := events + [e];
    if FinalSince(events, n) {
      var m :| n < m < |events| && events[m].Line? && IsFinal(events[m].line);
      assert all[m] == events[m];
    }
    if OpenSince(events, n) {
      var m :| n < m < |events| && events[m] == Open;
      assert all[m] == Open;
    }
    assert all[|events|] == e;
  }

  lemma LinesSinceStep(events: seq<Event>, e: Event, n: nat)
    requires n < |events|
    ensures LinesSince(events + [e], n) == LinesSince(events, n) + if e.Line? then [e.line] else []
  {
    assert (events + [e])[..|events|] == events;
  }

  lemma {:induction false} FinalIsSeen(events: seq<Event>, n: nat)
    requires n < |events|
    ensures FinalSince(events, n) <==> exists line | line in LinesSince(events, n) :: IsFinal(line)
    decreases |events|
  {
    if |events| > n + 1 {
      var init, e := events[..|events| - 1], events[|events| - 1];
      assert events == init + [e];
      FinalIsSeen(init, n);
      FinalSinceStep(init, e, n);
      var lines, more := LinesSince(init, n), LinesSince(events, n);
      assert forall line :: line in more <==> line in lines || (e.Line? && line == e.line);
    }
  }

  /** The state of the protocol is what the events say. */
  ghost predicate Told(events: seq<Event>, s: State) {
    var w := Waiter(events);
    && (s.closed <==> Shut(events))
    && s.waiting == (if w == None then None else Some(events[w.value].command))
    && (w.Some? ==> s.seen == LinesSince(events, w.value) && (Stranded(s) <==> OpenSince(events, w.value)))
  }

  /** A final response is there exactly if a final line has come. */
  lemma FinalTold(events: seq<Event>, s: State)
    requires Told(events, s) && Inv(s) && s.waiting.Some? && !Stranded(s)
    ensures s.slot.response.value.final.Some? <==> FinalSince(events, Waiter(events).value)
  {
    FinalIsSeen(events, Waiter(events).value);
    LastFinalIs(s.seen);
  }

  lemma IssueTold(events: seq<Event>, s: State, e: Event)
    requires Told(events, s) && Inv(s) && e.Issue?
    ensures Told(events + [e], Step(s, e))
  {
    var all := events + [e];
    assert all[..|events|] == events;
    if Waiter(events).Some? {
      FinalSinceStep(events, e, Waiter(events).value);
      LinesSinceStep(events, e, Waiter(events).value);
      assert LinesSince(events, Waiter(events).value) + [] == LinesSince(events, Waiter(events).value);
    } else {
      assert !OpenSince(all, |events|) && LinesSince(all, |events|) == [];
    }
  }

  lemma WaitingTold(events: seq<Event>, s: State, e: Event)
    requires Told(events, s) && Inv(s) && s.waiting.Some? && !e.Issue?
    ensures Told(events + [e], Step(s, e))
  {
    var all, w := events + [e], Waiter(events).value;
    assert all[..|events|] == events && all[w] == events[w];
    FinalSinceStep(events, e, w);
    LinesSinceStep(events, e, w);
    if e == Wake && !Stranded(s) {
      FinalTold(events, s);
    }
    assert LinesSince(events, w) + [] == LinesSince(events, w);
  }

  lemma IdleTold(events: seq<Event>, s: State, e: Event)
    requires Told(events, s) && s.waiting == None && !e.Issue?
    ensures Told(events + [e], Step(s, e))
  {
    assert (events + [e])[..|events|] == events;
  }

  /** In every run. */
  lemma {:induction false} RunsAreTold(events: seq<Event>)
    ensures Told(events, Run(events))
  {
    if events != [] {
      var init, e := events[..|events| - 1], events[|events| - 1];
      assert events == init + [e];
      RunsAreTold(init);
      RunsAreHonest(init);
      if e.Issue? {
        IssueTold(init, Run(init), e);
      } else if Run(init).waiting.Some? {
        WaitingTold(init, Run(init), e);
      } else {
        IdleTold(init, Run(init), e);
      }
    }
  }

  lemma RunStep(events: seq<Event>, e: Event)
    ensures Run(events + [e]) == Step(Run(events), e)
  {
    assert (events + [e])[..|events|] == events;
  }

  // ---------------------------------------------------------------- what makes a call return

  /** The event has made a call return, and with this. */
  ghost predicate Back(events: seq<Event>, e: Event, r: Return) {
    Run(events + [e]).calls == Run(events).calls + [r]
  }

  lemma OneBack(events: seq<Event>, e: Event, r: Return, r': Return)
    requires Back(events, e, r) && Back(events, e, r')
    ensures r == r'
  {
    var calls := Run(events).calls;
    assert (calls + [r])[|calls|] == (calls + [r'])[|calls|];
  }

  ghost predicate NoneBack(events: seq<Event>, e: Event) {
    Run(events + [e]).calls == Run(events).calls
  }

  /** The event is an issue that is refused or cannot be written. */
  predicate Fails(events: seq<Event>, e: Event) {
    e.Issue? && Waiter(events) == None && (!e.open || Shut(events) || !e.written)
  }

  /** The event is the timeout of the waiting command. */
  predicate Expires(events: seq<Event>, e: Event) {
    e == Timeout && Waiter(events).Some? && events[Waiter(events).value].command.timed
  }

  /** The event is a wake-up that ends the wait: a final line has come or the channel is shut, and the response
  has not been lost to a reopening. */
  predicate Ends(events: seq<Event>, e: Event) {
    && e == Wake && Waiter(events).Some? && !OpenSince(events, Waiter(events).value)
    && (FinalSince(events, Waiter(events).value) || Shut(events))
  }

  /** An issue that is refused returns at once, with CHANNEL_CLOSED if the descriptor is not open or the channel is
  shut, and otherwise because it could not be written. */
  lemma FailsReturns(events: seq<Event>, e: Event)
    requires Fails(events, e)
    ensures Back(events, e, Return(e.command, if !e.open || Shut(events) then ChannelClosed else Generic, None, []))
  {
    RunStep(events, e);
    RunsAreTold(events);
    RunsAreHonest(events);
  }

  lemma ExpiresReturns(events: seq<Event>, e: Event)
    requires Expires(events, e)
    ensures var w := Waiter(events).value;
      Back(events, e, Return(events[w].command, TimedOut, None, LinesSince(events, w)))
  {
    RunStep(events, e);
    RunsAreTold(events);
  }

  /** A wake-up that ends the wait: CHANNEL_CLOSED if and only if the channel is shut.  The answer to the lines
  is handed out to a caller that wants it, even then. */
  lemma EndsReturns(events: seq<Event>, e: Event) returns (r: Return)
    requires Ends(events, e)
    ensures Back(events, e, r)
    ensures var w := Waiter(events).value; r.command == events[w].command && r.seen == LinesSince(events, w)
    ensures if Shut(events) then r.error == ChannelClosed else r.error == Ok || r.error == InvalidResponse
    ensures r.out == if r.command.want && r.error != InvalidResponse then Some(Answer(r.command, r.seen)) else None
  {
    RunStep(events, e);
    RunsAreTold(events);
    RunsAreHonest(events);
    var s := Run(events);
    FinalTold(events, s);
    r := OnDone(s, s.waiting.value).calls[|s.calls|];
    var response := s.slot.response.value;
    assert response.(intermediates := Reversed(response.intermediates)) == Answer(s.waiting.value, s.seen);
  }

  lemma OthersReturnNothing(events: seq<Event>, e: Event)
    requires !Fails(events, e) && !Expires(events, e) && !Ends(events, e)
    ensures NoneBack(events, e)
  {
    RunStep(events, e);
    RunsAreTold(events);
    RunsAreHonest(events);
    var s := Run(events);
    if e == Wake && s.waiting.Some? && !Stranded(s) {
      FinalTold(events, s);
    }
  }

  /** In every run, a call returns exactly by one of these events, and with CHANNEL_CLOSED if and only if the descriptor was
  not open when it was issued, or the channel was shut, by a close with no reopening behind it, when it
  returned; but a timeout is a timeout even then. */
  lemma ClosedIff(events: seq<Event>, e: Event, r: Return)
    requires Back(events, e, r)
    ensures Fails(events, e) || Expires(events, e) || Ends(events, e)
    ensures r.error == ChannelClosed <==> (e.Issue? && !e.open) || (Shut(events) && e != Timeout)
    ensures r.error == TimedOut <==> e == Timeout
  {
    if Fails(events, e) {
      FailsReturns(events, e);
      OneBack(events, e, r, Return(e.command, if !e.open || Shut(events) then ChannelClosed else Generic, None, []));
    } else if Expires(events, e) {
      ExpiresReturns(events, e);
      var w := Waiter(events).value;
      OneBack(events, e, r, Return(events[w].command, TimedOut, None, LinesSince(events, w)));
    } else if Ends(events, e) {
      var r' := EndsReturns(events, e);
      OneBack(events, e, r, r');
    } else {
      OthersReturnNothing(events, e);
    }
  }

  /** Once the channel is shut, no issue leaves a command waiting, and a wake-up brings a waiting one back, with CHANNEL_CLOSED,
  unless its response was lost to a reopening in between. */
  lemma ShutEndsWaiting(events: seq<Event>, command: Command, open: bool, written: bool)
    requires Shut(events)
    ensures Run(events).waiting == None ==> Run(events + [Issue(command, open, written)]).waiting == None
    ensures Waiter(events).Some? && !OpenSince(events, Waiter(events).value) ==>
      && Run(events + [Wake]).waiting == None
      && |Run(events + [Wake]).calls| == |Run(events).calls| + 1
      && Run(events + [Wake]).calls[|Run(events).calls|].error == ChannelClosed
  {
    RunsAreTold(events);
    RunsAreTold(events + [Issue(command, open, written)]);
    RunsAreTold(events + [Wake]);
    assert (events + [Issue(command, open, written)])[..|events|] == events;
    assert (events + [Wake])[..|events|] == events;
    if Ends(events, Wake) {
      var r := EndsReturns(events, Wake);
    }
  }

  // ---------------------------------------------------------------- where the lines go

  /** The slot of a waiting command is what its lines make of a fresh one. */
  ghost predicate Routed(s: State) {
    s.waiting.Some? && !Stranded(s) ==>
      var c := s.waiting.value; s.slot == RouteAll(Fresh(c.kind, c.prefix, c.pdu), s.seen)
  }

  lemma RoutedStep(s: State, e: Event)
    requires Inv(s) && Routed(s)
    ensures Routed(Step(s, e))
  {
    if e.Line? && s.waiting.Some? && !Stranded(s) {
      var more := s.seen + [e.line];
      assert more[..|more| - 1] == s.seen;
    }
  }

  lemma {:induction false} RunsAreRouted(events: seq<Event>)
    ensures Routed(Run(events))
  {
    if events != [] {
      RunsAreRouted(events[..|events| - 1]);
      RunsAreHonest(events[..|events| - 1]);
      RoutedStep(Run(events[..|events| - 1]), events[|events| - 1]);
    }
  }

  /** Where a line goes, from the events alone: to the unsolicited handler unless a command waits that has not lost its
  response, and otherwise where the lines before it say. */
  function Goes(events: seq<Event>, line: string): Destination {
    var w := Waiter(events);
    if w == None || OpenSince(events, w.value) then Unsolicited
    else
      var c := events[w.value].command;
      Expected(c.kind, c.prefix, c.pdu, LinesSince(events, w.value), line)
  }

  /** In every run the unsolicited handler gets exactly the lines that go to it. */
  lemma LineGoes(events: seq<Event>, line: string)
    ensures Run(events + [Line(line)]).unsolicited ==
            Run(events).unsolicited + if Goes(events, line) == Unsolicited then [line] else []
  {
    RunStep(events, Line(line));
    RunsAreTold(events);
    RunsAreHonest(events);
    RunsAreRouted(events);
    var s, w := Run(events), Waiter(events);
    if w.Some? && !Stranded(s) {
      var c := s.waiting.value;
      DestinationExpected(c.kind, c.prefix, c.pdu, s.seen, line);
    }
  }
}
