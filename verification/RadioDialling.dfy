/** Dialling in huawei_tgm/huawei-tgm.c marks the channel closed first and gives pppd the radio second.
When is it safe that the main loop and the AT reader run in between? */
module RadioDialling {
  import opened CText
  import opened RadioMachine
  import opened RadioInvariant

  /** pppd has the radio only while the channel is marked closed. */
  predicate Kept(s: State) {
    WithPppd(s) ==> s.closed
  }

  /** What has to hold when the second half of dialling comes: the mark is still there, and the main
  loop is not trying to open the device. */
  predicate MayDial(s: State) {
    s.dialling == Some(true) ==> s.closed && s.pc != Opening
  }

  /** Every dial of the run was safe. */
  predicate Careful(events: seq<Event>) {
    events != [] ==>
      && Careful(events[..|events| - 1])
      && (events[|events| - 1] == DialSet ==> MayDial(Run(events[..|events| - 1])))
  }

  predicate Guarded(s: State) {
    Kept(s) && (s.pc == Opening ==> s.radio != Pppd)
  }

  lemma LoopStepKeepsGuarded(s: State, e: Event)
    requires Guarded(s) && (e == DialSet ==> MayDial(s))
    ensures Guarded(LoopStep(s, e))
  {
  }

  lemma OutsideStepKeepsGuarded(s: State, e: Event)
    requires Guarded(s)
    ensures Guarded(OutsideStep(s, e))
  {
  }

  lemma MainStepKeepsGuarded(s: State, e: Event)
    requires Guarded(s) && Consistent(s)
    ensures Guarded(MainStep(s, e))
  {
  }

  lemma {:induction false} CarefulIsGuarded(events: seq<Event>)
    requires Careful(events)
    ensures Guarded(Run(events))
  {
    if events != [] {
      var init, e := events[..|events| - 1], events[|events| - 1];
      var s := Run(init);
      CarefulIsGuarded(init);
      RunsAreSound(init);
      LoopStepKeepsGuarded(s, e);
      LoopStepKeepsConsistent(s, e);
      OutsideStepKeepsGuarded(LoopStep(s, e), e);
      OutsideStepKeepsConsistent(LoopStep(s, e), e);
      MainStepKeepsGuarded(OutsideStep(LoopStep(s, e), e), e);
    }
  }

  /** pppd has the radio only while the channel is marked closed, and it still would if the main loop
  opened the device now. */
  predicate StaysKept(s: State) {
    Kept(s) && Kept(Step(s, OpenDevice(true)))
  }

  /** A dial that is not safe gives pppd the radio with the channel not marked closed, at once or as
  soon as the device is open. */
  lemma UnsafeDial(s: State)
    requires !MayDial(s)
    ensures !StaysKept(Step(s, DialSet))
  {
    var s' := Step(s, DialSet);
    assert s'.radio == Pppd && s'.closed == s.closed && s'.pc == s.pc && s'.dialling == None;
  }

  lemma GuardedStaysKept(s: State)
    requires Guarded(s) && Consistent(s)
    ensures StaysKept(s)
  {
    assert LoopStep(s, OpenDevice(true)) == s && OutsideStep(s, OpenDevice(true)) == s;
  }

  /** So it is at every moment of the run. */
  predicate AlwaysKept(events: seq<Event>) {
    StaysKept(Run(events)) && (events != [] ==> AlwaysKept(events[..|events| - 1]))
  }

  /** Dialling in two steps is safe in a run if and only if, whenever the second step gives pppd the
  radio, the channel is still marked closed and the main loop is not trying to open the device. */
  lemma {:induction false} SafeIffCareful(events: seq<Event>)
    ensures AlwaysKept(events) <==> Careful(events)
  {
    if Careful(events) {
      CarefulIsGuarded(events);
      RunsAreSound(events);
      GuardedStaysKept(Run(events));
    }
    if events != [] {
      var init := events[..|events| - 1];
      SafeIffCareful(init);
      if events[|events| - 1] == DialSet && !MayDial(Run(init)) {
        UnsafeDial(Run(init));
      }
    }
  }

  // ---------------------------------------------------------------- without looking ahead

  /** A step does not break the rule that pppd has the radio only while the channel is marked closed: it does
  not give pppd the radio without the mark, and does not open the device while pppd has the radio. */
  predicate MayStep(s: State, e: Event) {
    && (e == DialSet && s.dialling == Some(true) ==> s.closed)
    && (e == OpenDevice(true) && s.pc == Opening ==> s.radio != Pppd)
  }

  lemma LoopStepKeepsKeptIff(s: State, e: Event)
    requires Kept(s)
    ensures Kept(LoopStep(s, e)) <==> (e == DialSet && s.dialling == Some(true) ==> s.closed)
  {
  }

  lemma MainStepKeepsKeptIff(s: State, e: Event)
    requires Kept(s) && Consistent(s)
    ensures Kept(MainStep(s, e)) <==> (e == OpenDevice(true) && s.pc == Opening ==> s.radio != Pppd)
  {
    if !e.OpenDevice? {
      OthersKeepKept(s, e);
    }
  }

  lemma OthersKeepKept(s: State, e: Event)
    requires Kept(s) && Consistent(s) && !e.OpenDevice?
    ensures Kept(MainStep(s, e))
  {
  }

  lemma OutsideStepKeepsKept(s: State, e: Event)
    requires Kept(s)
    ensures Kept(OutsideStep(s, e))
  {
  }

  lemma StepKeepsKeptIff(s: State, e: Event)
    requires Kept(s) && Consistent(s)
    ensures Kept(Step(s, e)) <==> MayStep(s, e)
  {
    LoopStepKeepsKeptIff(s, e);
    LoopStepKeepsConsistent(s, e);
    if e == DialSet {
      assert Step(s, e) == LoopStep(s, e);
    } else {
      OutsideStepKeepsKept(LoopStep(s, e), e);
      OutsideStepKeepsConsistent(LoopStep(s, e), e);
      MainStepKeepsKeptIff(OutsideStep(LoopStep(s, e), e), e);
      if e.OpenDevice? {
        assert OutsideStep(LoopStep(s, e), e) == s;
      }
    }
  }

  /** At every moment of the run pppd has the radio only while the channel is marked closed. */
  predicate KeptThroughout(events: seq<Event>) {
    Kept(Run(events)) && (events != [] ==> KeptThroughout(events[..|events| - 1]))
  }

  /** No step of the run breaks it. */
  predicate Unbroken(events: seq<Event>) {
    events != [] ==>
      && Unbroken(events[..|events| - 1])
      && MayStep(Run(events[..|events| - 1]), events[|events| - 1])
  }

  /** In a run pppd has the radio only while the channel is marked closed, at every moment, if and only if
  the mark was there at every second step that gave pppd the radio, and the device was never opened while
  pppd had it. */
  lemma {:induction false} KeptIffUnbroken(events: seq<Event>)
    ensures KeptThroughout(events) <==> Unbroken(events)
  {
    if events != [] {
      var init := events[..|events| - 1];
      KeptIffUnbroken(init);
      if KeptThroughout(init) {
        RunsAreSound(init);
        StepKeepsKeptIff(Run(init), events[|events| - 1]);
      }
    }
  }

  /** A device can be opened while pppd has the radio only if the main loop was in its open loop already when
  pppd was given it. */
  lemma {:induction false} GivenWhileOpening(events: seq<Event>) returns (n: nat)
    requires Run(events).pc == Opening && Run(events).radio == Pppd
    ensures n < |events| && events[n] == DialSet
    ensures Run(events[..n]).pc == Opening && Run(events[..n]).dialling == Some(true)
  {
    var init, e := events[..|events| - 1], events[|events| - 1];
    var s := Run(init);
    RunsAreSound(init);
    if e == DialSet && s.dialling == Some(true) {
      n := |init|;
      assert LoopStep(s, e).pc == s.pc && Step(s, e) == LoopStep(s, e);
    } else {
      ComesToOpening(s, e);
      n := GivenWhileOpening(init);
      assert init[..n] == events[..n];
    }
  }

  lemma ComesToOpening(s: State, e: Event)
    requires Consistent(s) && Step(s, e).pc == Opening && Step(s, e).radio == Pppd
    requires !(e == DialSet && s.dialling == Some(true))
    ensures s.pc == Opening && s.radio == Pppd
  {
    LoopStepKeepsRadio(s, e);
    assert OutsideStep(LoopStep(s, e), e).pc == LoopStep(s, e).pc;
  }

  lemma LoopStepKeepsRadio(s: State, e: Event)
    requires !(e == DialSet && s.dialling == Some(true))
    ensures LoopStep(s, e).pc == s.pc && (LoopStep(s, e).radio == Pppd ==> s.radio == Pppd)
  {
  }

  // ---------------------------------------------------------------- the schedules behind it

  /** The last of marking the channel closed to dial, of its reader closing, and of opening the device
  was opening the device. */
  predicate Reopened(events: seq<Event>) {
    if events == [] then false
    else
      var init, e := events[..|events| - 1], events[|events| - 1];
      if e == ReaderClosed || (e.Dial? && Run(events).dialling.Some? && Run(init).dialling == None) then false
      else if e == OpenDevice(true) && Run(init).pc == Opening then true
      else Reopened(init)
  }

  /** While dialling, the mark is gone exactly if the device was opened since, without the reader of the
  channel closing afterwards. */
  lemma {:induction false} MarkedUnlessReopened(events: seq<Event>)
    ensures Run(events).dialling.Some? ==> (Run(events).closed <==> !Reopened(events))
  {
    if events != [] && Run(events).dialling.Some? {
      var init, e := events[..|events| - 1], events[|events| - 1];
      StepWhileDialling(Run(init), e);
      MarkedUnlessReopened(init);
    }
  }

  lemma MainStepMarks(s: State, e: Event)
    ensures var s' := MainStep(s, e);
      && s'.dialling == s.dialling
      && (if e == OpenDevice(true) && s.pc == Opening then !s'.closed else s'.closed == s.closed)
  {
    if !e.OpenDevice? {
      OthersLeaveMark(s, e);
    }
  }

  lemma OthersLeaveMark(s: State, e: Event)
    requires !e.OpenDevice?
    ensures MainStep(s, e).dialling == s.dialling && MainStep(s, e).closed == s.closed
  {
  }

  lemma StepWhileDialling(s: State, e: Event)
    requires Step(s, e).dialling.Some?
    ensures var s' := Step(s, e);
      if s.dialling == None then e.Dial? && s'.closed
      else if e == ReaderClosed then s'.closed
      else if e == OpenDevice(true) && s.pc == Opening then !s'.closed
      else s'.closed == s.closed
  {
    MainStepMarks(OutsideStep(LoopStep(s, e), e), e);
    if s.dialling.Some? {
      assert e != DialSet && LoopStep(s, e) == s;
    }
  }

  lemma RunStep(events: seq<Event>, e: Event)
    ensures Run(events + [e]) == Step(Run(events), e)
  {
    assert (events + [e])[..|events|] == events;
  }

  /** If the main loop wakes up between the two steps of dialling, it goes back to opening the device. */
  lemma WakesUp(s: State, forked: bool)
    requires s.dialling.Some? && s.closed && s.pc == Waiting && s.radio != Pppd
    ensures Step(Step(s, WaitOver), Begin(forked)) == s.(pc := Opening, fd := false)
  {
    assert Step(s, WaitOver) == s.(pc := Top);
  }

  /** Then dialling goes wrong, whether the device is open before the second step or after it. */
  lemma DialInTwoStepsGoesWrong(events: seq<Event>)
    requires var s := Run(events); s.dialling == Some(true) && s.closed && s.pc == Waiting && s.radio != Pppd
    ensures !Kept(Run(events + [WaitOver] + [Begin(false)] + [OpenDevice(true)] + [DialSet]))
    ensures !Kept(Run(events + [WaitOver] + [Begin(false)] + [DialSet] + [OpenDevice(true)]))
  {
    var s := Run(events);
    var awake := events + [WaitOver] + [Begin(false)];
    RunStep(events, WaitOver);
    RunStep(events + [WaitOver], Begin(false));
    WakesUp(s, false);
    RunStep(awake, OpenDevice(true));
    RunStep(awake + [OpenDevice(true)], DialSet);
    RunStep(awake, DialSet);
    RunStep(awake + [DialSet], OpenDevice(true));
    assert !MayDial(Step(Run(awake), OpenDevice(true)));
    assert LoopStep(Run(awake), OpenDevice(true)) == Run(awake);
  }

  /** It can come to that: from start-up to the middle of a dial. */
  lemma DialIsReached() returns (events: seq<Event>)
    ensures var s := Run(events); s.dialling == Some(true) && s.closed && s.pc == Waiting && s.radio == SimReady
  {
    var ready := [Begin(false), OpenDevice(true), AtOpen(true)];
    OpenedIsReached();
    RunStep(ready, RadioOn);
    RunStep(ready + [RadioOn], Polled(true));
    events := ready + [RadioOn] + [Polled(true)] + [Dial(true)];
    RunStep(ready + [RadioOn] + [Polled(true)], Dial(true));
  }

  lemma OpenedIsReached()
    ensures Run([Begin(false), OpenDevice(true), AtOpen(true)]) == INITIAL.(fd := true, chan := true, pc := Waiting)
  {
    var one, two := [Begin(false)], [Begin(false), OpenDevice(true)];
    assert one == [] + [Begin(false)] && two == one + [OpenDevice(true)];
    assert two + [AtOpen(true)] == [Begin(false), OpenDevice(true), AtOpen(true)];
    RunStep([], Begin(false));
    RunStep(one, OpenDevice(true));
    RunStep(two, AtOpen(true));
    StartUp();
  }

  lemma StartUp()
    ensures Step(Step(INITIAL, Begin(false)), OpenDevice(true)) == INITIAL.(fd := true, pc := Opened)
    ensures Step(INITIAL.(fd := true, pc := Opened), AtOpen(true)) == INITIAL.(fd := true, chan := true, pc := Waiting)
  {
    assert Step(INITIAL, Begin(false)) == INITIAL.(pc := Opening);
  }

  // ---------------------------------------------------------------- dialling as one step

  /** Every dial is followed by its second step at once. */
  predicate AtOnce(events: seq<Event>) {
    events != [] ==>
      var init := events[..|events| - 1];
      && AtOnce(init)
      && (events[|events| - 1] == DialSet && Run(init).dialling.Some? ==>
            init != [] && Run(init[..|init| - 1]).dialling == None)
  }

  lemma FreshDial(s: State, e: Event)
    requires Consistent(s) && s.dialling == None && Step(s, e).dialling.Some?
    ensures MayDial(Step(s, e))
  {
    assert e.Dial? && s.radio == SimReady;
  }

  /** If nothing comes in between, dialling is always safe: pppd has the radio only while the channel is
  marked closed. */
  lemma {:induction false} AtOnceIsCareful(events: seq<Event>)
    requires AtOnce(events)
    ensures Careful(events) && Kept(Run(events))
  {
    if events != [] {
      var init := events[..|events| - 1];
      AtOnceIsCareful(init);
      if events[|events| - 1] == DialSet && Run(init).dialling.Some? {
        var before := init[..|init| - 1];
        RunsAreSound(before);
        FreshDial(Run(before), init[|init| - 1]);
      }
    }
    CarefulIsGuarded(events);
  }
}
