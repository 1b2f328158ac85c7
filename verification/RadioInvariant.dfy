/** What is true of the radio state, of the sessions of pppd and of the client in every run. */
module RadioInvariant {
  import opened CText
  import opened RadioMachine

  predicate InSession(pc: Pc) {
    pc == Checking || pc.Judged? || pc == Tested || pc == Ended || pc == Reaping || pc == Leaving
  }

  /** pppd has the radio. */
  predicate WithPppd(s: State) {
    s.radio == Pppd || s.radio == PppdReady
  }

  predicate WithSim(s: State) {
    s.radio == SimNotReady || s.radio == SimLockedOrAbsent || s.radio == SimReady
  }

  /** The radio state against s_closed, the place of the main loop and a dial that is going on. */
  predicate Consistent(s: State) {
    && (s.dialling == None && s.closed ==> !WithSim(s))
    && (s.dialling.Some? ==> !WithPppd(s) && !InSession(s.pc))
    && (s.pc == Top || s.pc == Opening ==>
          s.closed || (!s.chan && s.dialling == None && !WithSim(s) && !WithPppd(s)))
    && (s.radio == PppdReady ==> InSession(s.pc))
    && (InSession(s.pc) ==> s.closed)
  }

  /** Every session has had its own dial. */
  predicate Dialled(s: State) {
    s.session <= s.dials && (s.radio == Pppd && !InSession(s.pc) ==> s.session < s.dials)
  }

  /** The last radio state that a greeted client was told is the radio state. */
  predicate Mirrored(s: State) {
    s.client.Client? && s.client.greeted ==> s.client.sent != [] && s.client.sent[|s.client.sent| - 1] == s.radio
  }

  /** The check loop counts every check that did not succeed. */
  predicate Bounded(s: State) {
    && s.checks <= MAX_PPP_FAIL_LIMIT
    && (s.pc == Checking ==> s.checks <= s.fails < MAX_PPP_FAIL_LIMIT)
    && (s.pc.Judged? ==> s.checks <= s.fails + 1)
    && (s.pc == Tested ==> s.checks <= s.fails)
  }

  lemma LoopStepKeepsConsistent(s: State, e: Event)
    requires Consistent(s)
    ensures Consistent(LoopStep(s, e))
  {
  }

  lemma OutsideStepKeepsConsistent(s: State, e: Event)
    requires Consistent(s)
    ensures Consistent(OutsideStep(s, e))
  {
  }

  lemma MainStepKeepsConsistent(s: State, e: Event)
    requires Consistent(s)
    ensures Consistent(MainStep(s, e))
  {
  }

  lemma StepKeepsConsistent(s: State, e: Event)
    requires Consistent(s)
    ensures Consistent(Step(s, e))
  {
    LoopStepKeepsConsistent(s, e);
    OutsideStepKeepsConsistent(LoopStep(s, e), e);
    MainStepKeepsConsistent(OutsideStep(LoopStep(s, e), e), e);
  }

  // ---------------------------------------------------------------- the client

  lemma LoopStepKeepsMirrored(s: State, e: Event)
    requires Mirrored(s)
    ensures Mirrored(LoopStep(s, e))
  {
  }

  lemma OutsideStepKeepsMirrored(s: State, e: Event)
    requires Mirrored(s)
    ensures Mirrored(OutsideStep(s, e))
  {
  }

  lemma SetRadioKeepsMirrored(s: State, wanted: RadioState)
    requires Mirrored(s)
    ensures Mirrored(SetRadio(s, wanted))
  {
  }

  lemma OpenKeepsMirrored(s: State, ok: bool)
    requires Mirrored(s)
    ensures Mirrored(OnOpenDevice(s, ok))
  {
    SetRadioKeepsMirrored(s, Off);
  }

  lemma JudgeKeepsMirrored(s: State, success: bool)
    requires Mirrored(s)
    ensures Mirrored(OnJudge(s, success))
  {
    SetRadioKeepsMirrored(Notify(s, Connected), PppdReady);
  }

  /** All other steps of the main loop leave radio state and client alone. */
  lemma MainStepKeepsClient(s: State, e: Event)
    requires !e.OpenDevice? && e != Judge && e != Leave
    ensures MainStep(s, e).client == s.client && MainStep(s, e).radio == s.radio
  {
  }

  lemma MainStepKeepsMirrored(s: State, e: Event)
    requires Mirrored(s)
    ensures Mirrored(MainStep(s, e))
  {
    if e.OpenDevice? {
      OpenKeepsMirrored(s, e.ok);
    } else if e == Judge {
      if s.pc.Judged? {
        JudgeKeepsMirrored(s, s.pc.success);
      }
    } else if e == Leave {
      SetRadioKeepsMirrored(s, Unavailable);
    } else {
      MainStepKeepsClient(s, e);
    }
  }

  lemma StepKeepsMirrored(s: State, e: Event)
    requires Mirrored(s)
    ensures Mirrored(Step(s, e))
  {
    LoopStepKeepsMirrored(s, e);
    OutsideStepKeepsMirrored(LoopStep(s, e), e);
    MainStepKeepsMirrored(OutsideStep(LoopStep(s, e), e), e);
  }

  // ---------------------------------------------------------------- dials and sessions

  lemma LoopStepKeepsDialled(s: State, e: Event)
    requires Dialled(s)
    ensures Dialled(LoopStep(s, e)) && Dialled(OutsideStep(s, e))
  {
  }

  lemma MainStepKeepsDialled(s: State, e: Event)
    requires Dialled(s)
    ensures Dialled(MainStep(s, e))
  {
  }

  lemma MainStepKeepsBounded(s: State, e: Event)
    requires Bounded(s)
    ensures Bounded(MainStep(s, e))
  {
  }

  ghost predicate Said(s: State, what: What) {
    Note(s.session, what) in s.notes
  }

  /** What this session has said so far, by the place of the main loop. */
  ghost predicate SaidSoFar(s: State) {
    && (s.pc == Checking || s.pc.Judged? || s.pc == Tested || s.pc == Ended ==>
         !Said(s, Failed) && !Said(s, Disconnected) && (Said(s, Connected) ==> s.pc == Ended && s.fails == 0))
    && (s.pc == Reaping ==> !Said(s, Disconnected))
    && (s.radio == PppdReady ==> Said(s, Connected))
  }

  /** The messages of every session make sense. */
  ghost predicate Sensible(notes: seq<Note>, session: nat) {
    && (forall n | n in notes :: n.session <= session)
    && (forall i, j | 0 <= i < j < |notes| :: notes[i] != notes[j])
    && (forall n | n in notes && n.what == Failed :: Note(n.session, Connected) !in notes)
    && (forall j | 0 <= j < |notes| && notes[j].what == Disconnected :: Note(notes[j].session, Connected) in notes[..j])
  }

  /** Nothing that concerns a session changes. */
  predicate SessionUntouched(s: State, s': State) {
    && s'.notes == s.notes && s'.session == s.session && s'.pc == s.pc
    && s'.fails == s.fails && s'.checks == s.checks
    && (s'.radio == PppdReady ==> s.radio == PppdReady)
  }

  /** Only the main loop talks about sessions. */
  lemma LoopStepSaysNothing(s: State, e: Event)
    ensures SessionUntouched(s, LoopStep(s, e))
  {
  }

  lemma OutsideStepSaysNothing(s: State, e: Event)
    ensures SessionUntouched(s, OutsideStep(s, e))
  {
  }

  lemma NotifyIsSensible(notes: seq<Note>, session: nat, what: What)
    requires Sensible(notes, session) && Note(session, what) !in notes
    requires what == Connected ==> Note(session, Failed) !in notes
    requires what == Failed ==> Note(session, Connected) !in notes
    requires what == Disconnected ==> Note(session, Connected) in notes
    ensures Sensible(notes + [Note(session, what)], session)
  {
    var more := notes + [Note(session, what)];
    assert forall j | 0 <= j < |notes| :: more[..j] == notes[..j];
    assert more[..|notes|] == notes;
  }

  lemma MainStepIsSensible(s: State, e: Event)
    requires SaidSoFar(s) && Sensible(s.notes, s.session)
    ensures Sensible(MainStep(s, e).notes, MainStep(s, e).session)
  {
    match e
    case Judge =>
      if s.pc.Judged? && s.pc.success {
        NotifyIsSensible(s.notes, s.session, Connected);
      }
    case Finish =>
      if s.pc == Ended && s.fails >= MAX_PPP_FAIL_LIMIT {
        NotifyIsSensible(s.notes, s.session, Failed);
      }
    case Reaped =>
      if s.pc == Reaping && !s.child && s.radio == PppdReady {
        NotifyIsSensible(s.notes, s.session, Disconnected);
      }
    case _ =>
  }

  lemma MessageSaysSoFar(s: State, e: Event)
    requires Consistent(s) && SaidSoFar(s) && (e == Judge || e == Finish || e == Reaped)
    ensures SaidSoFar(MainStep(s, e))
  {
  }

  lemma CheckSaysSoFar(s: State, e: Event)
    requires SaidSoFar(s) && (e.Check? || e == Again)
    ensures SaidSoFar(MainStep(s, e))
  {
    assert MainStep(s, e).notes == s.notes && MainStep(s, e).session == s.session;
  }

  lemma MainStepSaysSoFar(s: State, e: Event)
    requires Consistent(s) && SaidSoFar(s) && Sensible(s.notes, s.session)
    ensures SaidSoFar(MainStep(s, e))
  {
    if e == Judge || e == Finish || e == Reaped {
      MessageSaysSoFar(s, e);
    } else if e.Check? || e == Again {
      CheckSaysSoFar(s, e);
    } else {
      assert MainStep(s, e).notes == s.notes;
    }
  }

  ghost predicate Inv(s: State) {
    Consistent(s) && Mirrored(s) && Dialled(s) && Bounded(s) && SaidSoFar(s) && Sensible(s.notes, s.session)
  }

  lemma StepKeepsInv(s: State, e: Event)
    requires Inv(s)
    ensures Inv(Step(s, e))
  {
    var t := OutsideStep(LoopStep(s, e), e);
    StepKeepsConsistent(s, e);
    StepKeepsMirrored(s, e);
    LoopStepKeepsDialled(s, e);
    LoopStepKeepsDialled(LoopStep(s, e), e);
    MainStepKeepsDialled(t, e);
    LoopStepSaysNothing(s, e);
    OutsideStepSaysNothing(LoopStep(s, e), e);
    LoopStepKeepsConsistent(s, e);
    OutsideStepKeepsConsistent(LoopStep(s, e), e);
    MainStepKeepsBounded(t, e);
    MainStepIsSensible(t, e);
    MainStepSaysSoFar(t, e);
  }

  lemma {:induction false} RunsAreSound(events: seq<Event>)
    ensures var s := Run(events);
      Consistent(s) && Mirrored(s) && Dialled(s) && Bounded(s) && SaidSoFar(s) && Sensible(s.notes, s.session)
  {
    if events != [] {
      RunsAreSound(events[..|events| - 1]);
      StepKeepsInv(Run(events[..|events| - 1]), events[|events| - 1]);
    }
  }

  // ---------------------------------------------------------------- what holds in every run

  /** While the channel is marked closed, and the event loop thread is not in the middle of dialling,
  no SIM state occurs. */
  lemma ClosedMeansNoSim(events: seq<Event>)
    requires var s := Run(events); s.closed && s.dialling == None
    ensures Run(events).radio in {Off, Unavailable, Pppd, PppdReady}
  {
    RunsAreSound(events);
  }

  /** Once greeted, the client has been told the radio state last. */
  lemma ClientMirrors(events: seq<Event>)
    requires Run(events).client.Client? && Run(events).client.greeted
    ensures var s := Run(events); s.client.sent != [] && s.client.sent[|s.client.sent| - 1] == s.radio
  {
    assert Mirrored(Run(events)) by {
      RunsAreSound(events);
    }
  }

  /** Whenever pppd dies, the check loop is over after at most 20 checks. */
  lemma CheckLoopEnds(events: seq<Event>)
    ensures Run(events).checks <= MAX_PPP_FAIL_LIMIT
  {
    RunsAreSound(events);
  }

  /** No message is sent twice in a session, no session says both CONNECTED and FAILED, and
  DISCONNECTED comes after the CONNECTED of the same session. */
  lemma SessionsMakeSense(events: seq<Event>)
    ensures var notes := Run(events).notes;
      && (forall i, j | 0 <= i < j < |notes| :: notes[i] != notes[j])
      && (forall n | n in notes && n.what == Failed :: Note(n.session, Connected) !in notes)
      && (forall j | 0 <= j < |notes| && notes[j].what == Disconnected :: Note(notes[j].session, Connected) in notes[..j])
  {
    RunsAreSound(events);
  }

  /** There are never more sessions than dials that gave pppd the radio. */
  lemma SessionsAreDialled(events: seq<Event>)
    ensures Run(events).session <= Run(events).dials
  {
    RunsAreSound(events);
  }

  /** pppd does not have the radio and no session is on. */
  predicate Idle(s: State) {
    !WithPppd(s) && !InSession(s.pc)
  }

  /** Nothing dials, or if pppd is idle it stays so. */
  predicate IdleOrDialled(s: State, s': State) {
    && s'.dials >= s.dials
    && (Idle(s) && s'.dials == s.dials ==> Idle(s') && s'.session == s.session)
  }

  lemma LoopStepIdles(s: State, e: Event)
    ensures IdleOrDialled(s, LoopStep(s, e))
  {
  }

  lemma OutsideStepIdles(s: State, e: Event)
    ensures IdleOrDialled(s, OutsideStep(s, e))
  {
  }

  lemma MainStepIdles(s: State, e: Event)
    ensures IdleOrDialled(s, MainStep(s, e))
  {
  }

  lemma StepIdles(s: State, e: Event)
    ensures IdleOrDialled(s, Step(s, e))
  {
    LoopStepIdles(s, e);
    OutsideStepIdles(LoopStep(s, e), e);
    MainStepIdles(OutsideStep(LoopStep(s, e), e), e);
  }

  lemma {:induction false} StaysIdle(events: seq<Event>, more: seq<Event>)
    ensures IdleOrDialled(Run(events), Run(events + more))
    decreases |more|
  {
    if more == [] {
      assert events + more == events;
    } else {
      var init, last := more[..|more| - 1], more[|more| - 1];
      assert (events + more)[..|events + more| - 1] == events + init;
      StaysIdle(events, init);
      StepIdles(Run(events + init), last);
    }
  }

  lemma LeaveIsUnavailable(s: State)
    requires s.pc == Leaving
    ensures Step(s, Leave).radio == Unavailable && Step(s, Leave).pc == Top
  {
  }

  /** A session that finishes leaves the radio unavailable; and until the next dial that gives pppd
  the radio, pppd does not have it and no session begins. */
  lemma SessionLeavesUnavailable(events: seq<Event>, more: seq<Event>)
    requires Run(events).pc == Leaving
    ensures var left, s := Run(events + [Leave]), Run(events + [Leave] + more);
      && left.radio == Unavailable
      && (s.dials == left.dials ==> s.radio != Pppd && s.radio != PppdReady && s.session == left.session)
  {
    assert (events + [Leave])[..|events|] == events;
    LeaveIsUnavailable(Run(events));
    assert Idle(Run(events + [Leave]));
    StaysIdle(events + [Leave], more);
  }
}
