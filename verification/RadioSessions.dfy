/** What a session of pppd in huawei_tgm/huawei-tgm.c comes to, told from its checks: which sessions say CONNECTED, which say
FAILED, and which say DISCONNECTED. */
module RadioSessions {
  import opened CText
  import opened RadioMachine
  import opened RadioInvariant

  // ---------------------------------------------------------------- told from the events

  /** The main loop begins a session. */
  predicate Begins(s: State, e: Event) {
    e.Begin? && s.pc == Top && s.radio == Pppd
  }

  /** pppd has been forked for the latest session and has not died since. */
  predicate Alive(events: seq<Event>) {
    events != [] &&
    var init, e := events[..|events| - 1], events[|events| - 1];
    if Begins(Run(init), e) then e.forked else e != ChildDies && Alive(init)
  }

  /** The state file says that the interface is up. */
  predicate Up(content: Option<string>) {
    content.Some? && ("unknown" <= content.value || "up" <= content.value)
  }

  /** The main loop makes a check in this session. */
  predicate Checks(s: State, e: Event, session: nat) {
    e.Check? && s.pc == Checking && s.session == session
  }

  /** Some check of the session has found the interface up while pppd was alive. */
  predicate FoundUp(events: seq<Event>, session: nat) {
    events != [] &&
    var init, e := events[..|events| - 1], events[|events| - 1];
    FoundUp(init, session) || (Checks(Run(init), e, session) && Up(e.content) && Alive(init))
  }

  /** What the failed checks of the latest session count: one each, two if nothing could be read, and with pppd dead more
  than the limit. */
  function Failures(events: seq<Event>): nat {
    if events == [] then 0
    else
      var init, e := events[..|events| - 1], events[|events| - 1];
      var s := Run(init);
      if Begins(s, e) then 0
      else if !Checks(s, e, s.session) then Failures(init)
      else if !Alive(init) then 21
      else if Up(e.content) then 0
      else Failures(init) + if e.content == Some("") then 2 else 1
  }

  /** The session was given up: its checks were over without success and counted 20 or more. */
  predicate GaveUp(events: seq<Event>, session: nat) {
    events != [] &&
    var init, e := events[..|events| - 1], events[|events| - 1];
    || GaveUp(init, session)
    || (e == Finish && Run(init).pc == Ended && Run(init).session == session && !FoundUp(init, session) && Failures(init) >= 20)
  }

  /** pppd was gone at the end of the session, and the radio was still with it. */
  predicate WentDown(events: seq<Event>, session: nat) {
    events != [] &&
    var init, e := events[..|events| - 1], events[|events| - 1];
    || WentDown(init, session)
    || (e == Reaped && Run(init).pc == Reaping && Run(init).session == session && !Alive(init) && Run(init).radio == PppdReady)
  }

  // ---------------------------------------------------------------- steps

  predicate OfMainLoop(e: Event) {
    e.Begin? || e.OpenDevice? || e.AtOpen? || e == WaitOver || e.Check? || e == Judge || e == Again || e == Finish ||
    e == Reaped || e == Leave
  }

  lemma MainAlone(s: State, e: Event)
    requires OfMainLoop(e)
    ensures Step(s, e) == MainStep(s, e)
  {
    assert LoopStep(s, e) == s;
    assert OutsideStep(s, e) == s;
  }

  /** The others leave the session alone; pppd dies by ChildDies only. */
  lemma OthersLeave(s: State, e: Event)
    requires !OfMainLoop(e)
    ensures SessionUntouched(s, Step(s, e)) && Step(s, e).child == (s.child && e != ChildDies)
  {
    LoopStepSaysNothing(s, e);
    OutsideStepSaysNothing(LoopStep(s, e), e);
    assert LoopStep(s, e).child == s.child;
    assert MainStep(OutsideStep(LoopStep(s, e), e), e) == OutsideStep(LoopStep(s, e), e);
  }

  lemma ChildStep(s: State, e: Event)
    ensures Step(s, e).child <==> if Begins(s, e) then e.forked else e != ChildDies && s.child
  {
    if OfMainLoop(e) {
      MainAlone(s, e);
    } else {
      OthersLeave(s, e);
    }
  }

  /** pppd is there exactly as the events say. */
  lemma {:induction false} ChildIsAlive(events: seq<Event>)
    ensures Run(events).child <==> Alive(events)
  {
    if events != [] {
      ChildIsAlive(events[..|events| - 1]);
      ChildStep(Run(events[..|events| - 1]), events[|events| - 1]);
    }
  }

  // ---------------------------------------------------------------- what is said

  /** Where the main loop is agrees with the checks of the session. */
  ghost predicate Agrees(events: seq<Event>, s: State) {
    var up := FoundUp(events, s.session);
    && (s.pc == Checking || s.pc == Tested ==> !up)
    && (s.pc.Judged? ==> (s.pc.success <==> up))
    && (!up && (s.pc == Checking || s.pc == Tested || s.pc == Ended) ==> s.fails == Failures(events))
    && (!up && s.pc.Judged? ==> s.fails + 1 == Failures(events))
    && (forall k | k > s.session :: !FoundUp(events, k))
  }

  /** Every message was called for, and none that was is missing. */
  ghost predicate Reported(events: seq<Event>, s: State) {
    && (forall k :: Note(k, Connected) in s.notes <==> FoundUp(events, k) && !(k == s.session && s.pc.Judged?))
    && (forall k :: Note(k, Failed) in s.notes <==> GaveUp(events, k))
    && (forall k :: Note(k, Disconnected) in s.notes <==> WentDown(events, k))
  }

  lemma HistoryStep(events: seq<Event>, e: Event, k: nat)
    ensures var s, all := Run(events), events + [e];
      && (FoundUp(all, k) <==> FoundUp(events, k) || (Checks(s, e, k) && Up(e.content) && Alive(events)))
      && (GaveUp(all, k) <==>
            GaveUp(events, k)
            || (e == Finish && s.pc == Ended && s.session == k && !FoundUp(events, k) && Failures(events) >= 20))
      && (WentDown(all, k) <==>
            WentDown(events, k)
            || (e == Reaped && s.pc == Reaping && s.session == k && !Alive(events) && s.radio == PppdReady))
  {
    assert (events + [e])[..|events|] == events;
  }

  lemma FailuresStep(events: seq<Event>, e: Event)
    ensures var s := Run(events);
      Failures(events + [e]) ==
      if Begins(s, e) then 0
      else if !Checks(s, e, s.session) then Failures(events)
      else if !Alive(events) then 21
      else if Up(e.content) then 0
      else Failures(events) + if e.content == Some("") then 2 else 1
  {
    assert (events + [e])[..|events|] == events;
  }

  lemma BeginAgrees(events: seq<Event>, s: State, e: Event)
    requires s == Run(events) && Agrees(events, s) && Begins(s, e)
    ensures Agrees(events + [e], Step(s, e))
  {
    MainAlone(s, e);
    FailuresStep(events, e);
    forall k: nat
      ensures FoundUp(events + [e], k) <==> FoundUp(events, k)
    {
      HistoryStep(events, e, k);
    }
  }

  lemma CheckAgrees(events: seq<Event>, s: State, e: Event)
    requires s == Run(events) && Agrees(events, s) && e.Check? && s.pc == Checking
    ensures Agrees(events + [e], Step(s, e))
  {
    MainAlone(s, e);
    ChildIsAlive(events);
    FailuresStep(events, e);
    HistoryStep(events, e, s.session);
    forall k: nat | k > s.session
      ensures FoundUp(events + [e], k) <==> FoundUp(events, k)
    {
      HistoryStep(events, e, k);
    }
  }

  /** The main loop is among its checks. */
  predicate Checkish(pc: Pc) {
    pc == Checking || pc.Judged? || pc == Tested || pc == Ended
  }

  /** Without a check and a new session: a judgement, a look at the limit, or nothing that concerns the checks. */
  lemma OthersMove(s: State, e: Event)
    requires !Begins(s, e) && !(e.Check? && s.pc == Checking)
    ensures var s' := Step(s, e);
      && s'.session == s.session
      && (if e == Judge && s.pc.Judged? then
            s'.pc == (if s.pc.success then Ended else Tested) && (!s.pc.success ==> s'.fails == s.fails + 1)
          else
            && (s'.pc == s.pc || !Checkish(s'.pc) || (s.pc == Tested && (s'.pc == Checking || s'.pc == Ended)))
            && (Checkish(s.pc) ==> s'.fails == s.fails))
  {
    if OfMainLoop(e) {
      MainAlone(s, e);
    } else {
      OthersLeave(s, e);
    }
  }

  /** No check and no new session. */
  lemma OthersAgree(events: seq<Event>, s: State, e: Event)
    requires s == Run(events) && Agrees(events, s) && !Begins(s, e) && !(e.Check? && s.pc == Checking)
    ensures Agrees(events + [e], Step(s, e))
  {
    FailuresStep(events, e);
    forall k: nat
      ensures FoundUp(events + [e], k) <==> FoundUp(events, k)
    {
      HistoryStep(events, e, k);
    }
    OthersMove(s, e);
  }

  /** In every run. */
  lemma {:induction false} RunsAgree(events: seq<Event>)
    ensures Agrees(events, Run(events))
  {
    if events != [] {
      var init, e := events[..|events| - 1], events[|events| - 1];
      var s := Run(init);
      RunsAgree(init);
      if Begins(s, e) {
        BeginAgrees(init, s, e);
      } else if e.Check? && s.pc == Checking {
        CheckAgrees(init, s, e);
      } else {
        OthersAgree(init, s, e);
      }
      assert init + [e] == events;
    }
  }

  // ---------------------------------------------------------------- messages

  /** The message that an event sends, if any. */
  ghost predicate Sends(s: State, s': State, e: Event, what: Option<What>) {
    s'.notes == if what == None then s.notes else s.notes + [Note(s.session, what.value)]
  }

  lemma MessagesSent(s: State, e: Event) returns (what: Option<What>)
    requires Inv(s)
    ensures Sends(s, Step(s, e), e, what) && (what.Some? ==> Step(s, e).session == s.session)
    ensures what == Some(Connected) <==> e == Judge && s.pc.Judged? && s.pc.success
    ensures what == Some(Failed) <==> e == Finish && s.pc == Ended && s.fails >= 20
    ensures what == Some(Disconnected) <==> e == Reaped && s.pc == Reaping && !s.child && s.radio == PppdReady
    ensures Step(s, e).pc.Judged? ==> s.pc.Judged? || (e.Check? && s.pc == Checking)
    ensures s.pc.Judged? && e != Judge ==> Step(s, e).pc == s.pc
    ensures e == Judge ==> !Step(s, e).pc.Judged?
  {
    if OfMainLoop(e) {
      MainAlone(s, e);
      what := if e == Judge && s.pc.Judged? && s.pc.success then Some(Connected)
              else if e == Finish && s.pc == Ended && s.fails >= 20 then Some(Failed)
              else if e == Reaped && s.pc == Reaping && !s.child && s.radio == PppdReady then Some(Disconnected)
              else None;
    } else {
      OthersLeave(s, e);
      what := None;
    }
  }

  lemma OneMoreNote(notes: seq<Note>, n: Note, x: Note)
    ensures x in notes + [n] <==> x in notes || x == n
  {
  }

  lemma ConnectedReported(events: seq<Event>, s: State, e: Event, k: nat)
    requires s == Run(events) && Inv(s) && Agrees(events, s) && Reported(events, s)
    ensures var s' := Step(s, e);
      Note(k, Connected) in s'.notes <==> FoundUp(events + [e], k) && !(k == s'.session && s'.pc.Judged?)
  {
    HistoryStep(events, e, k);
    ChildIsAlive(events);
    var what := MessagesSent(s, e);
    if what.Some? {
      OneMoreNote(s.notes, Note(s.session, what.value), Note(k, Connected));
    }
    if Begins(s, e) || (e.Check? && s.pc == Checking) {
      MainAlone(s, e);
    } else {
      OthersMove(s, e);
    }
  }

  lemma EndsReported(events: seq<Event>, s: State, e: Event, k: nat)
    requires s == Run(events) && Inv(s) && Agrees(events, s) && Reported(events, s)
    ensures Note(k, Failed) in Step(s, e).notes <==> GaveUp(events + [e], k)
    ensures Note(k, Disconnected) in Step(s, e).notes <==> WentDown(events + [e], k)
  {
    HistoryStep(events, e, k);
    ChildIsAlive(events);
    var what := MessagesSent(s, e);
    if what.Some? {
      OneMoreNote(s.notes, Note(s.session, what.value), Note(k, Failed));
      OneMoreNote(s.notes, Note(s.session, what.value), Note(k, Disconnected));
    }
    if s.pc == Ended && FoundUp(events, s.session) {
      assert Note(s.session, Connected) in s.notes && s.fails == 0;
    }
  }

  /** In every run: a session has said CONNECTED if and only if some check of it has found the interface up while pppd was
  alive (and has been judged), FAILED if and only if it was given up, and DISCONNECTED if and only if pppd was
  gone at its end and the radio still with it. */
  lemma {:induction false} RunsReport(events: seq<Event>)
    ensures Reported(events, Run(events))
  {
    if events != [] {
      var init, e := events[..|events| - 1], events[|events| - 1];
      var s := Run(init);
      RunsReport(init);
      RunsAgree(init);
      RunsAreSound(init);
      assert init + [e] == events;
      forall k: nat
        ensures Note(k, Connected) in Step(s, e).notes <==> FoundUp(events, k) && !(k == Step(s, e).session && Step(s, e).pc.Judged?)
      {
        ConnectedReported(init, s, e, k);
      }
      forall k: nat
        ensures Note(k, Failed) in Step(s, e).notes <==> GaveUp(events, k)
        ensures Note(k, Disconnected) in Step(s, e).notes <==> WentDown(events, k)
      {
        EndsReported(init, s, e, k);
      }
    }
  }

  /** A check of this session, at this event, has found the interface up while pppd was alive. */
  predicate UpAt(events: seq<Event>, n: nat, session: nat) {
    n < |events| && Checks(Run(events[..n]), events[n], session) && Up(events[n].content) && Alive(events[..n])
  }

  lemma UpAtStep(events: seq<Event>, e: Event, n: nat, session: nat)
    ensures UpAt(events + [e], n, session) <==>
            UpAt(events, n, session)
            || (n == |events| && Checks(Run(events), e, session) && Up(e.content) && Alive(events))
  {
    if n <= |events| {
      assert (events + [e])[..n] == events[..n] && events[..|events|] == events;
    }
  }

  lemma {:induction false} FoundUpIff(events: seq<Event>, session: nat)
    ensures FoundUp(events, session) <==> exists n: nat :: UpAt(events, n, session)
  {
    if events != [] {
      var init, e := events[..|events| - 1], events[|events| - 1];
      assert init + [e] == events;
      FoundUpIff(init, session);
      HistoryStep(init, e, session);
      forall n: nat
        ensures UpAt(events, n, session) <==>
                UpAt(init, n, session)
                || (n == |init| && Checks(Run(init), e, session) && Up(e.content) && Alive(init))
      {
        UpAtStep(init, e, n, session);
      }
      assert UpAt(events, |init|, session) || !(Checks(Run(init), e, session) && Up(e.content) && Alive(init));
    }
  }

  /** A session says CONNECTED if and only if some check of it reads "unknown" or "up" while pppd is alive. */
  lemma ConnectedIff(events: seq<Event>, session: nat)
    requires !(session == Run(events).session && Run(events).pc.Judged?)
    ensures Note(session, Connected) in Run(events).notes <==> exists n: nat :: UpAt(events, n, session)
  {
    RunsReport(events);
    FoundUpIff(events, session);
  }

  /** The radio becomes ready with the message and by nothing else. */
  lemma ReadyIff(events: seq<Event>, e: Event)
    ensures var s, s' := Run(events), Run(events + [e]);
      (s.radio != PppdReady && s'.radio == PppdReady) <==>
      (Note(s'.session, Connected) !in s.notes && Note(s'.session, Connected) in s'.notes)
  {
    var s := Run(events);
    assert (events + [e])[..|events|] == events;
    RunsAreSound(events);
    var what := MessagesSent(s, e);
    RadioReady(s, e);
    if what.Some? {
      OneMoreNote(s.notes, Note(s.session, what.value), Note(s.session, Connected));
    }
  }

  lemma RadioReady(s: State, e: Event)
    requires Consistent(s)
    ensures if e == Judge && s.pc.Judged? && s.pc.success then Step(s, e).radio == PppdReady
            else Step(s, e).radio == PppdReady ==> s.radio == PppdReady
  {
    if OfMainLoop(e) {
      MainAlone(s, e);
    } else {
      OthersLeave(s, e);
    }
  }

  /** FAILED comes only without a successful check, and after failures that count 20; a check of a dead pppd counts more. */
  lemma FailedMeans(events: seq<Event>, session: nat) returns (n: nat)
    requires Note(session, Failed) in Run(events).notes
    ensures GivenUpAt(events, n, session)
  {
    RunsReport(events);
    n := GivenUpWhen(events, session);
  }

  /** At this event the session was given up. */
  predicate GivenUpAt(events: seq<Event>, n: nat, session: nat) {
    && n < |events| && events[n] == Finish && Run(events[..n]).pc == Ended && Run(events[..n]).session == session
    && !FoundUp(events[..n], session) && Failures(events[..n]) >= 20
  }

  lemma GivenUpStep(events: seq<Event>, e: Event, n: nat, session: nat)
    ensures GivenUpAt(events, n, session) ==> GivenUpAt(events + [e], n, session)
    ensures GaveUp(events + [e], session) && !GaveUp(events, session) ==> GivenUpAt(events + [e], |events|, session)
  {
    HistoryStep(events, e, session);
    if n <= |events| {
      assert (events + [e])[..n] == events[..n];
    }
    assert (events + [e])[..|events|] == events;
  }

  lemma {:induction false} GivenUpWhen(events: seq<Event>, session: nat) returns (n: nat)
    requires GaveUp(events, session)
    ensures GivenUpAt(events, n, session)
  {
    var init, e := events[..|events| - 1], events[|events| - 1];
    assert init + [e] == events;
    if GaveUp(init, session) {
      n := GivenUpWhen(init, session);
      GivenUpStep(init, e, n, session);
    } else {
      n := |init|;
      GivenUpStep(init, e, n, session);
    }
  }

  // ---------------------------------------------------------------- counts

  /** How many checks the latest session has made. */
  function ChecksMade(events: seq<Event>): nat {
    if events == [] then 0
    else
      var init, e := events[..|events| - 1], events[|events| - 1];
      if Begins(Run(init), e) then 0
      else ChecksMade(init) + if e.Check? && Run(init).pc == Checking then 1 else 0
  }

  /** How many dials have given pppd the radio. */
  function DialsMade(events: seq<Event>): nat {
    if events == [] then 0
    else
      var init, e := events[..|events| - 1], events[|events| - 1];
      DialsMade(init) + if e == DialSet && Run(init).dialling == Some(true) then 1 else 0
  }

  /** How many sessions have begun. */
  function SessionsBegun(events: seq<Event>): nat {
    if events == [] then 0
    else
      var init, e := events[..|events| - 1], events[|events| - 1];
      SessionsBegun(init) + if Begins(Run(init), e) then 1 else 0
  }

  lemma ChecksStep(s: State, e: Event)
    ensures Step(s, e).checks == if Begins(s, e) then 0 else s.checks + if e.Check? && s.pc == Checking then 1 else 0
  {
    if OfMainLoop(e) {
      MainAlone(s, e);
    } else {
      OthersLeave(s, e);
    }
  }

  lemma SessionsStep(s: State, e: Event)
    ensures Step(s, e).session == s.session + if Begins(s, e) then 1 else 0
  {
    if OfMainLoop(e) {
      MainAlone(s, e);
    } else {
      OthersLeave(s, e);
    }
  }

  lemma DialsStep(s: State, e: Event)
    ensures Step(s, e).dials == s.dials + if e == DialSet && s.dialling == Some(true) then 1 else 0
  {
    if OfMainLoop(e) {
      MainAlone(s, e);
    } else {
      assert Step(s, e).dials == LoopStep(s, e).dials;
    }
  }

  lemma {:induction false} CountsAreMade(events: seq<Event>)
    ensures var s := Run(events);
      s.checks == ChecksMade(events) && s.dials == DialsMade(events) && s.session == SessionsBegun(events)
  {
    if events != [] {
      CountsAreMade(events[..|events| - 1]);
      ChecksStep(Run(events[..|events| - 1]), events[|events| - 1]);
      SessionsStep(Run(events[..|events| - 1]), events[|events| - 1]);
      DialsStep(Run(events[..|events| - 1]), events[|events| - 1]);
    }
  }

  /** In every run: at most 20 checks in a session, and no more sessions than dials that gave pppd the radio. */
  lemma CountsAreBounded(events: seq<Event>)
    ensures ChecksMade(events) <= 20 && SessionsBegun(events) <= DialsMade(events)
  {
    CountsAreMade(events);
    CheckLoopEnds(events);
    SessionsAreDialled(events);
  }
}
