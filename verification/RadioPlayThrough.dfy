/** That sessions of pppd in huawei_tgm/huawei-tgm.c come about: one that comes up and one that does not. */
module RadioPlayThrough {
  import opened CText
  import opened RadioMachine
  import opened RadioSessions

  /** Where more events lead from a state. */
  function Goes(s: State, more: seq<Event>): State {
    if more == [] then s else Step(Goes(s, more[..|more| - 1]), more[|more| - 1])
  }

  lemma {:induction false} GoesRun(events: seq<Event>, more: seq<Event>)
    ensures Run(events + more) == Goes(Run(events), more)
    decreases |more|
  {
    if more == [] {
      assert events + more == events;
    } else {
      GoesRun(events, more[..|more| - 1]);
      assert (events + more)[..|events + more| - 1] == events + more[..|more| - 1];
    }
  }

  lemma {:induction false} GoesOn(s: State, one: seq<Event>, two: seq<Event>)
    ensures Goes(s, one + two) == Goes(Goes(s, one), two)
    decreases |two|
  {
    if two == [] {
      assert one + two == one;
    } else {
      GoesOn(s, one, two[..|two| - 1]);
      assert (one + two)[..|one + two| - 1] == one + two[..|two| - 1];
    }
  }

  lemma GoesOne(s: State, more: seq<Event>, e: Event)
    ensures Goes(s, more + [e]) == Step(Goes(s, more), e)
  {
    assert (more + [e])[..|more|] == more;
  }

  lemma GoesThree(s: State, a: Event, b: Event, c: Event)
    ensures Goes(s, [a, b, c]) == Step(Step(Step(s, a), b), c)
  {
    GoesOne(s, [], a);
    GoesOne(s, [] + [a], b);
    GoesOne(s, [] + [a] + [b], c);
    assert [a, b, c] == [] + [a] + [b] + [c];
  }

  /** What the end of a session adds to the messages. */
  function Closing(s: State): seq<Note> {
    (if s.fails >= 20 then [Note(s.session, Failed)] else [])
    + if s.radio == PppdReady then [Note(s.session, Disconnected)] else []
  }

  lemma FinishStep(s: State)
    requires s.pc == Ended
    ensures Step(s, Finish) == s.(pc := Reaping, notes := s.notes + if s.fails >= 20 then [Note(s.session, Failed)] else [])
  {
    MainAlone(s, Finish);
    assert s.notes + [] == s.notes;
  }

  lemma DiesStep(s: State)
    ensures Step(s, ChildDies) == s.(child := false)
  {
    assert LoopStep(s, ChildDies) == s;
  }

  lemma ReapedStep(s: State)
    requires s.pc == Reaping && !s.child
    ensures Step(s, Reaped) ==
            s.(pc := Leaving, notes := s.notes + if s.radio == PppdReady then [Note(s.session, Disconnected)] else [])
  {
    MainAlone(s, Reaped);
    assert s.notes + [] == s.notes;
  }

  lemma LeaveStep(s: State)
    requires s.pc == Leaving
    ensures var s' := Step(s, Leave); s'.pc == Top && s'.radio == Unavailable && s'.checks == s.checks && s'.notes == s.notes
  {
    MainAlone(s, Leave);
  }

  /** The end of a session has come. */
  ghost predicate Closed(s: State, s': State) {
    s'.pc == Top && s'.radio == Unavailable && s'.checks == s.checks && s'.notes == s.notes + Closing(s)
  }

  lemma CloseGoes(s: State) returns (more: seq<Event>)
    requires s.pc == Ended
    ensures Closed(s, Goes(s, more))
  {
    var finished := Step(s, Finish);
    FinishStep(s);
    var dead := Step(finished, ChildDies);
    DiesStep(finished);
    var reaped := Step(dead, Reaped);
    ReapedStep(dead);
    LeaveStep(reaped);
    GoesThree(s, Finish, ChildDies, Reaped);
    GoesOne(s, [Finish, ChildDies, Reaped], Leave);
    more := [Finish, ChildDies, Reaped] + [Leave];
    assert reaped.notes == s.notes + Closing(s);
  }

  lemma BeginStep(s: State)
    requires s.pc == Top && s.radio == Pppd
    ensures Step(s, Begin(true)) == s.(pc := Checking, session := s.session + 1, child := true, fails := 0, checks := 0)
  {
    MainAlone(s, Begin(true));
  }

  /** pppd is alive and the state file says that the interface is up. */
  lemma UpStep(s: State)
    requires s.pc == Checking && s.child
    ensures Step(s, Check(Some("up"))) == s.(checks := s.checks + 1, pc := Judged(true))
  {
    MainAlone(s, Check(Some("up")));
  }

  /** There is no state file. */
  lemma NotUpStep(s: State)
    requires s.pc == Checking && s.child
    ensures Step(s, Check(None)) == s.(checks := s.checks + 1, pc := Judged(false))
  {
    MainAlone(s, Check(None));
  }

  lemma JudgeStep(s: State)
    requires s.pc.Judged?
    ensures !s.pc.success ==> Step(s, Judge) == s.(fails := s.fails + 1, pc := Tested)
    ensures var s' := Step(s, Judge); s.pc.success ==>
      && s'.pc == Ended && s'.radio == PppdReady && s'.fails == 0 && s'.checks == s.checks && s'.session == s.session
      && s'.notes == s.notes + [Note(s.session, Connected)]
  {
    MainAlone(s, Judge);
  }

  lemma AgainStep(s: State)
    requires s.pc == Tested && s.child
    ensures Step(s, Again) == s.(pc := if s.fails < 20 then Checking else Ended)
  {
    MainAlone(s, Again);
  }

  /** A session that comes up. */
  ghost predicate CameUp(s: State, s': State) {
    && s'.pc == Top && s'.radio == Unavailable && s'.checks == 1
    && s'.notes == s.notes + [Note(s.session + 1, Connected), Note(s.session + 1, Disconnected)]
  }

  lemma UpGoes(s: State) returns (more: seq<Event>)
    requires s.pc == Top && s.radio == Pppd
    ensures CameUp(s, Goes(s, more))
  {
    var begun := Step(s, Begin(true));
    BeginStep(s);
    var checked := Step(begun, Check(Some("up")));
    UpStep(begun);
    var judged := Step(checked, Judge);
    JudgeStep(checked);
    GoesThree(s, Begin(true), Check(Some("up")), Judge);
    var rest := CloseGoes(judged);
    GoesOn(s, [Begin(true), Check(Some("up")), Judge], rest);
    more := [Begin(true), Check(Some("up")), Judge] + rest;
    var n := s.session + 1;
    assert s.notes + [Note(n, Connected)] + ([] + [Note(n, Disconnected)]) == s.notes + [Note(n, Connected), Note(n, Disconnected)];
  }

  /** A check that finds the interface not up, and its judgement. */
  lemma FailSteps(s: State)
    requires s.pc == Checking && s.child && s.fails < 20
    ensures Goes(s, [Check(None), Judge, Again]) ==
            s.(checks := s.checks + 1, fails := s.fails + 1, pc := if s.fails + 1 < 20 then Checking else Ended)
  {
    var checked := Step(s, Check(None));
    NotUpStep(s);
    var judged := Step(checked, Judge);
    JudgeStep(checked);
    AgainStep(judged);
    GoesThree(s, Check(None), Judge, Again);
  }

  /** Checks that find the interface not up, until the limit is reached. */
  lemma {:induction false} ChecksFail(s: State) returns (more: seq<Event>)
    requires s.pc == Checking && s.child && s.fails < 20
    ensures Goes(s, more) == s.(checks := s.checks + 20 - s.fails, fails := 20, pc := Ended)
    decreases 20 - s.fails
  {
    FailSteps(s);
    more := [Check(None), Judge, Again];
    if s.fails + 1 < 20 {
      var rest := ChecksFail(Goes(s, more));
      GoesOn(s, more, rest);
      more := more + rest;
    }
  }

  /** A session that does not. */
  ghost predicate CameToNothing(s: State, s': State) {
    s'.pc == Top && s'.radio == Unavailable && s'.checks == 20 && s'.notes == s.notes + [Note(s.session + 1, Failed)]
  }

  lemma DownGoes(s: State) returns (more: seq<Event>)
    requires s.pc == Top && s.radio == Pppd
    ensures CameToNothing(s, Goes(s, more))
  {
    var begun := Step(s, Begin(true));
    BeginStep(s);
    var checks := ChecksFail(begun);
    var ended := Goes(begun, checks);
    var rest := CloseGoes(ended);
    GoesOne(s, [], Begin(true));
    assert [] + [Begin(true)] == [Begin(true)];
    GoesOn(s, [Begin(true)], checks);
    GoesOn(s, [Begin(true)] + checks, rest);
    more := [Begin(true)] + checks + rest;
    assert [Note(s.session + 1, Failed)] + [] == [Note(s.session + 1, Failed)];
  }

  /** Whenever pppd has been given the radio and the main loop is at its top, a session can follow that says CONNECTED and
  DISCONNECTED, and another one that says FAILED, after exactly 20 checks. */
  lemma SessionsComeAbout(events: seq<Event>) returns (up: seq<Event>, down: seq<Event>)
    requires Run(events).pc == Top && Run(events).radio == Pppd
    ensures CameUp(Run(events), Run(events + up)) && CameToNothing(Run(events), Run(events + down))
  {
    up := UpGoes(Run(events));
    GoesRun(events, up);
    down := DownGoes(Run(events));
    GoesRun(events, down);
  }
}
