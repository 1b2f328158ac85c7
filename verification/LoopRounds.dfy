/** That tgm_event_loop() goes round: when it stops, how it comes back to select(), and what empties the wake-up pipe. */
module LoopRounds {
  import opened Sequences
  import opened CText
  import opened TimerQueue
  import opened LoopRuns

  lemma RunStep(events: seq<Event>, e: Event)
    ensures Run(events + [e]) == Step(Run(events), e)
  {
    assert (events + [e])[..|events|] == events;
  }

  lemma RunMore(events: seq<Event>, more: seq<Event>, e: Event)
    ensures Run(events + (more + [e])) == Step(Run(events + more), e)
  {
    Assoc(events, more, [e]);
    RunStep(events + more, e);
  }

  // ---------------------------------------------------------------- stopping

  /** select() has failed for good: with an error other than EINTR. */
  ghost predicate HasFailed(events: seq<Event>) {
    exists n | 0 <= n < |events| :: events[n] == Failed && Run(events[..n]).pc.Selecting?
  }

  lemma HasFailedStep(events: seq<Event>, e: Event)
    ensures HasFailed(events + [e]) <==> HasFailed(events) || (e == Failed && Run(events).pc.Selecting?)
  {
    var all := events + [e];
    assert all[..|events|] == events;
    if HasFailed(events) {
      var n :| 0 <= n < |events| && events[n] == Failed && Run(events[..n]).pc.Selecting?;
      assert all[n] == Failed && all[..n] == events[..n];
    }
    if HasFailed(all) {
      var n :| 0 <= n < |all| && all[n] == Failed && Run(all[..n]).pc.Selecting?;
      if n < |events| {
        assert events[n] == Failed && all[..n] == events[..n];
      }
    }
  }

  lemma StoppedStep(s: State, e: Event)
    ensures Step(s, e).pc == Stopped <==> s.pc == Stopped || (e == Failed && s.pc.Selecting?)
  {
  }

  /** In every run the loop has stopped if and only if select() has failed for good. */
  lemma {:induction false} StoppedIff(events: seq<Event>)
    ensures Run(events).pc == Stopped <==> HasFailed(events)
  {
    if events != [] {
      var init, e := events[..|events| - 1], events[|events| - 1];
      assert events == init + [e];
      StoppedIff(init);
      HasFailedStep(init, e);
      StoppedStep(Run(init), e);
    }
  }

  // ---------------------------------------------------------------- from one select() to the next

  lemma OnlyCalcMoves(s: State, e: Event)
    ensures s.pc == Top && e != Copy ==> Step(s, e).pc == Top
    ensures s.pc.Copied? && e != Calc ==> Step(s, e).pc == s.pc
  {
  }

  /** Whatever the others do, the loop waits at its top for its next copy ... */
  lemma {:induction false} WaitsAtTop(events: seq<Event>, others: seq<Event>)
    requires Run(events).pc == Top && Copy !in others
    ensures Run(events + others).pc == Top
    decreases |others|
  {
    if others == [] {
      assert events + others == events;
    } else {
      var init, e := others[..|others| - 1], others[|others| - 1];
      assert others == init + [e];
      WaitsAtTop(events, init);
      RunMore(events, init, e);
      OnlyCalcMoves(Run(events + init), e);
    }
  }

  /** ... and behind it for the timeout, with the fds that were watched then. */
  lemma {:induction false} WaitsBehindCopy(events: seq<Event>, others: seq<Event>)
    requires Run(events).pc.Copied? && Calc !in others
    ensures Run(events + others).pc == Run(events).pc
    decreases |others|
  {
    if others == [] {
      assert events + others == events;
    } else {
      var init, e := others[..|others| - 1], others[|others| - 1];
      assert others == init + [e];
      WaitsBehindCopy(events, init);
      RunMore(events, init, e);
      OnlyCalcMoves(Run(events + init), e);
    }
  }

  /** From the top, the next copy and the next timeout lead to select(), with the fds that were watched when they were copied
  and the timeout that the first timer asks for, whatever the others do in between. */
  lemma NextSelect(events: seq<Event>, one: seq<Event>, two: seq<Event>)
    requires Run(events).pc == Top && Copy !in one && Calc !in two
    ensures var copied := events + one; var calculated := copied + [Copy] + two;
      Run(calculated + [Calc]).pc == Selecting(Run(copied).watched, Run(calculated).clock, Wait(Run(calculated)))
  {
    WaitsAtTop(events, one);
    RunStep(events + one, Copy);
    WaitsBehindCopy(events + one + [Copy], two);
    RunStep(events + one + [Copy] + two, Calc);
  }

  /** When the last pending entry has been fired, and when select() was interrupted, the loop is at its top again. */
  lemma PassEnds(events: seq<Event>)
    ensures Run(events).pc == Firing && Run(events).pending == [] ==> Run(events + [Fire]).pc == Top
    ensures Run(events).pc.Selecting? ==> Run(events + [Interrupted]).pc == Top
  {
    RunStep(events, Fire);
    RunStep(events, Interrupted);
  }

  /** So, from either, to select() again. */
  lemma RoundAgain(events: seq<Event>, last: Event, one: seq<Event>, two: seq<Event>)
    requires Copy !in one && Calc !in two
    requires var s := Run(events); (last == Fire && s.pc == Firing && s.pending == []) || (last == Interrupted && s.pc.Selecting?)
    ensures var copied := events + [last] + one; var calculated := copied + [Copy] + two;
      Run(calculated + [Calc]).pc == Selecting(Run(copied).watched, Run(calculated).clock, Wait(Run(calculated)))
  {
    PassEnds(events);
    NextSelect(events + [last], one, two);
  }

  // ---------------------------------------------------------------- a whole pass

  lemma {:induction false} InSomeOrder(ready: set<int>) returns (order: seq<int>)
    ensures forall fd :: fd in order <==> fd in ready
    ensures forall i, j | 0 <= i < j < |order| :: order[i] != order[j]
    decreases ready
  {
    order := [];
    if fd :| fd in ready {
      var rest := InSomeOrder(ready - {fd});
      order := [fd] + rest;
    }
  }

  /** Everything pending has been fired, in order, and nothing else has happened. */
  ghost predicate AllFired(s: State, s': State) {
    && s'.pc == Top && s'.pending == [] && s'.fired == s.fired + s.pending
    && s'.timers == s.timers && s'.watched == s.watched && s'.clock == s.clock
  }

  lemma FireOne(s: State)
    requires s.pc == Firing
    ensures s.pending == [] ==> AllFired(s, Step(s, Fire))
    ensures s.pending != [] ==> Step(s, Fire).pc == Firing && |Step(s, Fire).pending| == |s.pending| - 1
    ensures forall s' | s.pending != [] && AllFired(Step(s, Fire), s') :: AllFired(s, s')
  {
    if s.pending == [] {
      assert s.fired + [] == s.fired;
    } else {
      assert s.fired + s.pending == s.fired + [s.pending[0]] + s.pending[1..];
    }
  }

  /** Everything that is pending can be fired, in order, and then the loop is at its top. */
  lemma {:induction false} FiresAll(events: seq<Event>, s: State) returns (more: seq<Event>)
    requires s == Run(events) && s.pc == Firing
    ensures AllFired(s, Run(events + more))
    decreases |s.pending|
  {
    RunStep(events, Fire);
    FireOne(s);
    if s.pending == [] {
      more := [Fire];
    } else {
      var rest := FiresAll(events + [Fire], Step(s, Fire));
      more := [Fire] + rest;
      Assoc(events, [Fire], rest);
    }
  }

  /** The state in front of the first callback of a pass. */
  ghost function AllQueued(s: State, order: seq<int>, k: nat): State
    requires k <= |s.timers|
  {
    s.(timers := s.timers[k..], pending := s.pending + Stamp(s.timers[..k], s.clock) + Queued(order),
       sample := s.clock, pc := Firing)
  }

  lemma PassQueues(s: State, ready: set<int>, order: seq<int>) returns (k: nat)
    requires s.pc.Selecting? && MayReturn(s, ready) && MayQueue(s, ready, order, {})
    ensures k <= |s.timers|
    ensures Step(Step(Step(s, Select(ready)), Timeouts), Readies(order, {})) == AllQueued(s, order, k)
    ensures (forall i | 0 <= i < k :: s.timers[i].deadline < s.clock)
    ensures k < |s.timers| ==> s.timers[k].deadline >= s.clock
  {
    k := Leading(Deadlines(s.timers), s.clock);
    var one := Step(s, Select(ready));
    assert one == s.(pc := Returned(ready));
    var two := Step(one, Timeouts);
    assert two == s.(timers := s.timers[k..], pending := s.pending + Stamp(s.timers[..k], s.clock),
                     sample := s.clock, pc := TimeoutsDone(ready));
    assert s.watched - {} == s.watched;
    assert forall i | 0 <= i < k :: Deadlines(s.timers)[i] == s.timers[i].deadline;
  }

  lemma RunThree(events: seq<Event>, a: Event, b: Event, c: Event)
    ensures Run(events + [a, b, c]) == Step(Step(Step(Run(events), a), b), c)
  {
    assert events + [a, b, c] == events + [a] + [b] + [c];
    RunStep(events, a);
    RunStep(events + [a], b);
    RunStep(events + [a] + [b], c);
  }

  lemma RunTwo(events: seq<Event>, a: Event, b: Event)
    ensures Run(events + [a, b]) == Step(Step(Run(events), a), b)
  {
    assert events + [a, b] == events + [a] + [b];
    RunStep(events, a);
    RunStep(events + [a], b);
  }

  lemma CopyCalc(s: State)
    requires s.pc == Top
    ensures Step(Step(s, Copy), Calc) == s.(pc := Selecting(s.watched, s.clock, Wait(s)))
  {
    assert Step(s, Copy) == s.(pc := Copied(s.watched));
  }

  /** A pass: once select() has returned with some fds, the loop's own steps take it to select() again.  By then it has
  fired what was pending, every timer that was past its deadline, and every one of these fds that is watched. */
  lemma PassIsMade(events: seq<Event>, ready: set<int>) returns (more: seq<Event>, order: seq<int>, k: nat)
    requires Run(events).pc.Selecting? && MayReturn(Run(events), ready)
    ensures var s, s' := Run(events), Run(events + more);
      && k <= |s.timers| && s'.timers == s.timers[k..]
      && s'.pc.Selecting? && s'.pc.rfds == s.watched && s'.pending == []
      && s'.fired == s.fired + (s.pending + Stamp(s.timers[..k], s.clock) + Queued(order))
      && (forall i | 0 <= i < k :: s.timers[i].deadline < s.clock)
      && (k < |s.timers| ==> s.timers[k].deadline >= s.clock)
    ensures forall fd :: fd in order <==> fd in ready && fd in Run(events).watched
    ensures forall i, j | 0 <= i < j < |order| :: order[i] != order[j]
  {
    var s := Run(events);
    order := InSomeOrder(ready * s.watched);
    k := PassQueues(s, ready, order);
    var queues := [Select(ready), Timeouts, Readies(order, {})];
    RunThree(events, Select(ready), Timeouts, Readies(order, {}));
    var fires := FiresAll(events + queues, AllQueued(s, order, k));
    RunTwo(events + queues + fires, Copy, Calc);
    CopyCalc(Run(events + queues + fires));
    more := queues + fires + [Copy, Calc];
    Assoc(events, queues, fires);
    Assoc(events, queues + fires, [Copy, Calc]);
  }

  // ---------------------------------------------------------------- the pipe

  /** The adder writes its byte. */
  ghost predicate Writes(s: State, e: Event) {
    e.Write? && e.what in s.writing
  }

  /** The wake-up callback empties the pipe. */
  ghost predicate Empties(s: State, e: Event) {
    e == Fire && s.pc == Firing && s.pending != [] && s.pending[0] == Ready(WAKE)
  }

  /** Bytes written since the pipe was last emptied. */
  ghost function Written(events: seq<Event>): nat {
    if events == [] then 0
    else
      var init, e := events[..|events| - 1], events[|events| - 1];
      if Empties(Run(init), e) then 0
      else Written(init) + if Writes(Run(init), e) then 1 else 0
  }

  /** In every run the bytes in the pipe are those written since its event was last fired. */
  lemma {:induction false} PipeHolds(events: seq<Event>)
    ensures Run(events).pipe == Written(events)
  {
    if events != [] {
      PipeHolds(events[..|events| - 1]);
    }
  }

  ghost predicate NotEmptied(events: seq<Event>, n: nat) {
    forall m | n < m < |events| :: !Empties(Run(events[..m]), events[m])
  }

  /** A byte was written at this event, and the pipe has not been emptied since. */
  ghost predicate LeftAt(events: seq<Event>, n: nat) {
    n < |events| && Writes(Run(events[..n]), events[n]) && NotEmptied(events, n)
  }

  /** A byte has been written, and the pipe has not been emptied since. */
  ghost predicate ByteLeft(events: seq<Event>) {
    exists n: nat :: LeftAt(events, n)
  }

  lemma NotEmptiedStep(events: seq<Event>, e: Event, n: nat)
    requires n < |events|
    ensures NotEmptied(events + [e], n) <==> NotEmptied(events, n) && !Empties(Run(events), e)
  {
    var all := events + [e];
    assert all[..|events|] == events;
    assert forall m | 0 <= m < |events| :: all[..m] == events[..m] && all[m] == events[m];
  }

  lemma LeftAtStep(events: seq<Event>, e: Event, n: nat)
    ensures LeftAt(events + [e], n) <==>
            (LeftAt(events, n) && !Empties(Run(events), e)) || (n == |events| && Writes(Run(events), e))
  {
    var all := events + [e];
    if n < |events| {
      NotEmptiedStep(events, e, n);
      assert all[..n] == events[..n] && all[n] == events[n];
    } else if n == |events| {
      assert all[..n] == events && NotEmptied(all, n);
    }
  }

  lemma ByteLeftStep(events: seq<Event>, e: Event)
    ensures ByteLeft(events + [e]) <==> Writes(Run(events), e) || (ByteLeft(events) && !Empties(Run(events), e))
  {
    LeftAtStep(events, e, |events|);
    if ByteLeft(events) {
      var n: nat :| LeftAt(events, n);
      LeftAtStep(events, e, n);
    }
    if ByteLeft(events + [e]) {
      var n: nat :| LeftAt(events + [e], n);
      LeftAtStep(events, e, n);
    }
  }

  lemma PipeStep(s: State, e: Event)
    ensures Step(s, e).pipe > 0 <==> Writes(s, e) || (s.pipe > 0 && !Empties(s, e))
  {
  }

  lemma OneMoreEvent(events: seq<Event>, e: Event)
    requires Run(events).pipe > 0 <==> ByteLeft(events)
    ensures Run(events + [e]).pipe > 0 <==> ByteLeft(events + [e])
  {
    RunStep(events, e);
    ByteLeftStep(events, e);
    PipeStep(Run(events), e);
  }

  /** There is one if and only if one was written behind the last time that its event was fired. */
  lemma {:induction false} PipeIff(events: seq<Event>)
    ensures Run(events).pipe > 0 <==> ByteLeft(events)
  {
    if events != [] {
      var init := events[..|events| - 1];
      PipeIff(init);
      OneMoreEvent(init, events[|events| - 1]);
      assert init + [events[|events| - 1]] == events;
    }
  }
}
