/** The wake lock of libtgm/tgm.cpp on top of the event loop: grabbed for every unsolicited
response, released by a timer one second after the latest of them.

TGM_onUnsolicitedResponse() and each callback are one event.  Every response code asks for the
wake lock. */
module WakeLocks {
  import opened CText
  import opened LoopRuns

  /** TIMEVAL_WAKE_TIMEOUT, in microseconds. */
  const WAKE_TIMEOUT := 1000000

  /** A release of the lock: by which clock, and when the latest response before it came. */
  datatype Release = ByTimer(sample: int, latest: int) | ByError

  datatype Phone = Phone(
    loop: State,
    held: bool,
    last: Option<nat>,       // s_last_wake_timeout_info
    wakes: set<nat>,         // the timers that run wakeTimeoutCallback()
    cancelled: set<nat>,     // of these, the ones with a non-NULL userParam
    latest: int,             // when the latest response came that set a timer
    spoiled: bool,           // an error exit since then
    releases: seq<Release>)

  const START := Phone(INITIAL, false, None, {}, {}, 0, false, [])

  datatype Happening =
    | Loop(event: Event)                          // whatever does not concern timers being added or fired
    | RequestTimer(delay: nat, inLoop: bool)      // TGM_requestTimedCallback()
    | Unsolicited(marshals: bool, inLoop: bool)   // TGM_onUnsolicitedResponse()
    | FireTimer                                   // firePending() takes an expired timer

  predicate TimerNext(s: State) {
    s.pc == Firing && s.pending != [] && s.pending[0].Expired?
  }

  predicate Aside(s: State, e: Event) {
    !e.AddTimer? && !(e == Fire && TimerNext(s))
  }

  /** The normal exit; `loop` is the loop with the new timer. */
  function OnUnsolicited(p: Phone, loop: State): Phone {
    var id := |p.loop.added|;
    p.(loop := loop, held := true, last := Some(id),
       wakes := p.wakes + {id}, cancelled := if p.last.Some? then p.cancelled + {p.last.value} else p.cancelled,
       latest := p.loop.clock, spoiled := false)
  }

  /** userTimerCallback(), and wakeTimeoutCallback() if it is a wake timer; `loop` is the loop
  without the timer. */
  function OnFireTimer(p: Phone, loop: State): Phone
    requires TimerNext(p.loop)
  {
    var entry := p.loop.pending[0];
    var id := entry.timer.id;
    var releases := id in p.wakes && id !in p.cancelled;
    p.(loop := loop,
       held := p.held && !releases,
       last := if p.last == Some(id) then None else p.last,
       releases := if releases then p.releases + [ByTimer(entry.sample, p.latest)] else p.releases)
  }

  /** A happening that cannot be leaves everything alone. */
  ghost function Happen(p: Phone, h: Happening): Phone {
    match h
    case Loop(e) => if Aside(p.loop, e) then p.(loop := Step(p.loop, e)) else p
    case RequestTimer(delay, inLoop) => p.(loop := Step(p.loop, AddTimer(delay, inLoop)))
    case Unsolicited(marshals, inLoop) =>
      if inLoop && p.loop.pc != Firing then p
      else if marshals then OnUnsolicited(p, Step(p.loop, AddTimer(WAKE_TIMEOUT, inLoop)))
      else p.(held := false, spoiled := true, releases := p.releases + [ByError])
    case FireTimer => if TimerNext(p.loop) then OnFireTimer(p, Step(p.loop, Fire)) else p
  }

  ghost function Live(hs: seq<Happening>): Phone {
    if hs == [] then START else Happen(Live(hs[..|hs| - 1]), hs[|hs| - 1])
  }

  // ---------------------------------------------------------------- the queued timers

  /** The timers in the timer list and in the pending list. */
  ghost function Queue(s: State): set<Timer> {
    (set t | t in s.timers) + set t | t in Expirations(s.pending)
  }

  lemma AddTimerQueues(s: State, delay: nat, inLoop: bool)
    ensures Queue(OnAddTimer(s, delay, inLoop)) == Queue(s) + {Timer(|s.added|, s.clock + delay)}
  {
    InsertTimerMembers(s.timers, Timer(|s.added|, s.clock + delay));
  }

  lemma TimeoutsKeepQueue(s: State, ready: set<int>)
    ensures Queue(OnTimeouts(s, ready)) == Queue(s)
  {
    var s' := OnTimeouts(s, ready);
    var k := |s.timers| - |s'.timers|;
    assert s.timers == s.timers[..k] + s.timers[k..];
    ExpirationsAppend(s.pending, Stamp(s.timers[..k], s.clock));
    ExpirationsOfStamp(s.timers[..k], s.clock);
  }

  /** Firing takes the fired timer out of the queue and no other. */
  lemma FireQueues(s: State)
    requires Timely(s) && s.pending != []
    ensures var e := s.pending[0];
      Queue(OnFire(s)) == (if e.Expired? then Queue(s) - {e.timer} else Queue(s))
  {
    var e, rest := s.pending[0], s.pending[1..];
    if e.Expired? {
      assert s.pending == [e] + rest;
      ExpirationsAppend(s.fired, s.pending);
      assert Expirations(s.pending) == [e.timer] + Expirations(rest);
      Unique(s, e.timer);
    }
  }

  /** A timer is queued or fired once. */
  lemma Unique(s: State, t: Timer)
    requires Timely(s) && t in Expirations(s.pending)
    ensures multiset(s.timers)[t] + multiset(Expirations(s.pending))[t] == 1
  {
    ExpirationsAppend(s.fired, s.pending);
    assert multiset(s.added)[t] > 0;
    OnceEach(s.added, t.id);
  }

  lemma ReadiesKeepQueue(s: State, s': State, order: seq<int>)
    requires s'.timers == s.timers && s'.pending == s.pending + Queued(order)
    ensures Queue(s') == Queue(s)
  {
    ExpirationsAppend(s.pending, Queued(order));
    ExpirationsOfQueued(order);
  }

  lemma AsideKeepsQueue(s: State, e: Event)
    requires Timely(s) && Aside(s, e)
    ensures Queue(Step(s, e)) == Queue(s)
  {
    if e == Timeouts {
      if s.pc.Returned? {
        TimeoutsKeepQueue(s, s.pc.ready);
      }
    } else if e.Readies? {
      if s.pc.TimeoutsDone? && MayQueue(s, s.pc.ready, e.order, e.once) {
        ReadiesKeepQueue(s, Step(s, e), e.order);
      }
    } else if e == Fire {
      if s.pc == Firing && s.pending != [] {
        FireQueues(s);
      }
    } else {
      assert Step(s, e).timers == s.timers && Step(s, e).pending == s.pending;
    }
  }

  // ---------------------------------------------------------------- the invariant

  /** The wake timers that are queued and would release the lock. */
  ghost function Uncancelled(p: Phone): set<Timer> {
    set t | t in Queue(p.loop) && t.id in p.wakes && t.id !in p.cancelled
  }

  ghost predicate Covered(p: Phone) {
    && (p.held <==> p.last.Some? && !p.spoiled)
    && Uncancelled(p) == if p.last.Some? then {Timer(p.last.value, p.latest + WAKE_TIMEOUT)} else {}
  }

  ghost predicate Known(p: Phone) {
    && (forall id | id in p.wakes :: id < |p.loop.added|)
    && (forall id | id in p.cancelled :: id < |p.loop.added|)
    && (p.last.Some? ==> p.last.value in p.wakes)
  }

  ghost predicate Late(releases: seq<Release>) {
    forall i | 0 <= i < |releases| && releases[i].ByTimer? :: releases[i].sample > releases[i].latest + WAKE_TIMEOUT
  }

  ghost predicate Inv(p: Phone) {
    Timely(p.loop) && Covered(p) && Known(p) && Late(p.releases)
  }

  lemma QueuedIsAdded(s: State, t: Timer)
    requires Timely(s) && t in Queue(s)
    ensures t.id < |s.added| && s.added[t.id] == t
  {
    ExpirationsAppend(s.fired, s.pending);
    assert t in multiset(s.added);
  }

  lemma LoopKeepsInv(p: Phone, loop: State)
    requires Inv(p) && Timely(loop) && Queue(loop) == Queue(p.loop) && |loop.added| == |p.loop.added|
    ensures Inv(p.(loop := loop))
  {
    assert Uncancelled(p.(loop := loop)) == Uncancelled(p);
  }

  lemma AsideStep(s: State, e: Event)
    requires Timely(s) && Aside(s, e)
    ensures var s' := Step(s, e); Timely(s') && Queue(s') == Queue(s) && |s'.added| == |s.added|
  {
    StepKeepsTimely(s, e);
    AsideKeepsQueue(s, e);
  }

  /** What adding a timer does to the loop. */
  ghost predicate OneMoreTimer(s: State, s': State, t: Timer) {
    && Timely(s') && Queue(s') == Queue(s) + {t}
    && t.id == |s.added| && |s'.added| == |s.added| + 1
  }

  lemma AddTimerStep(s: State, delay: nat, inLoop: bool) returns (s': State)
    requires Timely(s) && (inLoop ==> s.pc == Firing)
    ensures s' == Step(s, AddTimer(delay, inLoop)) && OneMoreTimer(s, s', Timer(|s.added|, s.clock + delay))
  {
    s' := Step(s, AddTimer(delay, inLoop));
    StepKeepsTimely(s, AddTimer(delay, inLoop));
    AddTimerQueues(s, delay, inLoop);
  }

  lemma RequestKeepsInv(p: Phone, loop: State, t: Timer)
    requires Inv(p) && OneMoreTimer(p.loop, loop, t)
    ensures Inv(p.(loop := loop))
  {
    assert Uncancelled(p.(loop := loop)) == Uncancelled(p);
  }

  lemma OnlyTheNew(p: Phone, p': Phone, t: Timer)
    requires Timely(p.loop) && Covered(p) && Known(p) && OneMoreTimer(p.loop, p'.loop, t)
    requires p'.wakes == p.wakes + {t.id}
    requires p'.cancelled == if p.last.Some? then p.cancelled + {p.last.value} else p.cancelled
    ensures Uncancelled(p') == {t}
  {
    forall x | x in Queue(p.loop) && x.id in p.wakes
      ensures x.id in p'.cancelled
    {
      if x.id !in p.cancelled {
        assert x in Uncancelled(p);
      }
    }
    forall x | x in Queue(p.loop)
      ensures x.id != t.id
    {
      QueuedIsAdded(p.loop, x);
    }
  }

  lemma UnsolicitedKeepsInv(p: Phone, loop: State)
    requires Inv(p) && OneMoreTimer(p.loop, loop, Timer(|p.loop.added|, p.loop.clock + WAKE_TIMEOUT))
    ensures Inv(OnUnsolicited(p, loop))
  {
    OnlyTheNew(p, OnUnsolicited(p, loop), Timer(|p.loop.added|, p.loop.clock + WAKE_TIMEOUT));
  }

  /** The timer that fires is the one that counts if and only if it has not been cancelled. */
  lemma FiresLast(p: Phone)
    requires Inv(p) && TimerNext(p.loop)
    ensures var t := p.loop.pending[0].timer;
      t in Queue(p.loop) && (t in Uncancelled(p) <==> p.last == Some(t.id))
  {
    var t := p.loop.pending[0].timer;
    assert t in Queue(p.loop);
    if p.last == Some(t.id) {
      var u := Timer(p.last.value, p.latest + WAKE_TIMEOUT);
      assert u in Uncancelled(p);
      QueuedIsAdded(p.loop, t);
      QueuedIsAdded(p.loop, u);
    }
  }

  lemma FireStep(s: State)
    requires Timely(s) && TimerNext(s)
    ensures var s' := Step(s, Fire); var entry := s.pending[0];
      && Timely(s') && Queue(s') == Queue(s) - {entry.timer} && |s'.added| == |s.added|
      && entry.timer.deadline < entry.sample
  {
    FireQueues(s);
    StepKeepsTimely(s, Fire);
    assert Log(s)[|s.fired|] == s.pending[0];
  }

  lemma FireTimerKeepsInv(p: Phone, loop: State)
    requires Inv(p) && TimerNext(p.loop)
    requires Timely(loop) && Queue(loop) == Queue(p.loop) - {p.loop.pending[0].timer} && |loop.added| == |p.loop.added|
    requires p.loop.pending[0].timer.deadline < p.loop.pending[0].sample
    ensures Inv(OnFireTimer(p, loop))
  {
    FiresLast(p);
    assert Uncancelled(OnFireTimer(p, loop)) == Uncancelled(p) - {p.loop.pending[0].timer};
  }

  lemma RequestTimerKeepsInv(p: Phone, delay: nat, inLoop: bool)
    requires Inv(p) && (inLoop ==> p.loop.pc == Firing)
    ensures Inv(p.(loop := Step(p.loop, AddTimer(delay, inLoop))))
  {
    var loop := AddTimerStep(p.loop, delay, inLoop);
    RequestKeepsInv(p, loop, Timer(|p.loop.added|, p.loop.clock + delay));
  }

  lemma NormalExitKeepsInv(p: Phone, inLoop: bool)
    requires Inv(p) && (inLoop ==> p.loop.pc == Firing)
    ensures Inv(OnUnsolicited(p, Step(p.loop, AddTimer(WAKE_TIMEOUT, inLoop))))
  {
    var loop := AddTimerStep(p.loop, WAKE_TIMEOUT, inLoop);
    UnsolicitedKeepsInv(p, loop);
  }

  lemma ErrorExitKeepsInv(p: Phone)
    requires Inv(p)
    ensures Inv(p.(held := false, spoiled := true, releases := p.releases + [ByError]))
  {
    var p' := p.(held := false, spoiled := true, releases := p.releases + [ByError]);
    assert Uncancelled(p') == Uncancelled(p);
  }

  lemma HappenKeepsInv(p: Phone, h: Happening)
    requires Inv(p)
    ensures Inv(Happen(p, h))
  {
    match h
    case Loop(e) =>
      if Aside(p.loop, e) {
        AsideStep(p.loop, e);
        LoopKeepsInv(p, Step(p.loop, e));
      }
    case RequestTimer(delay, inLoop) =>
      if inLoop ==> p.loop.pc == Firing {
        RequestTimerKeepsInv(p, delay, inLoop);
      }
    case Unsolicited(marshals, inLoop) =>
      if inLoop ==> p.loop.pc == Firing {
        if marshals {
          NormalExitKeepsInv(p, inLoop);
        } else {
          ErrorExitKeepsInv(p);
        }
      }
    case FireTimer =>
      if TimerNext(p.loop) {
        FireStep(p.loop);
        FireTimerKeepsInv(p, Step(p.loop, Fire));
      }
  }

  lemma {:induction false} LivesAreCovered(hs: seq<Happening>)
    ensures Inv(Live(hs))
  {
    if hs == [] {
      assert Expirations([]) == [];
    } else {
      LivesAreCovered(hs[..|hs| - 1]);
      HappenKeepsInv(Live(hs[..|hs| - 1]), hs[|hs| - 1]);
    }
  }

  // ---------------------------------------------------------------- what holds in every run

  /** While the lock is held exactly one uncancelled wake timer is queued, the one that
  s_last_wake_timeout_info names, and it is due one second after the latest response.  The lock
  is held exactly then, unless there was an error exit after that response. */
  lemma HeldIsCovered(hs: seq<Happening>)
    ensures var p := Live(hs);
      && (p.held <==> p.last.Some? && !p.spoiled)
      && (p.last.Some? ==> Uncancelled(p) == {Timer(p.last.value, p.latest + 1000000)})
      && (p.last == None ==> Uncancelled(p) == {})
  {
    LivesAreCovered(hs);
  }

  /** A timer releases the lock only by a sample of the clock that is more than one second after the
  latest response before it, whatever was cancelled while it was pending. */
  lemma ReleasedLate(hs: seq<Happening>, i: nat)
    requires i < |Live(hs).releases| && Live(hs).releases[i].ByTimer?
    ensures Live(hs).releases[i].sample > Live(hs).releases[i].latest + 1000000
  {
    LivesAreCovered(hs);
  }

  /** Nothing else lets go of the lock but the error exit. */
  lemma OnlyTheseRelease(p: Phone, h: Happening)
    requires p.held && !Happen(p, h).held
    ensures |Happen(p, h).releases| == |p.releases| + 1
    ensures Happen(p, h).releases[|p.releases|].ByError? || h == FireTimer
  {
  }

  predicate NoErrorExit(hs: seq<Happening>) {
    forall i | 0 <= i < |hs| :: hs[i].Unsolicited? ==> hs[i].marshals
  }

  /** Without an error exit every release is late. */
  lemma {:induction false} AllReleasesAreByTimer(hs: seq<Happening>)
    requires NoErrorExit(hs)
    ensures forall i | 0 <= i < |Live(hs).releases| :: Live(hs).releases[i].ByTimer?
  {
    if hs != [] {
      AllReleasesAreByTimer(hs[..|hs| - 1]);
    }
  }

  /** An error exit lets go of the lock at once, though an earlier response still has its timer. */
  lemma ErrorExitUncovers()
    ensures var p := Live([Unsolicited(true, false), Unsolicited(false, false)]); !p.held && Uncancelled(p) != {}
  {
    var hs := [Unsolicited(true, false), Unsolicited(false, false)];
    assert hs[..1] == [hs[0]] && hs[..1][..0] == [];
    LivesAreCovered(hs);
    LivesAreCovered(hs[..1]);
    assert Live(hs[..1]) == Happen(START, hs[0]);
  }

  // ---------------------------------------------------------------- told from the happenings

  /** A response comes, from another thread or from a callback. */
  predicate Responds(p: Phone, h: Happening) {
    h.Unsolicited? && (h.inLoop ==> p.loop.pc == Firing)
  }

  /** The timer that the lock waits for: that of the latest response, until it is fired or a later response cannot be
  marshalled. */
  ghost function Lock(hs: seq<Happening>): Option<nat> {
    if hs == [] then None
    else
      var init, h := hs[..|hs| - 1], hs[|hs| - 1];
      var p := Live(init);
      if Responds(p, h) then (if h.marshals then Some(|p.loop.added|) else None)
      else if h == FireTimer && TimerNext(p.loop) && Lock(init) == Some(p.loop.pending[0].timer.id) then None
      else Lock(init)
  }

  lemma FireReleases(p: Phone)
    requires Inv(p) && TimerNext(p.loop)
    ensures var p' := Happen(p, FireTimer); var id := p.loop.pending[0].timer.id;
      && p'.last == (if p.last == Some(id) then None else p.last)
      && (p'.held <==> p.held && p.last != Some(id))
  {
    FiresLast(p);
  }

  /** The lock is held exactly while it waits for a timer, which is then the one that s_last_wake_timeout_info names. */
  lemma {:induction false} LockIff(hs: seq<Happening>)
    ensures Live(hs).held <==> Lock(hs).Some?
    ensures Lock(hs).Some? ==> Live(hs).last == Lock(hs)
  {
    if hs != [] {
      var init, h := hs[..|hs| - 1], hs[|hs| - 1];
      LockIff(init);
      LivesAreCovered(init);
      if h == FireTimer && TimerNext(Live(init).loop) {
        FireReleases(Live(init));
      }
    }
  }

  /** What a happening is for the loop. */
  function ForLoop(p: Phone, h: Happening): seq<Event> {
    match h
    case Loop(e) => if Aside(p.loop, e) then [e] else []
    case RequestTimer(delay, inLoop) => [AddTimer(delay, inLoop)]
    case Unsolicited(marshals, inLoop) => if marshals then [AddTimer(1000000, inLoop)] else []
    case FireTimer => if TimerNext(p.loop) then [Fire] else []
  }

  ghost function AllForLoop(hs: seq<Happening>): seq<Event> {
    if hs == [] then []
    else AllForLoop(hs[..|hs| - 1]) + ForLoop(Live(hs[..|hs| - 1]), hs[|hs| - 1])
  }

  lemma ForLoopStep(p: Phone, h: Happening)
    ensures var es := ForLoop(p, h); Happen(p, h).loop == if es == [] then p.loop else Step(p.loop, es[0])
  {
  }

  /** The loop under the phone is a run of LoopRuns, so all that is true of those is true of it. */
  lemma {:induction false} LoopIsRun(hs: seq<Happening>)
    ensures Live(hs).loop == Run(AllForLoop(hs))
  {
    if hs != [] {
      var init, h := hs[..|hs| - 1], hs[|hs| - 1];
      var before, es := AllForLoop(init), ForLoop(Live(init), h);
      LoopIsRun(init);
      ForLoopStep(Live(init), h);
      if es == [] {
        assert before + es == before;
      } else {
        assert (before + es)[..|before|] == before && (before + es)[|before|] == es[0];
      }
    }
  }
}
