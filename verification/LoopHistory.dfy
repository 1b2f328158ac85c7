/** What the events of a run of tgm_event_loop() have brought: the clock, what there is to read, what is watched, which
threads still owe a byte, and what select() may therefore return. */
module LoopHistory {
  import opened Sequences
  import opened CText
  import opened TimerQueue
  import opened LoopRuns
  import opened LoopRounds
  import LoopRefinement

  /** The time that has passed. */
  function Elapsed(events: seq<Event>): nat {
    if events == [] then 0
    else
      var e := events[|events| - 1];
      Elapsed(events[..|events| - 1]) + if e.Tick? then e.d else 0
  }

  /** What there was to read when that last changed. */
  function Shown(events: seq<Event>): set<int> {
    if events == [] then {}
    else
      var e := events[|events| - 1];
      if e.Input? then e.fds else Shown(events[..|events| - 1])
  }

  /** The event adds this from outside the loop. */
  ghost predicate AddsOutside(s: State, e: Event, what: Added) {
    match e
    case AddTimer(_, inLoop) => !inLoop && what == AddedTimer(|s.added|)
    case AddWatch(fd, inLoop) => !inLoop && fd !in s.watched && what == AddedWatch(fd)
    case _ => false
  }

  /** How many bytes are still to be written for this. */
  ghost function Owed(events: seq<Event>, what: Added): nat {
    if events == [] then 0
    else
      var init, e := events[..|events| - 1], events[|events| - 1];
      var owed := Owed(init, what);
      if AddsOutside(Run(init), e, what) then owed + 1
      else if e == Write(what) && owed > 0 then owed - 1
      else owed
  }

  /** The event starts to watch this fd: the table had room. */
  ghost predicate StartsWatching(s: State, e: Event, fd: int) {
    e.AddWatch? && e.fd == fd && (e.inLoop ==> s.pc == Firing) && |s.watched| < 8
  }

  /** It stops: a callback asks for it, or it was to be watched once only. */
  ghost predicate StopsWatching(s: State, e: Event, fd: int) {
    || (e == DelWatch(fd) && s.pc == Firing && fd != 0)
    || (e.Readies? && fd in e.once && Step(s, e).pc == Firing && s.pc != Firing)
  }

  /** Is this fd watched? */
  ghost predicate Watching(events: seq<Event>, fd: int) {
    if events == [] then fd == 0
    else
      var init, e := events[..|events| - 1], events[|events| - 1];
      StartsWatching(Run(init), e, fd) || (Watching(init, fd) && !StopsWatching(Run(init), e, fd))
  }

  lemma ClockStep(s: State, e: Event)
    ensures Step(s, e).clock == s.clock + (if e.Tick? then e.d else 0)
    ensures Step(s, e).input == if e.Input? then e.fds else s.input
  {
  }

  lemma OwedStep(s: State, e: Event, what: Added)
    ensures Step(s, e).writing[what] ==
            if AddsOutside(s, e, what) then s.writing[what] + 1
            else if e == Write(what) && s.writing[what] > 0 then s.writing[what] - 1
            else s.writing[what]
  {
  }

  lemma WatchStep(s: State, e: Event, fd: int)
    ensures fd in Step(s, e).watched <==> StartsWatching(s, e, fd) || (fd in s.watched && !StopsWatching(s, e, fd))
  {
  }

  /** In every run these are what the machine holds. */
  lemma {:induction false} RunsAreTold(events: seq<Event>, what: Added, fd: int)
    ensures var s := Run(events);
      && s.clock == Elapsed(events) && s.input == Shown(events)
      && s.writing[what] == Owed(events, what)
      && (fd in s.watched <==> Watching(events, fd))
  {
    if events != [] {
      var init, e := events[..|events| - 1], events[|events| - 1];
      RunsAreTold(init, what, fd);
      ClockStep(Run(init), e);
      OwedStep(Run(init), e, what);
      WatchStep(Run(init), e, fd);
    }
  }

  // ---------------------------------------------------------------- select()

  /** There is something to read from this fd: from the wake-up pipe a byte that was not taken out, from any other fd what
  was shown last. */
  ghost predicate HasInput(events: seq<Event>, fd: int) {
    if fd == 0 then Written(events) > 0 else fd in Shown(events)
  }

  lemma InputIs(events: seq<Event>, fd: int)
    ensures Readable(Run(events), fd) <==> HasInput(events, fd)
  {
    PipeHolds(events);
    RunsAreTold(events, AddedTimer(0), fd);
  }

  lemma SelectStep(s: State, ready: set<int>)
    requires s.pc.Selecting?
    ensures Step(s, Select(ready)).pc == Returned(ready) <==>
            && (forall fd | fd in ready :: fd in s.pc.rfds && Readable(s, fd))
            && (ready != {} || (s.pc.wait.Some? && s.clock >= s.pc.since + s.pc.wait.value))
  {
    if forall fd | fd in ready :: fd in s.pc.rfds {
      assert forall fd :: fd in ready ==> fd in s.pc.rfds;
      assert ready <= s.pc.rfds;
    }
  }

  /** select() returns with these fds if and only if it was given them, each has something to read, and there is one or the
  timeout is over. */
  lemma ReturnsIff(events: seq<Event>, ready: set<int>)
    requires Run(events).pc.Selecting?
    ensures var pc := Run(events).pc;
      Run(events + [Select(ready)]).pc == Returned(ready) <==>
      && (forall fd | fd in ready :: fd in pc.rfds && HasInput(events, fd))
      && (ready != {} || (pc.wait.Some? && Elapsed(events) >= pc.since + pc.wait.value))
  {
    RunStep(events, Select(ready));
    RunsAreTold(events, AddedTimer(0), 0);
    forall fd
      ensures Readable(Run(events), fd) <==> HasInput(events, fd)
    {
      InputIs(events, fd);
    }
    SelectStep(Run(events), ready);
  }

  lemma ReadiesStep(s: State, order: seq<int>, once: set<int>)
    requires s.pc.TimeoutsDone? && s.pc.ready <= s.watched
    ensures Step(s, Readies(order, once)).pc == Firing <==>
            && (forall fd :: fd in order <==> fd in s.pc.ready)
            && (forall i, j | 0 <= i < j < |order| :: order[i] != order[j])
            && once <= s.pc.ready && 0 !in once
    ensures Step(s, Readies(order, once)).pc == Firing ==>
            Step(s, Readies(order, once)).pending == s.pending + Queued(order)
  {
  }

  /** Behind the timeouts, what is queued is each fd that select() returned, once, and nothing else. */
  lemma QueuedIff(events: seq<Event>, order: seq<int>, once: set<int>)
    requires Run(events).pc.TimeoutsDone?
    ensures var s, s' := Run(events), Run(events + [Readies(order, once)]);
      && (s'.pc == Firing <==>
            && (forall fd :: fd in order <==> fd in s.pc.ready)
            && (forall i, j | 0 <= i < j < |order| :: order[i] != order[j])
            && once <= s.pc.ready && 0 !in once)
      && (s'.pc == Firing ==> s'.pending == s.pending + Queued(order))
  {
    RunStep(events, Readies(order, once));
    LoopRefinement.ReadyIsWatched(events);
    ReadiesStep(Run(events), order, once);
  }

  // ---------------------------------------------------------------- the pending list

  /** Nothing is pending outside of a pass, and no fd twice. */
  ghost predicate OnceEach(s: State) {
    && (s.pending == [] || s.pc.TimeoutsDone? || s.pc == Firing)
    && (s.pc.TimeoutsDone? ==> forall i | 0 <= i < |s.pending| :: s.pending[i].Expired?)
    && (forall i, j | 0 <= i < j < |s.pending| && s.pending[i].Ready? && s.pending[j].Ready? ::
          s.pending[i].fd != s.pending[j].fd)
  }

  lemma OnceEachStep(s: State, e: Event)
    requires OnceEach(s)
    ensures OnceEach(Step(s, e))
  {
    match e
    case Timeouts =>
      if s.pc.Returned? {
        assert s.pending == [];
      }
    case Readies(order, once) =>
      if s.pc.TimeoutsDone? && MayQueue(s, s.pc.ready, order, once) {
        var more := s.pending + Queued(order);
        assert Step(s, e).pending == more;
      }
    case _ =>
  }

  lemma {:induction false} PendingIsOnceEach(events: seq<Event>)
    ensures OnceEach(Run(events))
  {
    if events != [] {
      PendingIsOnceEach(events[..|events| - 1]);
      OnceEachStep(Run(events[..|events| - 1]), events[|events| - 1]);
    }
  }
}
