/** Runs of tgm_event_loop() of libtgm/tgm_event.cpp with other threads adding timers and watches,
and with the wake-up pipe of libtgm/tgm.cpp.

One event is one section under listMutex.  The loop's copy of readFds, calcNextTimeout() and
select() take no lock; each is one event.  Start-up is complete: the pipe exists and its read
end is watched.  Only the loop thread stops watching, so nfds does not shrink between the copy
of readFds and select(). */
module LoopRuns {
  import opened Sequences
  import opened CText
  import opened TimerQueue
  import WatchTables

  /** The read end of the wake-up pipe. */
  const WAKE := 0

  datatype Timer = Timer(id: nat, deadline: int)

  /** An entry of the pending list. */
  datatype Entry = Expired(timer: Timer, sample: int) | Ready(fd: int)

  /** What a thread has added and not yet written the wake-up byte for. */
  datatype Added = AddedTimer(id: nat) | AddedWatch(fd: int)

  /** Where the loop is. */
  datatype Pc =
    | Top
    | Copied(rfds: set<int>)
    | Selecting(rfds: set<int>, since: int, wait: Option<int>)
    | Returned(ready: set<int>)
    | TimeoutsDone(ready: set<int>)
    | Firing
    | Stopped

  datatype State = State(
    clock: int,
    timers: seq<Timer>,
    pending: seq<Entry>,
    fired: seq<Entry>,
    added: seq<Timer>,            // every timer ever added
    watched: set<int>,            // readFds
    input: set<int>,              // fds, other than the pipe, with something to read
    pipe: nat,                    // bytes in the wake-up pipe
    writing: multiset<Added>,     // adders between the insertion and the write
    sample: int,                  // the last `now` of processTimeouts()
    pc: Pc)

  const INITIAL := State(0, [], [], [], [], {WAKE}, {}, 0, multiset{}, 0, Top)

  datatype Event =
    | Tick(d: nat)                            // the clock is monotonic
    | Input(fds: set<int>)
    | AddTimer(delay: nat, inLoop: bool)    // tgm_timer_add(), by a callback or by another thread
    | AddWatch(fd: int, inLoop: bool)       // tgm_event_add()
    | DelWatch(fd: int)                     // tgm_event_del(), by a callback
    | Write(what: Added)                    // triggerEvLoop()
    | Copy | Calc
    | Select(ready: set<int>) | Interrupted | Failed
    | Timeouts
    | Readies(order: seq<int>, once: set<int>)  // table order; which watches are not persistent
    | Fire

  function Deadlines(timers: seq<Timer>): (d: seq<int>)
    ensures |d| == |timers| && forall i | 0 <= i < |d| :: d[i] == timers[i].deadline
  {
    seq(|timers|, i requires 0 <= i < |timers| => timers[i].deadline)
  }

  /** tgm_timer_add() puts a timer in front of the first one that is not earlier. */
  function Insert(timers: seq<Timer>, t: Timer): seq<Timer> {
    var k := Leading(Deadlines(timers), t.deadline);
    timers[..k] + [t] + timers[k..]
  }

  function Announce(s: State, what: Added, inLoop: bool): State {
    if inLoop then s else s.(writing := s.writing + multiset{what})
  }

  function OnAddTimer(s: State, delay: nat, inLoop: bool): State {
    var t := Timer(|s.added|, s.clock + delay);
    Announce(s.(timers := Insert(s.timers, t), added := s.added + [t]), AddedTimer(t.id), inLoop)
  }

  /** A full table is left alone; the wake-up byte is written all the same. */
  function OnAddWatch(s: State, fd: int, inLoop: bool): State {
    var watched := if |s.watched| < WatchTables.MAX_FD_EVENTS then s.watched + {fd} else s.watched;
    Announce(s.(watched := watched), AddedWatch(fd), inLoop)
  }

  /** calcNextTimeout(): the first timer decides. */
  function Wait(s: State): Option<int> {
    if s.timers == [] then None
    else if s.timers[0].deadline > s.clock then Some(s.timers[0].deadline - s.clock)
    else Some(0)
  }

  predicate Readable(s: State, fd: int) {
    if fd == WAKE then s.pipe > 0 else fd in s.input
  }

  predicate TimeUp(s: State)
    requires s.pc.Selecting?
  {
    s.pc.wait.Some? && s.clock >= s.pc.since + s.pc.wait.value
  }

  /** select() may return with these fds. */
  predicate MayReturn(s: State, ready: set<int>)
    requires s.pc.Selecting?
  {
    && ready <= s.pc.rfds && (forall fd | fd in ready :: Readable(s, fd))
    && (ready != {} || TimeUp(s))
  }

  function Stamp(timers: seq<Timer>, sample: int): (entries: seq<Entry>)
    ensures |entries| == |timers|
    ensures forall i | 0 <= i < |entries| :: entries[i] == Expired(timers[i], sample)
  {
    seq(|timers|, i requires 0 <= i < |timers| => Expired(timers[i], sample))
  }

  /** processTimeouts() */
  function OnTimeouts(s: State, ready: set<int>): State {
    var k := Leading(Deadlines(s.timers), s.clock);
    s.(timers := s.timers[k..], pending := s.pending + Stamp(s.timers[..k], s.clock),
       sample := s.clock, pc := TimeoutsDone(ready))
  }

  function Queued(order: seq<int>): (entries: seq<Entry>)
    ensures |entries| == |order| && forall i | 0 <= i < |entries| :: entries[i] == Ready(order[i])
  {
    seq(|order|, i requires 0 <= i < |order| => Ready(order[i]))
  }

  /** processReadReadies() queues the ready fds that are still watched. */
  ghost predicate MayQueue(s: State, ready: set<int>, order: seq<int>, once: set<int>) {
    && (forall fd :: fd in order <==> fd in ready && fd in s.watched)
    && (forall i, j | 0 <= i < j < |order| :: order[i] != order[j])
    && once <= ready && WAKE !in once
  }

  /** One turn of firePending(); processWakeupCallback() empties the pipe. */
  function OnFire(s: State): State
    requires s.pending != []
  {
    s.(pending := s.pending[1..], fired := s.fired + [s.pending[0]],
       pipe := if s.pending[0] == Ready(WAKE) then 0 else s.pipe)
  }

  /** An event that cannot happen in a state leaves it alone. */
  ghost function Step(s: State, e: Event): State {
    match e
    case Tick(d) => s.(clock := s.clock + d)
    case Input(fds) => s.(input := fds)
    case AddTimer(delay, inLoop) =>
      if inLoop && s.pc != Firing then s else OnAddTimer(s, delay, inLoop)
    case AddWatch(fd, inLoop) =>
      if fd in s.watched || (inLoop && s.pc != Firing) then s else OnAddWatch(s, fd, inLoop)
    case DelWatch(fd) =>
      if s.pc != Firing || fd == WAKE then s else s.(watched := s.watched - {fd})
    case Write(what) =>
      if what in s.writing then s.(writing := s.writing - multiset{what}, pipe := s.pipe + 1) else s
    case Copy =>
      if s.pc == Top then s.(pc := Copied(s.watched)) else s
    case Calc =>
      if s.pc.Copied? then s.(pc := Selecting(s.pc.rfds, s.clock, Wait(s))) else s
    case Select(ready) =>
      if s.pc.Selecting? && MayReturn(s, ready) then s.(pc := Returned(ready)) else s
    case Interrupted =>
      if s.pc.Selecting? then s.(pc := Top) else s
    case Failed =>
      if s.pc.Selecting? then s.(pc := Stopped) else s
    case Timeouts =>
      if s.pc.Returned? then OnTimeouts(s, s.pc.ready) else s
    case Readies(order, once) =>
      if s.pc.TimeoutsDone? && MayQueue(s, s.pc.ready, order, once) then
        s.(pending := s.pending + Queued(order), watched := s.watched - once, pc := Firing)
      else s
    case Fire =>
      if s.pc != Firing then s
      else if s.pending == [] then s.(pc := Top)
      else OnFire(s)
  }

  ghost function Run(events: seq<Event>): State {
    if events == [] then INITIAL else Step(Run(events[..|events| - 1]), events[|events| - 1])
  }

  // ---------------------------------------------------------------- no lost wake-up

  /** A wake-up is on its way: a byte is in the pipe, or the thread that added this has yet to
  write one. */
  predicate Coming(s: State, what: Added) {
    s.pipe > 0 || what in s.writing
  }

  predicate WatchesSeen(s: State, rfds: set<int>) {
    && WAKE in rfds
    && forall fd | fd in s.watched :: fd in rfds || Coming(s, AddedWatch(fd))
  }

  /** select() will not sleep past this deadline. */
  predicate InTime(pc: Pc, deadline: int)
    requires pc.Selecting?
  {
    pc.wait.Some? && (pc.wait.value == 0 || pc.since + pc.wait.value <= deadline)
  }

  predicate TimersSeen(s: State)
    requires s.pc.Selecting?
  {
    forall t | t in s.timers :: InTime(s.pc, t.deadline) || Coming(s, AddedTimer(t.id))
  }

  /** Whenever the loop is about to select, or is in select, nothing that it has not seen lacks
  a wake-up. */
  predicate Awake(s: State) {
    && WAKE in s.watched
    && (s.pc.Copied? || s.pc.Selecting? ==> WatchesSeen(s, s.pc.rfds))
    && (s.pc.Selecting? ==> TimersSeen(s))
  }

  lemma InsertTimerMembers(timers: seq<Timer>, t: Timer)
    ensures forall x :: x in Insert(timers, t) <==> x == t || x in timers
  {
    var k := Leading(Deadlines(timers), t.deadline);
    assert timers == timers[..k] + timers[k..];
  }

  lemma AddTimerKeepsAwake(s: State, delay: nat, inLoop: bool)
    requires Awake(s) && (inLoop ==> s.pc == Firing)
    ensures Awake(OnAddTimer(s, delay, inLoop))
  {
    InsertTimerMembers(s.timers, Timer(|s.added|, s.clock + delay));
  }

  lemma CalcKeepsAwake(s: State)
    requires Awake(s) && s.pc.Copied? && Sorted(Deadlines(s.timers))
    ensures Awake(s.(pc := Selecting(s.pc.rfds, s.clock, Wait(s))))
  {
    forall t | t in s.timers
      ensures s.timers[0].deadline <= t.deadline
    {
      var i :| 0 <= i < |s.timers| && s.timers[i] == t;
      assert Deadlines(s.timers)[0] <= Deadlines(s.timers)[i];
    }
  }

  lemma StepKeepsAwake(s: State, e: Event)
    requires Awake(s) && Sorted(Deadlines(s.timers))
    ensures Awake(Step(s, e))
  {
    match e
    case AddTimer(delay, inLoop) =>
      if inLoop ==> s.pc == Firing {
        AddTimerKeepsAwake(s, delay, inLoop);
      }
    case Calc =>
      if s.pc.Copied? {
        CalcKeepsAwake(s);
      }
    case _ =>
  }

  // ---------------------------------------------------------------- timers over whole runs

  /** The timers among the entries of a list. */
  function Expirations(entries: seq<Entry>): seq<Timer> {
    if entries == [] then []
    else (if entries[0].Expired? then [entries[0].timer] else []) + Expirations(entries[1..])
  }

  lemma {:induction false} ExpirationsAppend(a: seq<Entry>, b: seq<Entry>)
    ensures Expirations(a + b) == Expirations(a) + Expirations(b)
  {
    if a == [] {
      assert a + b == b;
    } else {
      assert (a + b)[1..] == a[1..] + b;
      ExpirationsAppend(a[1..], b);
      Assoc(if a[0].Expired? then [a[0].timer] else [], Expirations(a[1..]), Expirations(b));
    }
  }

  lemma {:induction false} ExpirationsOfStamp(timers: seq<Timer>, sample: int)
    ensures Expirations(Stamp(timers, sample)) == timers
  {
    if timers != [] {
      assert Stamp(timers, sample)[1..] == Stamp(timers[1..], sample);
      ExpirationsOfStamp(timers[1..], sample);
    }
  }

  lemma {:induction false} ExpirationsOfQueued(order: seq<int>)
    ensures Expirations(Queued(order)) == []
  {
    if order != [] {
      assert Queued(order)[1..] == Queued(order[1..]);
      ExpirationsOfQueued(order[1..]);
    }
  }

  /** Everything that was ever pending, in the order of the pending list. */
  function Log(s: State): seq<Entry> {
    s.fired + s.pending
  }

  /** Each entry was strictly past its deadline when it expired, no earlier than the ones before it,
  and no timer that is left is earlier than the last sample. */
  ghost predicate InDeadlineOrder(timers: seq<Timer>, log: seq<Entry>, sample: int) {
    && (forall i | 0 <= i < |timers| :: timers[i].deadline >= sample)
    && (forall i | 0 <= i < |log| && log[i].Expired? :: log[i].timer.deadline < log[i].sample <= sample)
    && (forall i, j | 0 <= i < j < |log| && log[i].Expired? && log[j].Expired? ::
          log[i].timer.deadline <= log[j].timer.deadline)
  }

  /** No timer is lost or doubled. */
  ghost predicate Conserved(timers: seq<Timer>, log: seq<Entry>, added: seq<Timer>) {
    && (forall i | 0 <= i < |added| :: added[i].id == i)
    && multiset(timers) + multiset(Expirations(log)) == multiset(added)
  }

  ghost predicate Timely(s: State) {
    && s.sample <= s.clock && Sorted(Deadlines(s.timers))
    && InDeadlineOrder(s.timers, Log(s), s.sample) && Conserved(s.timers, Log(s), s.added)
  }

  lemma InsertKeepsOrder(timers: seq<Timer>, log: seq<Entry>, sample: int, t: Timer)
    requires InDeadlineOrder(timers, log, sample) && t.deadline >= sample
    ensures InDeadlineOrder(Insert(timers, t), log, sample)
  {
  }

  lemma InsertBag(timers: seq<Timer>, t: Timer)
    ensures multiset(Insert(timers, t)) == multiset(timers) + multiset{t}
  {
    var k := Leading(Deadlines(timers), t.deadline);
    assert timers == timers[..k] + timers[k..];
  }

  lemma InsertConserves(timers: seq<Timer>, log: seq<Entry>, added: seq<Timer>, t: Timer)
    requires Conserved(timers, log, added) && t.id == |added|
    ensures Conserved(Insert(timers, t), log, added + [t])
  {
    InsertBag(timers, t);
  }

  /** The insertion is the one proved of tgm_timer_add() on the linked list. */
  lemma InsertRefines(timers: seq<Timer>, t: Timer)
    ensures Deadlines(Insert(timers, t)) == InsertDeadline(Deadlines(timers), t.deadline)
  {
  }

  lemma AddTimerKeepsTimely(s: State, delay: nat, inLoop: bool)
    requires Timely(s)
    ensures Timely(OnAddTimer(s, delay, inLoop))
  {
    var t, s' := Timer(|s.added|, s.clock + delay), OnAddTimer(s, delay, inLoop);
    assert Sorted(Deadlines(Insert(s.timers, t))) by {
      InsertRefines(s.timers, t);
      InsertKeepsSorted(Deadlines(s.timers), t.deadline);
    }
    assert InDeadlineOrder(Insert(s.timers, t), Log(s), s.sample) by {
      InsertKeepsOrder(s.timers, Log(s), s.sample, t);
    }
    assert Conserved(Insert(s.timers, t), Log(s), s.added + [t]) by {
      InsertConserves(s.timers, Log(s), s.added, t);
    }
    assert s'.timers == Insert(s.timers, t) && Log(s') == Log(s) && s'.added == s.added + [t];
  }

  lemma ExpiryKeepsOrder(timers: seq<Timer>, log: seq<Entry>, sample: int, now: int, k: nat)
    requires InDeadlineOrder(timers, log, sample) && Sorted(Deadlines(timers)) && sample <= now
    requires k == Leading(Deadlines(timers), now)
    ensures InDeadlineOrder(timers[k..], log + Stamp(timers[..k], now), now) && Sorted(Deadlines(timers[k..]))
  {
    LeadingSplits(Deadlines(timers), now);
    forall i, j | 0 <= i < j < |timers|
      ensures timers[i].deadline <= timers[j].deadline
    {
      assert Deadlines(timers)[i] <= Deadlines(timers)[j];
    }
  }

  lemma ExpiryConserves(timers: seq<Timer>, log: seq<Entry>, added: seq<Timer>, now: int, k: nat)
    requires Conserved(timers, log, added) && k <= |timers|
    ensures Conserved(timers[k..], log + Stamp(timers[..k], now), added)
  {
    ExpirationsAppend(log, Stamp(timers[..k], now));
    ExpirationsOfStamp(timers[..k], now);
    assert timers == timers[..k] + timers[k..];
  }

  lemma TimeoutsKeepTimely(s: State, ready: set<int>)
    requires Timely(s)
    ensures Timely(OnTimeouts(s, ready))
  {
    var k := Leading(Deadlines(s.timers), s.clock);
    ExpiryKeepsOrder(s.timers, Log(s), s.sample, s.clock, k);
    ExpiryConserves(s.timers, Log(s), s.added, s.clock, k);
    Assoc(s.fired, s.pending, Stamp(s.timers[..k], s.clock));
  }

  lemma QueuedKeepsOrder(timers: seq<Timer>, log: seq<Entry>, sample: int, order: seq<int>)
    requires InDeadlineOrder(timers, log, sample)
    ensures InDeadlineOrder(timers, log + Queued(order), sample)
  {
  }

  lemma QueuedConserves(timers: seq<Timer>, log: seq<Entry>, added: seq<Timer>, order: seq<int>)
    requires Conserved(timers, log, added)
    ensures Conserved(timers, log + Queued(order), added)
  {
    ExpirationsAppend(log, Queued(order));
    ExpirationsOfQueued(order);
    assert Expirations(log) + [] == Expirations(log);
  }

  lemma ReadiesKeepTimely(s: State, s': State, order: seq<int>)
    requires Timely(s)
    requires s' == s.(pending := s.pending + Queued(order), watched := s'.watched, pc := s'.pc)
    ensures Timely(s')
  {
    assert Log(s') == Log(s) + Queued(order);
    QueuedKeepsOrder(s.timers, Log(s), s.sample, order);
    QueuedConserves(s.timers, Log(s), s.added, order);
  }

  lemma FireKeepsLog(s: State)
    requires s.pending != []
    ensures Log(OnFire(s)) == Log(s)
  {
  }

  lemma StepKeepsTimely(s: State, e: Event)
    requires Timely(s)
    ensures Timely(Step(s, e))
  {
    match e
    case AddTimer(delay, inLoop) => AddTimerKeepsTimely(s, delay, inLoop);
    case Timeouts =>
      if s.pc.Returned? {
        TimeoutsKeepTimely(s, s.pc.ready);
      }
    case Readies(order, once) =>
      if s.pc.TimeoutsDone? && MayQueue(s, s.pc.ready, order, once) {
        ReadiesKeepTimely(s, Step(s, e), order);
      }
    case Fire =>
      if s.pc == Firing && s.pending != [] {
        FireKeepsLog(s);
      }
    case _ =>
  }

  // ---------------------------------------------------------------- what holds in every run

  lemma {:induction false} RunsAreSound(events: seq<Event>)
    ensures Awake(Run(events)) && Timely(Run(events))
  {
    if events == [] {
      assert Expirations([]) == [];
    } else {
      RunsAreSound(events[..|events| - 1]);
      StepKeepsAwake(Run(events[..|events| - 1]), events[|events| - 1]);
      StepKeepsTimely(Run(events[..|events| - 1]), events[|events| - 1]);
    }
  }

  /** While the loop is in select(), every queued timer is due no earlier than the computed
  timeout and every watched fd is among the copied ones, or a byte is in the pipe, or the thread
  that added it has yet to write one. */
  lemma NoLostWakeUp(events: seq<Event>)
    requires Run(events).pc.Selecting?
    ensures var s := Run(events);
      && (forall t | t in s.timers ::
            InTime(s.pc, t.deadline) || s.pipe > 0 || AddedTimer(t.id) in s.writing)
      && (forall fd | fd in s.watched ::
            fd in s.pc.rfds || s.pipe > 0 || AddedWatch(fd) in s.writing)
  {
    RunsAreSound(events);
  }

  /** A timer that has come due ends select(), once its wake-up byte has been written. */
  lemma NeverOversleeps(events: seq<Event>, t: Timer)
    requires var s := Run(events);
      s.pc.Selecting? && t in s.timers && t.deadline <= s.clock && AddedTimer(t.id) !in s.writing
    ensures MayReturn(Run(events), {}) || MayReturn(Run(events), {WAKE})
  {
    NoLostWakeUp(events);
    RunsAreSound(events);
    SinceIsPast(events);
  }

  lemma {:induction false} SinceIsPast(events: seq<Event>)
    ensures var s := Run(events); s.pc.Selecting? ==> s.pc.since <= s.clock
  {
    if events != [] {
      SinceIsPast(events[..|events| - 1]);
    }
  }

  /** A watched fd with something to read ends select(), once its wake-up byte has been written. */
  lemma NeverDeaf(events: seq<Event>, fd: int)
    requires var s := Run(events);
      s.pc.Selecting? && fd in s.watched && Readable(s, fd) && AddedWatch(fd) !in s.writing
    ensures MayReturn(Run(events), {fd}) || MayReturn(Run(events), {WAKE})
  {
    NoLostWakeUp(events);
    RunsAreSound(events);
  }

  /** Every timer ever added is in exactly one of the timer list, the pending list and the fired
  ones, and there once. */
  lemma InExactlyOnePlace(events: seq<Event>, id: nat)
    requires id < |Run(events).added|
    ensures var s := Run(events); var t := s.added[id];
      multiset(s.timers)[t] + multiset(Expirations(s.pending))[t] + multiset(Expirations(s.fired))[t] == 1
  {
    RunsAreSound(events);
    var s := Run(events);
    ExpirationsAppend(s.fired, s.pending);
    OnceEach(s.added, id);
  }

  lemma {:induction false} OnceEach(added: seq<Timer>, id: nat)
    requires id < |added| && forall i | 0 <= i < |added| :: added[i].id == i
    ensures multiset(added)[added[id]] == 1
  {
    var last := |added| - 1;
    assert added == added[..last] + [added[last]];
    if id < last {
      OnceEach(added[..last], id);
    } else {
      assert added[id] !in added[..last];
    }
  }

  /** Timers fire strictly after their deadlines, by the clock that processTimeouts() sampled, and in
  the order of their deadlines over the whole run. */
  lemma FireInOrder(events: seq<Event>)
    ensures var s := Run(events);
      && (forall i | 0 <= i < |s.fired| && s.fired[i].Expired? ::
            s.fired[i].timer.deadline < s.fired[i].sample <= s.clock)
      && (forall i, j | 0 <= i < j < |s.fired| && s.fired[i].Expired? && s.fired[j].Expired? ::
            s.fired[i].timer.deadline <= s.fired[j].timer.deadline)
  {
    RunsAreSound(events);
    var s := Run(events);
    assert forall i | 0 <= i < |s.fired| :: Log(s)[i] == s.fired[i];
  }
}
