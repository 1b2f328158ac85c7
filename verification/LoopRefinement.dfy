/** The lists and the watch table of libtgm/tgm_event.cpp in the runs of LoopRuns: each section of the code
does in place what one event of LoopRuns does on values. */
module LoopRefinement {
  import opened CText
  import opened TimeVals
  import opened TimerQueue
  import opened EventRings
  import opened EventQueues
  import opened WatchTables
  import Dispatch = EventDispatch
  import Loop = LoopRuns

  // ---------------------------------------------------------------- the lists

  /** `evs` are the events that timers were started with, in order; these ones are queued. */
  ghost predicate Lists(timers: seq<TgmEvent>, deadlines: seq<int>, evs: seq<TgmEvent>, queue: seq<Loop.Timer>) {
    && |timers| == |queue| && deadlines == Loop.Deadlines(queue)
    && forall i | 0 <= i < |queue| :: queue[i].id < |evs| && timers[i] == evs[queue[i].id]
  }

  /** An event of the pending list: an expired timer, or one with this fd to read from. */
  ghost predicate Is(ev: TgmEvent, evs: seq<TgmEvent>, e: Loop.Entry)
    reads ev`fd
  {
    match e
    case Expired(t, _) => t.id < |evs| && ev == evs[t.id]
    case Ready(fd) => ev.fd == fd
  }

  ghost predicate Awaits(pending: seq<TgmEvent>, evs: seq<TgmEvent>, entries: seq<Loop.Entry>)
    reads (set x | x in pending)`fd
  {
    |pending| == |entries| && forall i | 0 <= i < |entries| :: Is(pending[i], evs, entries[i])
  }

  /** The queues are in the state of the loop. */
  ghost predicate Tied(q: Queues, evs: seq<TgmEvent>, s: Loop.State)
    reads q, q.timerList, q.pendingList, q.timers, q.pending
  {
    && q.Valid() && |evs| == |s.added|
    && Lists(q.timers, q.deadlines, evs, s.timers) && Awaits(q.pending, evs, s.pending)
  }

  lemma TimerLists(timers: seq<TgmEvent>, deadlines: seq<int>, evs: seq<TgmEvent>, queue: seq<Loop.Timer>,
                   ev: TgmEvent, t: Loop.Timer)
    returns (timers': seq<TgmEvent>, deadlines': seq<int>)
    requires Lists(timers, deadlines, evs, queue) && t.id == |evs|
    ensures Gains(timers, deadlines, ev, t.deadline, timers', deadlines')
    ensures Lists(timers', deadlines', evs + [ev], Loop.Insert(queue, t))
  {
    var k := Leading(deadlines, t.deadline);
    timers', deadlines' := Insert(timers, k, ev), InsertDeadline(deadlines, t.deadline);
    Loop.InsertRefines(queue, t);
    InsertAt(timers, k, ev);
    QueueAt(queue, t, k);
  }

  lemma QueueAt(queue: seq<Loop.Timer>, t: Loop.Timer, k: nat)
    requires k == Leading(Loop.Deadlines(queue), t.deadline)
    ensures var all := Loop.Insert(queue, t);
      forall i | 0 <= i < |all| :: all[i] == if i < k then queue[i] else if i == k then t else queue[i - 1]
  {
  }

  lemma AwaitsMore(pending: seq<TgmEvent>, evs: seq<TgmEvent>, entries: seq<Loop.Entry>, ev: TgmEvent)
    requires Awaits(pending, evs, entries)
    ensures Awaits(pending, evs + [ev], entries)
  {
  }

  lemma AddTimerIs(s: Loop.State, delay: nat, inLoop: bool)
    requires inLoop ==> s.pc == Loop.Firing
    ensures var s', t := Loop.Step(s, Loop.AddTimer(delay, inLoop)), Loop.Timer(|s.added|, s.clock + delay);
      s'.timers == Loop.Insert(s.timers, t) && s'.added == s.added + [t] && s'.pending == s.pending
  {
  }

  /** tgm_timer_add() brings the lists to what is known beforehand, and touches no pending event. */
  method Schedules(q: Queues, ev: TgmEvent, delay: TimeVal, now: TimeVal, ghost t: int,
                   ghost timers: seq<TgmEvent>, ghost deadlines: seq<int>,
                   ghost evs: seq<TgmEvent>, ghost entries: seq<Loop.Entry>)
    requires q.Valid() && q.Free(ev) && delay.Normal() && now.Normal() && t == now.Micros() + delay.Micros()
    requires Gains(q.timers, q.deadlines, ev, t, timers, deadlines) && Awaits(q.pending, evs, entries)
    modifies q`timers, q`deadlines, ev`fd, ev`timeout, ev`next, ev`prev, q.timerList`next, q.timerList`prev
    modifies (set x | x in q.timers)`next, (set x | x in q.timers)`prev
    ensures q.Valid() && q.timers == timers && q.deadlines == deadlines && Awaits(q.pending, evs, entries)
  {
    q.TimerAdd(ev, delay, now, t);
  }

  /** tgm_timer_add(), by a callback or by another thread. */
  method StartsTimer(q: Queues, ev: TgmEvent, delay: TimeVal, now: TimeVal, ghost inLoop: bool,
                     ghost evs: seq<TgmEvent>, ghost s: Loop.State)
    requires Tied(q, evs, s) && q.Free(ev) && delay.Normal() && now.Normal()
    requires delay.Micros() >= 0 && now.Micros() == s.clock && (inLoop ==> s.pc == Loop.Firing)
    modifies q`timers, q`deadlines, ev`fd, ev`timeout, ev`next, ev`prev, q.timerList`next, q.timerList`prev
    modifies (set x | x in q.timers)`next, (set x | x in q.timers)`prev
    ensures Tied(q, evs + [ev], Loop.Step(s, Loop.AddTimer(delay.Micros(), inLoop)))
  {
    ghost var d := delay.Micros();
    ghost var t := Loop.Timer(|evs|, s.clock + d);
    AddTimerIs(s, d, inLoop);
    ghost var timers, deadlines := TimerLists(q.timers, q.deadlines, evs, s.timers, ev, t);
    AwaitsMore(q.pending, evs, s.pending, ev);
    Schedules(q, ev, delay, now, t.deadline, timers, deadlines, evs + [ev], s.pending);
  }

  lemma ListsSplit(timers: seq<TgmEvent>, deadlines: seq<int>, evs: seq<TgmEvent>, queue: seq<Loop.Timer>,
                   pending: seq<TgmEvent>, entries: seq<Loop.Entry>, k: nat, now: int)
    requires Lists(timers, deadlines, evs, queue) && Awaits(pending, evs, entries) && k <= |timers|
    ensures |deadlines| == |queue| == |timers|
    ensures Lists(timers[k..], deadlines[k..], evs, queue[k..])
    ensures Awaits(pending + timers[..k], evs, entries + Loop.Stamp(queue[..k], now))
  {
  }

  /** processTimeouts() */
  method Expires(q: Queues, now: TimeVal, ghost evs: seq<TgmEvent>, ghost s: Loop.State)
    requires Tied(q, evs, s) && s.pc.Returned? && now.Normal() && now.Micros() == s.clock
    modifies q`timers, q`pending, q`deadlines
    modifies q.timerList`next, q.timerList`prev, q.pendingList`next, q.pendingList`prev
    modifies (set x | x in q.timers)`next, (set x | x in q.timers)`prev
    modifies (set x | x in q.pending)`next, (set x | x in q.pending)`prev
    ensures Tied(q, evs, Loop.Step(s, Loop.Timeouts))
  {
    ListsSplit(q.timers, q.deadlines, evs, s.timers, q.pending, s.pending, Leading(q.deadlines, s.clock), s.clock);
    q.ProcessTimeouts(now);
  }

  /** The wait is until the first deadline, or zero. */
  lemma FirstDecides(deadlines: seq<int>, queue: seq<Loop.Timer>, clock: int, wait: int)
    requires deadlines == Loop.Deadlines(queue) && Sorted(deadlines) && deadlines != []
    requires forall i | 0 <= i < |deadlines| :: clock + wait <= Max(deadlines[i], clock)
    requires exists i | 0 <= i < |deadlines| :: clock + wait == Max(deadlines[i], clock)
    ensures wait == Max(queue[0].deadline, clock) - clock
  {
    assert deadlines[0] == queue[0].deadline;
    var i :| 0 <= i < |deadlines| && clock + wait == Max(deadlines[i], clock);
    assert deadlines[0] <= deadlines[i];
  }

  function InMicros(wait: Option<TimeVal>): Option<int> {
    if wait == None then None else Some(wait.value.Micros())
  }

  lemma WaitIs(s: Loop.State, wait: Option<int>)
    requires wait == if s.timers == [] then None else Some(Max(s.timers[0].deadline, s.clock) - s.clock)
    ensures wait == Loop.Wait(s)
  {
  }

  lemma CalcIs(s: Loop.State)
    requires s.pc.Copied?
    ensures Loop.Step(s, Loop.Calc) == s.(pc := Loop.Selecting(s.pc.rfds, s.clock, Loop.Wait(s)))
  {
  }

  method WaitsFor(q: Queues, now: TimeVal, ghost s: Loop.State) returns (wait: Option<TimeVal>)
    requires q.Valid() && q.deadlines == Loop.Deadlines(s.timers) && now.Normal() && now.Micros() == s.clock
    ensures InMicros(wait) == Loop.Wait(s)
  {
    wait := q.CalcNextTimeout(now);
    ghost var micros := InMicros(wait);
    if wait.Some? {
      FirstDecides(q.deadlines, s.timers, s.clock, micros.value);
    }
    WaitIs(s, micros);
  }

  /** calcNextTimeout() */
  method Calculates(q: Queues, now: TimeVal, ghost evs: seq<TgmEvent>, ghost s: Loop.State)
    returns (wait: Option<TimeVal>)
    requires Tied(q, evs, s) && s.pc.Copied? && now.Normal() && now.Micros() == s.clock
    ensures Loop.Step(s, Loop.Calc).pc == Loop.Selecting(s.pc.rfds, s.clock, InMicros(wait))
  {
    CalcIs(s);
    wait := WaitsFor(q, now, s);
  }

  lemma AwaitsRest(pending: seq<TgmEvent>, evs: seq<TgmEvent>, entries: seq<Loop.Entry>)
    requires Awaits(pending, evs, entries) && pending != []
    ensures Is(pending[0], evs, entries[0]) && Awaits(pending[1..], evs, entries[1..])
  {
  }

  /** One turn of firePending(), up to the callback: the event is in neither list then, so the callback may
  start it again, start other timers and change the watches.  None of that touches the pending list, so
  what is fired next is known before the callback runs. */
  method Fires(q: Queues, ghost evs: seq<TgmEvent>, ghost s: Loop.State) returns (ev: TgmEvent, next: TgmEvent)
    requires Tied(q, evs, s) && s.pc == Loop.Firing && s.pending != []
    modifies q`pending, q.pendingList`next, q.pendingList`prev
    modifies (set x | x in q.pending)`next, (set x | x in q.pending)`prev
    ensures Tied(q, evs, Loop.Step(s, Loop.Fire)) && q.Free(ev)
    ensures Is(ev, evs, s.pending[0]) && next == Place(q.pendingList, q.pending, 0)
  {
    AwaitsRest(q.pending, evs, s.pending);
    ev := q.pendingList.next;
    next := ev.next;
    q.UnlinkPending(ev);
  }

  // ---------------------------------------------------------------- the watch table

  /** The table watches the fds that the loop watches. */
  ghost predicate Watches(w: WatchTable, s: Loop.State)
    reads w, w.table, w.table[..]
  {
    w.Valid() && w.readFds == s.watched
  }

  lemma {:induction false} AtMostSlots(fds: seq<int>, rfds: set<int>, k: nat)
    requires k <= |fds|
    ensures |ReadySlots(fds, rfds, k)| <= k
    ensures |ReadySlots(fds, rfds, k)| == k <==> forall i | 0 <= i < k :: fds[i] in rfds
  {
    if k > 0 {
      AtMostSlots(fds, rfds, k - 1);
    }
  }

  /** There is room exactly if fewer fds are watched than there are slots. */
  lemma RoomIff(fds: seq<int>, readFds: set<int>, nfds: int)
    requires Summarized(fds, readFds, nfds)
    ensures FREE in fds <==> |readFds| < |fds|
  {
    Dispatch.AllReady(fds, readFds, nfds, readFds);
    AtMostSlots(fds, readFds, |fds|);
  }

  /** tgm_event_add() of an fd that is not watched. */
  method StartsWatch(w: WatchTable, ev: TgmEvent, ghost inLoop: bool, ghost s: Loop.State)
    requires Watches(w, s) && ev.fd >= 0 && ev.fd !in s.watched && (inLoop ==> s.pc == Loop.Firing)
    modifies w, w.table, ev`index
    ensures Watches(w, Loop.Step(s, Loop.AddWatch(ev.fd, inLoop)))
  {
    RoomIff(w.fds, w.readFds, w.nfds);
    var _ := w.Add(ev);
  }

  /** tgm_event_del() of a watched event, by a callback. */
  method StopsWatch(w: WatchTable, ev: TgmEvent, ghost s: Loop.State) returns (held: bool)
    requires Watches(w, s) && s.pc == Loop.Firing && ev.fd != Loop.WAKE
    requires 0 <= ev.index < MAX_FD_EVENTS && w.table[ev.index] == ev
    modifies w, w.table, ev`index
    ensures !held && Watches(w, Loop.Step(s, Loop.DelWatch(ev.fd)))
  {
    held := w.Del(ev);
  }

  // ---------------------------------------------------------------- from the table to the pending list

  /** The ready fds, in the order of the table. */
  ghost function Order(fds: seq<int>, rfds: set<int>): (order: seq<int>)
    ensures |order| == |ReadySlots(fds, rfds, |fds|)|
    ensures forall i | 0 <= i < |order| :: order[i] == fds[ReadySlots(fds, rfds, |fds|)[i]]
  {
    var slots := ReadySlots(fds, rfds, |fds|);
    seq(|slots|, i requires 0 <= i < |slots| => fds[slots[i]])
  }

  /** The ready fds that are watched only once. */
  ghost function Once(fds: seq<int>, persists: seq<bool>, rfds: set<int>): set<int>
    requires |fds| == |persists|
  {
    set i | 0 <= i < |fds| && fds[i] in rfds && !persists[i] :: fds[i]
  }

  lemma OrderIsReady(fds: seq<int>, readFds: set<int>, nfds: int, rfds: set<int>)
    requires Summarized(fds, readFds, nfds) && rfds <= readFds
    ensures forall fd :: fd in Order(fds, rfds) <==> fd in rfds
    ensures var order := Order(fds, rfds); forall i, j | 0 <= i < j < |order| :: order[i] != order[j]
  {
    var slots, order := ReadySlots(fds, rfds, |fds|), Order(fds, rfds);
    forall fd | fd in rfds
      ensures fd in order
    {
      var i: nat :| i < |fds| && fds[i] == fd;
      ReadySlotsHas(fds, rfds, |fds|, i);
      var k :| 0 <= k < |slots| && slots[k] == i;
      assert order[k] == fd;
    }
  }

  /** What processReadReadies() queues and stops watching is what the loop may. */
  lemma OrderMayQueue(s: Loop.State, fds: seq<int>, nfds: int, persists: seq<bool>, rfds: set<int>)
    requires Summarized(fds, s.watched, nfds) && rfds <= s.watched && |persists| == |fds|
    requires forall i | 0 <= i < |fds| && fds[i] == Loop.WAKE :: persists[i]
    ensures Loop.MayQueue(s, rfds, Order(fds, rfds), Once(fds, persists, rfds))
  {
    OrderIsReady(fds, s.watched, nfds, rfds);
  }

  lemma AwaitsReady(pending: seq<TgmEvent>, evs: seq<TgmEvent>, entries: seq<Loop.Entry>,
                    ready: seq<TgmEvent>, order: seq<int>)
    requires Awaits(pending, evs, entries) && |ready| == |order|
    requires forall i | 0 <= i < |order| :: ready[i].fd == order[i]
    ensures Awaits(pending + ready, evs, entries + Loop.Queued(order))
  {
  }

  /** Without the ready events that are watched only once, what is left is watched. */
  lemma StillWatched(fds: seq<int>, left: seq<int>, persists: seq<bool>, rfds: set<int>,
                     readFds: set<int>, leftFds: set<int>)
    requires |fds| == |left| == |persists| && Apart(fds)
    requires forall i | 0 <= i < |fds| :: left[i] == if fds[i] in rfds && !persists[i] then FREE else fds[i]
    requires forall fd :: fd in readFds <==> fd != FREE && fd in fds
    requires forall fd :: fd in leftFds <==> fd != FREE && fd in left
    ensures leftFds == readFds - Once(fds, persists, rfds)
  {
    forall fd
      ensures fd in leftFds <==> fd in readFds && fd !in Once(fds, persists, rfds)
    {
      if fd in leftFds {
        var i :| 0 <= i < |left| && left[i] == fd;
        assert fds[i] == fd;
      }
      if fd in readFds && fd !in Once(fds, persists, rfds) {
        var i :| 0 <= i < |fds| && fds[i] == fd;
        assert left[i] == fd;
      }
    }
  }

  /** The slots of the ready events that are watched only once are free. */
  lemma SlotsLeft(w: WatchTable, b: Dispatch.Before, rfds: set<int>)
    requires w.Valid() && b.Valid() && FREE !in rfds
    requires forall i | 0 <= i < MAX_FD_EVENTS ::
      w.table[i] == if b.fds[i] in rfds && !b.persists[i] then null else b.table[i]
    requires forall i | 0 <= i < MAX_FD_EVENTS && b.table[i] != null :: b.table[i].fd == b.fds[i]
    ensures |w.fds| == |b.fds|
    ensures forall i | 0 <= i < |b.fds| :: w.fds[i] == if b.fds[i] in rfds && !b.persists[i] then FREE else b.fds[i]
  {
    forall i | 0 <= i < |b.fds|
      ensures w.fds[i] == if b.fds[i] in rfds && !b.persists[i] then FREE else b.fds[i]
    {
      assert b.fds[i] == FREE <==> b.table[i] == null;
      assert w.fds[i] == FREE <==> w.table[i] == null;
    }
  }

  lemma PickedFds(b: Dispatch.Before, rfds: set<int>)
    requires b.Valid() && FREE !in rfds
    requires forall i | 0 <= i < MAX_FD_EVENTS && b.table[i] != null :: b.table[i].fd == b.fds[i]
    ensures var evs, order := Dispatch.Picked(b.table, ReadySlots(b.fds, rfds, MAX_FD_EVENTS)), Order(b.fds, rfds);
      |evs| == |order| && forall i | 0 <= i < |order| :: evs[i] != null && evs[i].fd == order[i]
  {
  }

  /** processReadReadies() on table and lists, with what it queues and stops watching. */
  method Readies(w: WatchTable, q: Queues, rfds: set<int>, n: nat,
                 ghost evs: seq<TgmEvent>, ghost entries: seq<Loop.Entry>)
    returns (ghost order: seq<int>, ghost persists: seq<bool>)
    requires w.Valid() && q.Valid() && rfds <= w.readFds && n == |rfds| && Awaits(q.pending, evs, entries)
    requires forall ev: TgmEvent | ev in w.table[..] :: q.Free(ev)
    modifies w, w.table, q`pending, q.pendingList`next, q.pendingList`prev
    modifies Dispatch.Nodes(w, q)`index, Dispatch.Nodes(w, q)`next, Dispatch.Nodes(w, q)`prev
    ensures w.Valid() && q.Valid() && |persists| == |old(w.fds)|
    ensures order == Order(old(w.fds), rfds) && Awaits(q.pending, evs, entries + Loop.Queued(order))
    ensures w.readFds == old(w.readFds) - Once(old(w.fds), persists, rfds)
    ensures forall i | 0 <= i < |persists| && old(w.table[i]) != null :: persists[i] == old(w.table[i].persist)
  {
    ghost var b, readFds, pending := Dispatch.Snapshot(w, q), w.readFds, q.pending;
    order, persists := Order(w.fds, rfds), b.persists;
    ghost var ready := Dispatch.Picked(b.table, ReadySlots(b.fds, rfds, MAX_FD_EVENTS));
    Dispatch.ProcessReadReadies(w, q, rfds, n);
    PickedFds(b, rfds);
    AwaitsReady(pending, evs, entries, ready, order);
    SlotsLeft(w, b, rfds);
    StillWatched(b.fds, w.fds, persists, rfds, readFds, w.readFds);
  }

  lemma ReadiesIs(s: Loop.State, rfds: set<int>, order: seq<int>, once: set<int>)
    requires s.pc == Loop.TimeoutsDone(rfds) && Loop.MayQueue(s, rfds, order, once)
    ensures Loop.Step(s, Loop.Readies(order, once)) ==
            s.(pending := s.pending + Loop.Queued(order), watched := s.watched - once, pc := Loop.Firing)
  {
  }

  /** The timer list is left alone, and the events of the table, with their fds, are not those of timers. */
  method ReadiesTied(w: WatchTable, q: Queues, rfds: set<int>, n: nat, ghost evs: seq<TgmEvent>, ghost s: Loop.State)
    returns (ghost order: seq<int>, ghost persists: seq<bool>)
    requires Watches(w, s) && Tied(q, evs, s) && rfds <= s.watched && n == |rfds|
    requires forall ev: TgmEvent | ev in w.table[..] :: q.Free(ev) && (ev.fd == Loop.WAKE ==> ev.persist)
    modifies w, w.table, q`pending, q.pendingList`next, q.pendingList`prev
    modifies Dispatch.Nodes(w, q)`index, Dispatch.Nodes(w, q)`next, Dispatch.Nodes(w, q)`prev
    ensures |persists| == |old(w.fds)| && forall i | 0 <= i < |persists| && old(w.fds)[i] == Loop.WAKE :: persists[i]
    ensures order == Order(old(w.fds), rfds)
    ensures w.Valid() && w.readFds == s.watched - Once(old(w.fds), persists, rfds)
    ensures q.Valid() && Lists(q.timers, q.deadlines, evs, s.timers)
    ensures Awaits(q.pending, evs, s.pending + Loop.Queued(order))
  {
    assert forall i | 0 <= i < |w.fds| && w.fds[i] == Loop.WAKE :: w.table[i] in w.table[..] && w.table[i].persist;
    order, persists := Readies(w, q, rfds, n, evs, s.pending);
  }

  /** processReadReadies() */
  method QueuesReadies(w: WatchTable, q: Queues, rfds: set<int>, n: nat, ghost evs: seq<TgmEvent>, ghost s: Loop.State)
    returns (ghost order: seq<int>, ghost once: set<int>)
    requires Watches(w, s) && Tied(q, evs, s) && s.pc == Loop.TimeoutsDone(rfds) && rfds <= s.watched && n == |rfds|
    requires forall ev: TgmEvent | ev in w.table[..] :: q.Free(ev) && (ev.fd == Loop.WAKE ==> ev.persist)
    modifies w, w.table, q`pending, q.pendingList`next, q.pendingList`prev
    modifies Dispatch.Nodes(w, q)`index, Dispatch.Nodes(w, q)`next, Dispatch.Nodes(w, q)`prev
    ensures Loop.MayQueue(s, rfds, order, once)
    ensures Watches(w, Loop.Step(s, Loop.Readies(order, once))) && Tied(q, evs, Loop.Step(s, Loop.Readies(order, once)))
  {
    ghost var fds, nfds := w.fds, w.nfds;
    ghost var persists;
    order, persists := ReadiesTied(w, q, rfds, n, evs, s);
    once := Once(fds, persists, rfds);
    OrderMayQueue(s, fds, nfds, persists, rfds);
    ReadiesIs(s, rfds, order, once);
  }

  // ---------------------------------------------------------------- what the loop may rely on

  /** What select() was given, and what it has returned, is still watched: only callbacks stop watching. */
  ghost predicate StillThere(s: Loop.State) {
    match s.pc
    case Copied(rfds) => rfds <= s.watched
    case Selecting(rfds, _, _) => rfds <= s.watched
    case Returned(ready) => ready <= s.watched
    case TimeoutsDone(ready) => ready <= s.watched
    case _ => true
  }

  /** So the ready fds are watched when processReadReadies() comes. */
  lemma {:induction false} ReadyIsWatched(events: seq<Loop.Event>)
    ensures StillThere(Loop.Run(events))
  {
    if events != [] {
      ReadyIsWatched(events[..|events| - 1]);
    }
  }
}
