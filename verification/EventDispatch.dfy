/** processReadReadies() and firePending() of libtgm/tgm_event.cpp: from the watch table to the pending list, and
from there to the callbacks. */
module EventDispatch {
  import opened Sequences
  import opened CText
  import opened EventRings
  import opened TimeVals
  import opened TimerQueue
  import opened EventQueues
  import opened WatchTables

  ghost function Picked(table: seq<TgmEvent?>, slots: seq<nat>): (evs: seq<TgmEvent?>)
    requires forall i | 0 <= i < |slots| :: slots[i] < |table|
    ensures |evs| == |slots| && forall i | 0 <= i < |evs| :: evs[i] == table[slots[i]]
  {
    seq(|slots|, i requires 0 <= i < |slots| => table[slots[i]])
  }

  /** The ready fds among the first k slots. */
  function ReadyFds(fds: seq<int>, rfds: set<int>, k: nat): set<int>
    requires k <= |fds|
  {
    if k == 0 then {}
    else if fds[k - 1] in rfds then ReadyFds(fds, rfds, k - 1) + {fds[k - 1]}
    else ReadyFds(fds, rfds, k - 1)
  }

  lemma {:induction false} ReadyFdsAre(fds: seq<int>, rfds: set<int>, k: nat, fd: int)
    requires k <= |fds|
    ensures fd in ReadyFds(fds, rfds, k) <==> fd in rfds && fd in fds[..k]
  {
    if k > 0 {
      assert fds[..k] == fds[..k - 1] + [fds[k - 1]];
      ReadyFdsAre(fds, rfds, k - 1, fd);
    }
  }

  lemma NotYetReady(fds: seq<int>, rfds: set<int>, k: nat)
    requires k < |fds| && Apart(fds) && FREE !in rfds && fds[k] in rfds
    ensures fds[k] !in ReadyFds(fds, rfds, k)
  {
    ReadyFdsAre(fds, rfds, k, fds[k]);
    assert fds[k] !in fds[..k];
  }

  lemma ReadyStep(fds: seq<int>, rfds: set<int>, k: nat)
    requires k < |fds|
    ensures |ReadySlots(fds, rfds, k + 1)| == |ReadySlots(fds, rfds, k)| + if fds[k] in rfds then 1 else 0
  {
  }

  /** There are as many ready slots as ready fds. */
  lemma {:induction false} ReadyCount(fds: seq<int>, rfds: set<int>, k: nat)
    requires k <= |fds| && Apart(fds) && FREE !in rfds
    ensures |ReadySlots(fds, rfds, k)| == |ReadyFds(fds, rfds, k)|
  {
    if k > 0 {
      ReadyCount(fds, rfds, k - 1);
      if fds[k - 1] in rfds {
        NotYetReady(fds, rfds, k - 1);
      }
    }
  }

  lemma AllReady(fds: seq<int>, readFds: set<int>, nfds: int, rfds: set<int>)
    requires Summarized(fds, readFds, nfds) && rfds <= readFds
    ensures |ReadySlots(fds, rfds, |fds|)| == |rfds|
  {
    ReadyCount(fds, rfds, |fds|);
    assert fds[..|fds|] == fds;
    forall fd
      ensures fd in ReadyFds(fds, rfds, |fds|) <==> fd in rfds
    {
      ReadyFdsAre(fds, rfds, |fds|, fd);
    }
    assert ReadyFds(fds, rfds, |fds|) == rfds;
  }

  /** The ready slots of a part of the table come first among those of the whole. */
  lemma {:induction false} ReadyPrefix(fds: seq<int>, rfds: set<int>, k: nat, n: nat)
    requires k <= n <= |fds|
    ensures ReadySlots(fds, rfds, k) <= ReadySlots(fds, rfds, n)
    decreases n - k
  {
    if k < n {
      ReadyPrefix(fds, rfds, k, n - 1);
    }
  }

  lemma CountStep(fds: seq<int>, rfds: set<int>, k: nat, n: nat)
    requires k < n <= |fds|
    ensures |ReadySlots(fds, rfds, k + 1)| == |ReadySlots(fds, rfds, k)| + if fds[k] in rfds then 1 else 0
    ensures |ReadySlots(fds, rfds, k + 1)| <= |ReadySlots(fds, rfds, n)|
  {
    ReadyStep(fds, rfds, k);
    ReadyPrefix(fds, rfds, k + 1, n);
  }

  /** The table once the first k slots have been dealt with: ready, non-persistent events are gone. */
  ghost function Kept(table: seq<TgmEvent?>, fds: seq<int>, persists: seq<bool>, rfds: set<int>, k: nat): (t: seq<TgmEvent?>)
    requires |table| == |fds| == |persists|
    ensures |t| == |table|
    ensures forall i | 0 <= i < |t| :: t[i] == if i < k && fds[i] in rfds && !persists[i] then null else table[i]
  {
    seq(|table|, i requires 0 <= i < |table| => if i < k && fds[i] in rfds && !persists[i] then null else table[i])
  }

  /** What the table was when the pass began. */
  datatype Before = Before(table: seq<TgmEvent?>, fds: seq<int>, persists: seq<bool>, pending: seq<TgmEvent>) {
    ghost predicate Valid() {
      && |table| == |fds| == |persists| == MAX_FD_EVENTS
      && (forall i | 0 <= i < |fds| :: fds[i] == FREE <==> table[i] == null)
      && (forall i, j | 0 <= i < j < |fds| && fds[i] != FREE :: table[i] != table[j])
    }
  }

  /** k slots of the table have been dealt with: the table ... */
  ghost predicate TableDone(w: WatchTable, b: Before, rfds: set<int>, k: nat)
    requires b.Valid()
    reads w, w.table, w.table[..]
  {
    && w.Valid()
    && w.table[..] == Kept(b.table, b.fds, b.persists, rfds, k)
    && forall i | k <= i < MAX_FD_EVENTS :: w.fds[i] == b.fds[i]
  }

  /** What is in the queues, as values. */
  datatype Queued = Queued(timerList: TgmEvent, pendingList: TgmEvent, timers: seq<TgmEvent>, pending: seq<TgmEvent>)

  ghost function InQueues(q: Queues): Queued
    reads q
  {
    Queued(q.timerList, q.pendingList, q.timers, q.pending)
  }

  /** ... and the pending list. */
  ghost predicate PendingDone(v: Queued, b: Before, rfds: set<int>, nodes: set<TgmEvent>, k: nat)
    requires b.Valid() && k <= MAX_FD_EVENTS
  {
    && v.pending == b.pending + Picked(b.table, ReadySlots(b.fds, rfds, k))
    && (forall i | k <= i < MAX_FD_EVENTS && b.table[i] != null ::
          b.table[i] != v.timerList && b.table[i] != v.pendingList && b.table[i] !in v.timers && b.table[i] !in v.pending)
    && (forall ev | ev in v.pending :: ev in nodes)
  }

  ghost predicate Known(b: Before, nodes: set<TgmEvent>)
    requires b.Valid()
    reads nodes
  {
    forall i | 0 <= i < MAX_FD_EVENTS && b.table[i] != null :: b.table[i] in nodes && b.table[i].persist == b.persists[i]
  }

  lemma PickedStep(b: Before, rfds: set<int>, k: nat)
    requires b.Valid() && k < MAX_FD_EVENTS
    ensures Picked(b.table, ReadySlots(b.fds, rfds, k + 1)) ==
            Picked(b.table, ReadySlots(b.fds, rfds, k)) + if b.fds[k] in rfds then [b.table[k]] else []
  {
  }

  /** A slot that is not ready, or that holds a persistent event, stays as it is. */
  lemma KeptStep(w: WatchTable, b: Before, rfds: set<int>, k: nat)
    requires b.Valid() && k < MAX_FD_EVENTS && TableDone(w, b, rfds, k)
    requires b.fds[k] in rfds ==> b.persists[k]
    ensures TableDone(w, b, rfds, k + 1)
  {
    assert Kept(b.table, b.fds, b.persists, rfds, k) == Kept(b.table, b.fds, b.persists, rfds, k + 1);
  }

  lemma QueuedStep(v: Queued, b: Before, rfds: set<int>, nodes: set<TgmEvent>, k: nat, rev: TgmEvent)
    requires b.Valid() && k < MAX_FD_EVENTS && b.fds[k] in rfds && rev == b.table[k] && rev in nodes
    requires FREE !in rfds && PendingDone(v, b, rfds, nodes, k)
    ensures PendingDone(v.(pending := v.pending + [rev]), b, rfds, nodes, k + 1)
  {
    PickedStep(b, rfds, k);
    Assoc(b.pending, Picked(b.table, ReadySlots(b.fds, rfds, k)), [rev]);
  }

  /** Queues an event of the table; the table is not touched. */
  method Enqueue(ghost w: WatchTable, q: Queues, rev: TgmEvent)
    requires w.Valid() && q.Valid() && q.Free(rev)
    modifies q`pending, q.pendingList`next, q.pendingList`prev, rev`next, rev`prev
    modifies (set x | x in q.pending)`next, (set x | x in q.pending)`prev
    ensures w.Valid() && q.Valid() && q.pending == old(q.pending) + [rev]
  {
    q.LinkPending(rev);
  }

  /** Queues a ready event. */
  method QueueReady(ghost w: WatchTable, q: Queues, rev: TgmEvent, ghost b: Before, rfds: set<int>,
                    ghost nodes: set<TgmEvent>, ghost k: nat)
    requires b.Valid() && k < MAX_FD_EVENTS && b.fds[k] in rfds && rev == b.table[k] && rev in nodes
    requires FREE !in rfds && q.Valid() && PendingDone(InQueues(q), b, rfds, nodes, k)
    requires TableDone(w, b, rfds, k) && Known(b, nodes)
    modifies q`pending, q.pendingList`next, q.pendingList`prev, nodes`next, nodes`prev
    ensures TableDone(w, b, rfds, k) && Known(b, nodes)
    ensures q.Valid() && PendingDone(InQueues(q), b, rfds, nodes, k + 1)
  {
    QueuedStep(InQueues(q), b, rfds, nodes, k, rev);
    Enqueue(w, q, rev);
  }

  /** Stops watching a ready event that is not persistent. */
  method Unwatch(w: WatchTable, rev: TgmEvent, ghost q: Queues, ghost b: Before, rfds: set<int>, i: nat)
    requires b.Valid() && i < MAX_FD_EVENTS && TableDone(w, b, rfds, i) && q.Valid()
    requires b.fds[i] in rfds && !b.persists[i] && rev == w.table[i]
    modifies w, w.table, rev`index
    ensures TableDone(w, b, rfds, i + 1) && q.Valid()
  {
    w.RemoveWatch(rev, i);
    assert w.table[..] == Kept(b.table, b.fds, b.persists, rfds, i + 1);
  }

  /** i slots have been dealt with. */
  ghost predicate PassAt(w: WatchTable, q: Queues, b: Before, rfds: set<int>, nodes: set<TgmEvent>, i: nat)
    requires b.Valid() && i <= MAX_FD_EVENTS
    reads w, w.table, w.table[..], q, q.timerList, q.pendingList, q.timers, q.pending, nodes
  {
    TableDone(w, b, rfds, i) && q.Valid() && PendingDone(InQueues(q), b, rfds, nodes, i) && Known(b, nodes)
  }

  /** One slot of processReadReadies(). */
  method DispatchSlot(w: WatchTable, q: Queues, ghost b: Before, rfds: set<int>, ghost nodes: set<TgmEvent>, i: nat)
    returns (ready: bool)
    requires b.Valid() && i < MAX_FD_EVENTS && FREE !in rfds && PassAt(w, q, b, rfds, nodes, i)
    modifies w, w.table, q`pending, q.pendingList`next, q.pendingList`prev, nodes`index, nodes`next, nodes`prev
    ensures PassAt(w, q, b, rfds, nodes, i + 1)
    ensures ready == (b.fds[i] in rfds)
  {
    var rev := w.table[i];
    ready := rev != null && rev.fd in rfds;
    assert rev == b.table[i];
    if ready {
      QueueReady(w, q, rev, b, rfds, nodes, i);
      if !rev.persist {
        Unwatch(w, rev, q, b, rfds, i);
      } else {
        KeptStep(w, b, rfds, i);
      }
    } else {
      PickedStep(b, rfds, i);
      KeptStep(w, b, rfds, i);
    }
  }

  /** One slot, and the count of what is left. */
  method DispatchCounted(w: WatchTable, q: Queues, ghost b: Before, rfds: set<int>, ghost nodes: set<TgmEvent>, i: nat, left: nat)
    returns (less: nat)
    requires b.Valid() && i < MAX_FD_EVENTS && FREE !in rfds && PassAt(w, q, b, rfds, nodes, i)
    requires left == |ReadySlots(b.fds, rfds, MAX_FD_EVENTS)| - |ReadySlots(b.fds, rfds, i)|
    modifies w, w.table, q`pending, q.pendingList`next, q.pendingList`prev, nodes`index, nodes`next, nodes`prev
    ensures PassAt(w, q, b, rfds, nodes, i + 1)
    ensures less == |ReadySlots(b.fds, rfds, MAX_FD_EVENTS)| - |ReadySlots(b.fds, rfds, i + 1)|
  {
    CountStep(b.fds, rfds, i, MAX_FD_EVENTS);
    var ready := DispatchSlot(w, q, b, rfds, nodes, i);
    less := if ready then left - 1 else left;
  }

  /** The loop of processReadReadies(), which ends with the table or with the count. */
  method DispatchSlots(w: WatchTable, q: Queues, ghost b: Before, rfds: set<int>, ghost nodes: set<TgmEvent>, n: nat)
    returns (i: nat)
    requires b.Valid() && FREE !in rfds && PassAt(w, q, b, rfds, nodes, 0)
    requires n == |ReadySlots(b.fds, rfds, MAX_FD_EVENTS)|
    modifies w, w.table, q`pending, q.pendingList`next, q.pendingList`prev, nodes`index, nodes`next, nodes`prev
    ensures i <= MAX_FD_EVENTS && PassAt(w, q, b, rfds, nodes, i)
    ensures i == MAX_FD_EVENTS || |ReadySlots(b.fds, rfds, i)| >= n
  {
    var left := n;
    i := 0;
    while i < MAX_FD_EVENTS && left > 0
      invariant i <= MAX_FD_EVENTS && left == n - |ReadySlots(b.fds, rfds, i)|
      invariant PassAt(w, q, b, rfds, nodes, i)
    {
      left := DispatchCounted(w, q, b, rfds, nodes, i, left);
      i := i + 1;
    }
  }

  /** The watched events, and those already pending. */
  ghost function Nodes(w: WatchTable, q: Queues): (nodes: set<TgmEvent>)
    reads w, w.table, q
    ensures forall ev | ev in q.pending :: ev in nodes
    ensures forall ev | ev in w.table[..] && ev != null :: ev in nodes
  {
    (set ev: TgmEvent | ev in q.pending) + set ev: TgmEvent | ev in w.table[..]
  }

  ghost function Snapshot(w: WatchTable, q: Queues): (b: Before)
    requires w.Valid()
    reads w, w.table, w.table[..], q
    ensures b.Valid() && b.table == w.table[..] && b.fds == w.fds && b.pending == q.pending
    ensures forall i | 0 <= i < MAX_FD_EVENTS && b.table[i] != null :: b.table[i].persist == b.persists[i]
  {
    assert forall i, j | 0 <= i < j < |w.fds| && w.fds[i] != FREE :: w.table[i] != w.table[j];
    var persists := seq(MAX_FD_EVENTS, i requires 0 <= i < MAX_FD_EVENTS reads w.table, w.table[..] =>
                          w.table[i] != null && w.table[i].persist);
    Before(w.table[..], w.fds, persists, q.pending)
  }

  /** At the start of the pass nothing has been dealt with ... */
  lemma PassBegins(w: WatchTable, q: Queues, rfds: set<int>)
    requires w.Valid() && q.Valid()
    requires forall ev: TgmEvent | ev in w.table[..] :: q.Free(ev)
    ensures PassAt(w, q, Snapshot(w, q), rfds, Nodes(w, q), 0)
  {
    var b := Snapshot(w, q);
    assert Kept(b.table, b.fds, b.persists, rfds, 0) == b.table;
    assert Picked(b.table, ReadySlots(b.fds, rfds, 0)) == [];
    forall i | 0 <= i < MAX_FD_EVENTS && b.table[i] != null
      ensures q.Free(b.table[i]) && b.table[i] in Nodes(w, q)
    {
      assert b.table[i] in w.table[..];
    }
  }

  /** ... and once the count is used up, or the table, everything has been. */
  lemma PassEnds(b: Before, rfds: set<int>, i: nat)
    requires b.Valid() && i <= MAX_FD_EVENTS
    requires i == MAX_FD_EVENTS || |ReadySlots(b.fds, rfds, i)| >= |ReadySlots(b.fds, rfds, MAX_FD_EVENTS)|
    ensures ReadySlots(b.fds, rfds, i) == ReadySlots(b.fds, rfds, MAX_FD_EVENTS)
    ensures Kept(b.table, b.fds, b.persists, rfds, i) == Kept(b.table, b.fds, b.persists, rfds, MAX_FD_EVENTS)
  {
    ReadyPrefix(b.fds, rfds, i, MAX_FD_EVENTS);
    var all := ReadySlots(b.fds, rfds, MAX_FD_EVENTS);
    assert forall x | 0 <= x < |all| :: all[x] < i;
    forall j: nat | i <= j < MAX_FD_EVENTS && b.fds[j] in rfds
      ensures j in all
    {
      ReadySlotsHas(b.fds, rfds, MAX_FD_EVENTS, j);
    }
  }

  /** processReadReadies(): given the count that select() returned with rfds, every ready watched
  event is queued once, in the order of the table, and exactly the ready events that are not
  persistent are no longer watched. */
  method ProcessReadReadies(w: WatchTable, q: Queues, rfds: set<int>, n: nat)
    requires w.Valid() && q.Valid() && rfds <= w.readFds && n == |rfds|
    requires forall ev: TgmEvent | ev in w.table[..] :: q.Free(ev)
    modifies w, w.table, q`pending, q.pendingList`next, q.pendingList`prev
    modifies Nodes(w, q)`index, Nodes(w, q)`next, Nodes(w, q)`prev
    ensures w.Valid() && q.Valid() && forall ev | ev in q.pending :: ev in old(Nodes(w, q))
    ensures q.pending == old(q.pending) + Picked(old(w.table[..]), ReadySlots(old(w.fds), rfds, MAX_FD_EVENTS))
    ensures forall i | 0 <= i < MAX_FD_EVENTS :: w.table[i] ==
              if old(w.fds)[i] in rfds && !old(w.table[i].persist) then null else old(w.table[i])
  {
    ghost var b, nodes := Snapshot(w, q), Nodes(w, q);
    AllReady(w.fds, w.readFds, w.nfds, rfds);
    PassBegins(w, q, rfds);
    var i := DispatchSlots(w, q, b, rfds, nodes, n);
    PassEnds(b, rfds, i);
  }

  lemma PickedDistinct(b: Before, rfds: set<int>)
    requires b.Valid() && FREE !in rfds
    ensures var evs := Picked(b.table, ReadySlots(b.fds, rfds, MAX_FD_EVENTS));
      forall i, j | 0 <= i < j < |evs| :: evs[i] != evs[j]
  {
    var slots := ReadySlots(b.fds, rfds, MAX_FD_EVENTS);
    forall i, j | 0 <= i < j < |slots|
      ensures b.table[slots[i]] != b.table[slots[j]]
    {
      var x, y := slots[i], slots[j];
      assert x < y && b.fds[x] in rfds;
    }
  }

  /** What is queued is every ready watched event, once each. */
  lemma QueuedOnce(b: Before, rfds: set<int>, i: nat)
    requires b.Valid() && FREE !in rfds && i < MAX_FD_EVENTS && b.table[i] != null
    ensures var evs := Picked(b.table, ReadySlots(b.fds, rfds, MAX_FD_EVENTS));
      && (b.table[i] in evs <==> b.fds[i] in rfds)
      && (forall j, k | 0 <= j < k < |evs| :: evs[j] != evs[k])
  {
    PickedDistinct(b, rfds);
    var slots := ReadySlots(b.fds, rfds, MAX_FD_EVENTS);
    var evs := Picked(b.table, slots);
    if b.fds[i] in rfds {
      ReadySlotsHas(b.fds, rfds, MAX_FD_EVENTS, i);
      var j :| 0 <= j < |slots| && slots[j] == i;
      assert evs[j] == b.table[i];
    }
    if b.table[i] in evs {
      var j :| 0 <= j < |evs| && evs[j] == b.table[i];
      assert b.table[slots[j]] == b.table[i] && b.fds[slots[j]] in rfds;
      assert slots[j] == i;
    }
  }

  /** Every event that the loop knows of. */
  ghost function AllNodes(w: WatchTable, q: Queues): (nodes: set<TgmEvent>)
    reads w, w.table, q
    ensures Nodes(w, q) <= nodes && forall ev | ev in q.timers :: ev in nodes
  {
    Nodes(w, q) + set ev: TgmEvent | ev in q.timers
  }

  /** processTimeouts() with nothing pending: it leaves the watch table alone, and the watched
  events stay in neither list. */
  method ExpireTimers(w: WatchTable, q: Queues, now: TimeVal)
    requires w.Valid() && q.Valid() && now.Normal() && q.pending == []
    requires forall ev: TgmEvent | ev in w.table[..] :: q.Free(ev)
    modifies q`timers, q`pending, q`deadlines, q.timerList`next, q.timerList`prev, q.pendingList`next, q.pendingList`prev
    modifies (set x | x in q.timers)`next, (set x | x in q.timers)`prev
    ensures w.Valid() && q.Valid() && w.table[..] == old(w.table[..]) && w.fds == old(w.fds)
    ensures forall ev: TgmEvent | ev in w.table[..] :: q.Free(ev)
    ensures Nodes(w, q) <= old(AllNodes(w, q))
    ensures var k := Leading(old(q.deadlines), now.Micros());
      q.timers == old(q.timers)[k..] && q.pending == old(q.timers)[..k]
  {
    ghost var due := q.timers[..Leading(q.deadlines, now.Micros())];
    assert q.pending + due == due;
    q.ProcessTimeouts(now);
  }

  /** processTimeouts() and processReadReadies(), with nothing pending. */
  method QueueAll(w: WatchTable, q: Queues, rfds: set<int>, n: nat, now: TimeVal)
    requires w.Valid() && q.Valid() && rfds <= w.readFds && n == |rfds| && now.Normal() && q.pending == []
    requires forall ev: TgmEvent | ev in w.table[..] :: q.Free(ev)
    modifies w, w.table, q`timers, q`pending, q`deadlines
    modifies q.timerList`next, q.timerList`prev, q.pendingList`next, q.pendingList`prev
    modifies AllNodes(w, q)`index, AllNodes(w, q)`next, AllNodes(w, q)`prev
    ensures w.Valid() && q.Valid() && forall ev | ev in q.pending :: ev in old(AllNodes(w, q))
    ensures forall i | 0 <= i < MAX_FD_EVENTS :: w.table[i] ==
              if old(w.fds)[i] in rfds && !old(w.table[i].persist) then null else old(w.table[i])
    ensures var k := Leading(old(q.deadlines), now.Micros());
      && q.pending == old(q.timers)[..k] + Picked(old(w.table[..]), ReadySlots(old(w.fds), rfds, MAX_FD_EVENTS))
      && q.timers == old(q.timers)[k..]
  {
    ExpireTimers(w, q, now);
    ProcessReadReadies(w, q, rfds, n);
  }

  // ---------------------------------------------------------------- callbacks

  /** The events of the table and of the lists are among these. */
  ghost predicate Among(w: WatchTable, q: Queues, known: seq<TgmEvent>)
    reads w, w.table, q
  {
    && (forall ev | ev in q.timers :: ev in known) && (forall ev | ev in q.pending :: ev in known)
    && (forall ev | ev in w.table[..] && ev != null :: ev in known)
    && q.timerList !in known && q.pendingList !in known
  }

  /** An event without links is in neither list. */
  lemma UnlinkedIsFree(q: Queues, ev: TgmEvent)
    requires q.Valid() && ev.next == null
    ensures q.Free(ev)
  {
    forall i | 0 <= i < |q.timers|
      ensures q.timers[i] != ev
    {
      assert q.timers[i].next == if i < |q.timers| - 1 then q.timers[i + 1] else q.timerList;
    }
    forall i | 0 <= i < |q.pending|
      ensures q.pending[i] != ev
    {
      assert q.pending[i].next == if i < |q.pending| - 1 then q.pending[i + 1] else q.pendingList;
    }
  }

  /** A callback starts a timer with an event that is in no list and not watched. */
  method Starts(ghost w: WatchTable, q: Queues, ev: TgmEvent, delay: TimeVal, now: TimeVal)
    requires w.Valid() && q.Valid() && ev.next == null && ev.index == -1 && delay.Normal() && now.Normal()
    modifies q`timers, q`deadlines, ev`fd, ev`timeout, ev`next, ev`prev, q.timerList`next, q.timerList`prev
    modifies (set x | x in q.timers)`next, (set x | x in q.timers)`prev
    ensures w.Valid() && q.Valid() && ev in q.timers && forall x | x in q.timers :: x == ev || x in old(q.timers)
  {
    ghost var t := now.Micros() + delay.Micros();
    UnlinkedIsFree(q, ev);
    q.TimerAdd(ev, delay, now, t);
    InsertNodeMembers(old(q.timers), Leading(old(q.deadlines), t), ev);
  }

  /** It watches an event whose fd is not watched. */
  method Watches(w: WatchTable, ghost q: Queues, ev: TgmEvent)
    requires w.Valid() && q.Valid() && ev.fd >= 0 && ev.fd !in w.readFds
    modifies w, w.table, ev`index
    ensures w.Valid() && q.Valid() && forall x | x in w.table[..] && x != null :: x == ev || x in old(w.table[..])
    ensures FREE in old(w.fds) ==> ev in w.table[..]
  {
    ghost var slot := w.Add(ev);
    assert slot.Some? ==> w.table[..][slot.value] == ev;
  }

  /** It stops watching an event. */
  method Unwatches(w: WatchTable, ghost q: Queues, ev: TgmEvent)
    requires w.Valid() && q.Valid() && 0 <= ev.index < MAX_FD_EVENTS && w.table[ev.index] == ev
    modifies w, w.table, ev`index
    ensures w.Valid() && q.Valid() && forall x | x in w.table[..] && x != null :: x in old(w.table[..])
    ensures ev !in w.table[..]
  {
    var _ := w.Del(ev);
  }

  /** Something that a callback does with an event. */
  datatype Deed = Start(ev: TgmEvent, delay: TimeVal, now: TimeVal) | Watch(ev: TgmEvent) | Unwatch(ev: TgmEvent)

  /** One deed: an event that is fit for it is started, watched (if the table has room) or unwatched, any other is left
  alone. */
  method Do(w: WatchTable, q: Queues, ghost known: seq<TgmEvent>, d: Deed)
    requires w.Valid() && q.Valid() && Among(w, q, known) && d.ev in known
    modifies w, w.table, q`timers, q`deadlines, q.timerList`next, q.timerList`prev
    modifies (set x | x in known)`next, (set x | x in known)`prev
    modifies (set x | x in known)`fd, (set x | x in known)`index, (set x | x in known)`timeout
    ensures w.Valid() && q.Valid() && Among(w, q, known)
    ensures old(d.ev.next == null && d.ev.index == -1) && d.Start? && d.delay.Normal() && d.now.Normal() ==> d.ev in q.timers
    ensures d.Watch? && old(d.ev.fd) >= 0 && old(d.ev.fd !in w.readFds && FREE in w.fds) ==> d.ev in w.table[..]
    ensures d.Unwatch? && old(0 <= d.ev.index < MAX_FD_EVENTS && w.table[d.ev.index] == d.ev) ==> d.ev !in w.table[..]
  {
    var ev := d.ev;
    match d
    case Start(_, delay, now) =>
      if ev.next == null && ev.index == -1 && delay.Normal() && now.Normal() {
        Starts(w, q, ev, delay, now);
      }
    case Watch(_) =>
      if ev.fd >= 0 && ev.fd !in w.readFds {
        Watches(w, q, ev);
      }
    case Unwatch(_) =>
      if 0 <= ev.index < MAX_FD_EVENTS && w.table[ev.index] == ev {
        Unwatches(w, q, ev);
      }
  }

  /** A callback: any number of deeds. */
  method Callback(w: WatchTable, q: Queues, ghost known: seq<TgmEvent>, deeds: seq<Deed>)
    requires w.Valid() && q.Valid() && Among(w, q, known) && forall d | d in deeds :: d.ev in known
    modifies w, w.table, q`timers, q`deadlines, q.timerList`next, q.timerList`prev
    modifies (set x | x in known)`next, (set x | x in known)`prev
    modifies (set x | x in known)`fd, (set x | x in known)`index, (set x | x in known)`timeout
    ensures w.Valid() && q.Valid() && Among(w, q, known)
    ensures deeds == [] ==> w.table[..] == old(w.table[..]) && q.timers == old(q.timers)
  {
    for i := 0 to |deeds|
      invariant w.Valid() && q.Valid() && Among(w, q, known)
      invariant i == 0 ==> w.table[..] == old(w.table[..]) && q.timers == old(q.timers)
    {
      Do(w, q, known, deeds[i]);
    }
  }

  /** Takes the first pending event off the list; the watch table is left alone. */
  method TakeFirst(ghost w: WatchTable, q: Queues, ghost known: seq<TgmEvent>, ev: TgmEvent) returns (next: TgmEvent)
    requires w.Valid() && q.Valid() && Among(w, q, known) && q.pending != [] && ev == q.pending[0]
    modifies q`pending, q.pendingList`next, q.pendingList`prev
    modifies (set x | x in q.pending)`next, (set x | x in q.pending)`prev
    ensures w.Valid() && q.Valid() && Among(w, q, known) && q.Free(ev)
    ensures q.pending == old(q.pending)[1..] && next == Place(q.pendingList, q.pending, 0)
    ensures w.table[..] == old(w.table[..])
  {
    next := ev.next;
    q.UnlinkPending(ev);
  }

  /** Nothing has been done to timers and watches. */
  ghost predicate Untouched(w: WatchTable, q: Queues, timers: seq<TgmEvent>, table: seq<TgmEvent?>)
    reads w, w.table, q
  {
    q.timers == timers && w.table[..] == table
  }

  /** One turn of firePending(): off the list, then the callback; what is next is known before that. */
  method FireFirst(w: WatchTable, q: Queues, ghost known: seq<TgmEvent>, ev: TgmEvent, deeds: seq<Deed>,
                   ghost quiet: bool, ghost timers: seq<TgmEvent>, ghost table: seq<TgmEvent?>)
    returns (next: TgmEvent)
    requires w.Valid() && q.Valid() && Among(w, q, known) && q.pending != [] && ev == q.pending[0]
    requires (forall d | d in deeds :: d.ev in known) && (quiet ==> deeds == [] && Untouched(w, q, timers, table))
    modifies w, w.table, q`timers, q`pending, q`deadlines
    modifies q.timerList`next, q.timerList`prev, q.pendingList`next, q.pendingList`prev
    modifies (set x | x in known)`next, (set x | x in known)`prev
    modifies (set x | x in known)`fd, (set x | x in known)`index, (set x | x in known)`timeout
    ensures w.Valid() && q.Valid() && Among(w, q, known)
    ensures q.pending == old(q.pending)[1..] && next == Place(q.pendingList, q.pending, 0)
    ensures quiet ==> Untouched(w, q, timers, table)
  {
    next := TakeFirst(w, q, known, ev);
    Callback(w, q, known, deeds);
  }

  /** What the k-th callback does. */
  function DeedsOf(deeds: seq<seq<Deed>>, k: nat): seq<Deed> {
    if k < |deeds| then deeds[k] else []
  }

  /** The callbacks use known events only. */
  ghost predicate Use(deeds: seq<seq<Deed>>, known: seq<TgmEvent>) {
    forall k: nat, d | d in DeedsOf(deeds, k) :: d.ev in known
  }

  /** The events that have been fired, and those that are still to be. */
  ghost predicate Firing(all: seq<TgmEvent>, fired: seq<TgmEvent>, pending: seq<TgmEvent>) {
    all == fired + pending
  }

  lemma FiredOne(all: seq<TgmEvent>, fired: seq<TgmEvent>, pending: seq<TgmEvent>)
    requires Firing(all, fired, pending) && pending != []
    ensures Firing(all, fired + [pending[0]], pending[1..])
  {
    assert pending == [pending[0]] + pending[1..];
    Assoc(fired, [pending[0]], pending[1..]);
  }

  /** firePending(): takes every pending event off the list and calls back, in order, whatever the callbacks do
  to timers and watches; `deeds` is what they do. */
  method FirePending(w: WatchTable, q: Queues, ghost known: seq<TgmEvent>, deeds: seq<seq<Deed>>)
    returns (fired: seq<TgmEvent>)
    requires w.Valid() && q.Valid() && Among(w, q, known)
    requires Use(deeds, known)
    modifies w, w.table, q`timers, q`pending, q`deadlines
    modifies q.timerList`next, q.timerList`prev, q.pendingList`next, q.pendingList`prev
    modifies (set x | x in known)`next, (set x | x in known)`prev
    modifies (set x | x in known)`fd, (set x | x in known)`index, (set x | x in known)`timeout
    ensures w.Valid() && q.Valid() && q.pending == [] && fired == old(q.pending)
    ensures deeds == [] ==> w.table[..] == old(w.table[..]) && q.timers == old(q.timers)
  {
    fired := [];
    ghost var all, timers, table := q.pending, q.timers, w.table[..];
    var ev: TgmEvent := q.pendingList.next;
    while ev != q.pendingList
      invariant w.Valid() && q.Valid() && Among(w, q, known) && ev == Place(q.pendingList, q.pending, 0)
      invariant Firing(all, fired, q.pending)
      invariant deeds == [] ==> Untouched(w, q, timers, table)
      decreases |q.pending|
    {
      FiredOne(all, fired, q.pending);
      var next := FireFirst(w, q, known, ev, DeedsOf(deeds, |fired|), deeds == [], timers, table);
      fired := fired + [ev];
      ev := next;
    }
  }

  /** processTimeouts() and processReadReadies(); the events stay among the known ones. */
  method QueueKnown(w: WatchTable, q: Queues, rfds: set<int>, n: nat, now: TimeVal, ghost known: seq<TgmEvent>)
    requires w.Valid() && q.Valid() && rfds <= w.readFds && n == |rfds| && now.Normal() && q.pending == []
    requires Among(w, q, known) && forall ev: TgmEvent | ev in w.table[..] :: q.Free(ev)
    modifies w, w.table, q`timers, q`pending, q`deadlines
    modifies q.timerList`next, q.timerList`prev, q.pendingList`next, q.pendingList`prev
    modifies (set x | x in known)`index, (set x | x in known)`next, (set x | x in known)`prev
    ensures w.Valid() && q.Valid() && Among(w, q, known)
    ensures forall i | 0 <= i < MAX_FD_EVENTS :: w.table[i] ==
              if old(w.fds)[i] in rfds && !old(w.table[i].persist) then null else old(w.table[i])
    ensures var k := Leading(old(q.deadlines), now.Micros());
      && q.pending == old(q.timers)[..k] + Picked(old(w.table[..]), ReadySlots(old(w.fds), rfds, MAX_FD_EVENTS))
      && q.timers == old(q.timers)[k..]
  {
    assert forall ev | ev in AllNodes(w, q) :: ev in known;
    QueueAll(w, q, rfds, n, now);
  }

  /** What one turn of tgm_event_loop() does when select() has returned n ready fds, rfds, and the
  clock says `now`: it fires the strictly expired timers in order, then the ready events in
  the order of the table, whatever the callbacks do to timers and watches.  `timers` and `table` are what is
  left when the first callback begins. */
  method Turn(w: WatchTable, q: Queues, rfds: set<int>, n: nat, now: TimeVal,
              ghost known: seq<TgmEvent>, deeds: seq<seq<Deed>>)
    returns (fired: seq<TgmEvent>, ghost timers: seq<TgmEvent>, ghost table: seq<TgmEvent?>)
    requires w.Valid() && q.Valid() && rfds <= w.readFds && n == |rfds| && now.Normal() && q.pending == []
    requires forall ev: TgmEvent | ev in w.table[..] :: q.Free(ev)
    requires Among(w, q, known) && Use(deeds, known)
    modifies w, w.table, q`timers, q`pending, q`deadlines
    modifies q.timerList`next, q.timerList`prev, q.pendingList`next, q.pendingList`prev
    modifies (set x | x in known)`next, (set x | x in known)`prev
    modifies (set x | x in known)`fd, (set x | x in known)`index, (set x | x in known)`timeout
    ensures w.Valid() && q.Valid() && q.pending == [] && |table| == MAX_FD_EVENTS
    ensures forall i | 0 <= i < MAX_FD_EVENTS ::
              table[i] == if old(w.fds)[i] in rfds && !old(w.table[i].persist) then null else old(w.table[i])
    ensures var k := Leading(old(q.deadlines), now.Micros());
      && fired == old(q.timers)[..k] + Picked(old(w.table[..]), ReadySlots(old(w.fds), rfds, MAX_FD_EVENTS))
      && timers == old(q.timers)[k..]
    ensures deeds == [] ==> w.table[..] == table && q.timers == timers
  {
    QueueKnown(w, q, rfds, n, now, known);
    timers, table := q.timers, w.table[..];
    fired := FirePending(w, q, known, deeds);
  }
}
