/** timer_list and pending_list of libtgm/tgm_event.cpp, and the operations on them. */
module EventQueues {
  import opened Sequences
  import opened CText
  import opened TimeVals
  import opened EventRings
  import opened TimerQueue

  /** Two well-formed lists with nothing in common. */
  ghost predicate Linked(timerList: TgmEvent, pendingList: TgmEvent, timers: seq<TgmEvent>, pending: seq<TgmEvent>)
    reads timerList, pendingList, timers, pending
  {
    && Ring(timerList, timers) && Ring(pendingList, pending)
    && timerList != pendingList && timerList !in pending && pendingList !in timers
    && forall ev | ev in timers :: ev !in pending
  }

  class Queues {
    const timerList: TgmEvent
    const pendingList: TgmEvent
    ghost var timers: seq<TgmEvent>
    ghost var pending: seq<TgmEvent>
    ghost var deadlines: seq<int>  // of the timers, in microseconds

    ghost predicate Valid()
      reads this, timerList, pendingList, timers, pending
    {
      && Linked(timerList, pendingList, timers, pending)
      && Dated(timers, deadlines) && Sorted(deadlines)
    }

    /** An event that is in neither list. */
    ghost predicate Free(ev: TgmEvent)
      reads this
    {
      ev != timerList && ev != pendingList && ev !in timers && ev !in pending
    }

    constructor ()
      ensures Valid() && timers == [] && pending == []
      ensures fresh(timerList) && fresh(pendingList)
    {
      timerList := new TgmEvent(-1, false);
      pendingList := new TgmEvent(-1, false);
      timers, pending, deadlines := [], [], [];
      new;
      InitList(timerList);
      InitList(pendingList);
    }

    /** Links a free event in front of a place of the timer list. */
    method LinkTimer(ev: TgmEvent, at: TgmEvent, ghost k: nat)
      requires Linked(timerList, pendingList, timers, pending) && Free(ev) && k <= |timers| && at == Place(timerList, timers, k)
      modifies this`timers, ev`next, ev`prev, timerList`next, timerList`prev
      modifies (set x | x in timers)`next, (set x | x in timers)`prev
      ensures Linked(timerList, pendingList, timers, pending) && timers == Insert(old(timers), k, ev)
    {
      assert at == timerList || at in timers;
      assert at.prev == timerList || at.prev in timers by {
        assert at.prev == if k == 0 then timerList else timers[k - 1];
      }
      AddToList(ev, at, timerList, timers, k);
      InsertNodeMembers(timers, k, ev);
      timers := Insert(timers, k, ev);
    }

    /** Links a free event at the end of the pending list. */
    method LinkPending(ev: TgmEvent)
      requires Linked(timerList, pendingList, timers, pending) && Free(ev)
      modifies this`pending, ev`next, ev`prev, pendingList`next, pendingList`prev
      modifies (set x | x in pending)`next, (set x | x in pending)`prev
      ensures Linked(timerList, pendingList, timers, pending) && pending == old(pending) + [ev]
    {
      AddToList(ev, pendingList, pendingList, pending, |pending|);
      InsertNodeMembers(pending, |pending|, ev);
      assert Insert(pending, |pending|, ev) == pending + [ev];
      pending := pending + [ev];
    }

    /** Unlinks the first timer. */
    method UnlinkFirst(ev: TgmEvent)
      requires Linked(timerList, pendingList, timers, pending) && timers != [] && ev == timers[0]
      modifies this`timers, timerList`next, timerList`prev
      modifies (set x | x in timers)`next, (set x | x in timers)`prev
      ensures Linked(timerList, pendingList, timers, pending) && Free(ev) && timers == old(timers)[1..]
    {
      assert ev.prev == timerList;
      assert ev.next == Place(timerList, timers, 1);
      ghost var rest := FirstOff(timers);
      RemoveFromList(ev, timerList, timers, 0);
      assert Ring(timerList, rest);
      timers := rest;
    }

    /** tgm_timer_add(): sorted by deadline, t, in front of the timers with the same one. */
    method TimerAdd(ev: TgmEvent, delay: TimeVal, now: TimeVal, ghost t: int)
      requires Valid() && Free(ev) && delay.Normal() && now.Normal() && t == now.Micros() + delay.Micros()
      modifies this`timers, this`deadlines, ev`fd, ev`timeout, ev`next, ev`prev, timerList`next, timerList`prev
      modifies (set x | x in timers)`next, (set x | x in timers)`prev
      ensures Valid() && ev.fd == -1 && ev.timeout == now.Add(delay) && ev.timeout.Micros() == t
      ensures Gains(old(timers), old(deadlines), ev, t, timers, deadlines)
    {
      SetTimeout(ev, delay, now, t);
      Enqueue(ev, t);
    }

    /** Gives a free event its deadline. */
    method SetTimeout(ev: TgmEvent, delay: TimeVal, now: TimeVal, ghost t: int)
      requires Valid() && Free(ev) && delay.Normal() && now.Normal() && t == now.Micros() + delay.Micros()
      modifies ev`fd, ev`timeout
      ensures Valid() && ev.fd == -1 && ev.timeout == now.Add(delay)
      ensures ev.timeout.Normal() && ev.timeout.Micros() == t
    {
      MacrosAreMicros(now, delay);
      ev.fd := -1;
      ev.timeout := now.Add(delay);
    }

    /** Puts a free event in front of the first timer that is not earlier. */
    method Enqueue(ev: TgmEvent, ghost t: int)
      requires Valid() && Free(ev) && ev.timeout.Normal() && ev.timeout.Micros() == t
      modifies this`timers, this`deadlines, ev`next, ev`prev, timerList`next, timerList`prev
      modifies (set x | x in timers)`next, (set x | x in timers)`prev
      ensures Valid() && Gains(old(timers), old(deadlines), ev, t, timers, deadlines)
    {
      var at, k := FindSlot(ev.timeout);
      Schedule(ev, at, k, t);
    }

    /** Links a free event where its deadline belongs. */
    method Schedule(ev: TgmEvent, at: TgmEvent, ghost k: nat, ghost t: int)
      requires Valid() && Free(ev) && ev.timeout.Normal() && ev.timeout.Micros() == t
      requires k == Leading(deadlines, t) && at == Place(timerList, timers, k)
      modifies this`timers, this`deadlines, ev`next, ev`prev, timerList`next, timerList`prev
      modifies (set x | x in timers)`next, (set x | x in timers)`prev
      ensures Valid() && timers == Insert(old(timers), k, ev)
      ensures deadlines == InsertDeadline(old(deadlines), t)
    {
      ghost var before := timers;
      LinkTimer(ev, at, k);
      InsertKeepsDated(before, deadlines, k, ev);
      InsertKeepsSorted(deadlines, t);
      deadlines := InsertDeadline(deadlines, t);
    }

    /** The first timer that is not earlier than t, or the sentinel. */
    method FindSlot(t: TimeVal) returns (at: TgmEvent, ghost k: nat)
      requires Linked(timerList, pendingList, timers, pending) && Dated(timers, deadlines) && t.Normal()
      ensures k == Leading(deadlines, t.Micros()) <= |timers| && at == Place(timerList, timers, Leading(deadlines, t.Micros()))
    {
      at := timerList.next;
      k := 0;
      while at.timeout.Less(t) && at != timerList
        invariant k <= |timers| && at == Place(timerList, timers, k)
        invariant forall i | 0 <= i < k :: deadlines[i] < t.Micros()
        decreases |timers| - k
      {
        MacrosAreMicros(at.timeout, t);
        at := at.next;
        k := k + 1;
      }
      if k < |timers| {
        MacrosAreMicros(at.timeout, t);
      }
      LeadingIs(deadlines, t.Micros(), k);
    }

    /** Moves the first timer to the end of the pending list. */
    method MoveFirst(ev: TgmEvent)
      requires Valid() && timers != [] && ev == timers[0]
      modifies this`timers, this`pending, this`deadlines, timerList`next, timerList`prev, pendingList`next, pendingList`prev
      modifies (set x | x in timers)`next, (set x | x in timers)`prev
      modifies (set x | x in pending)`next, (set x | x in pending)`prev
      ensures Valid() && timers == old(timers)[1..] && pending == old(pending) + [ev]
      ensures deadlines == old(deadlines)[1..]
    {
      UnlinkFirst(ev);
      LinkPending(ev);
      deadlines := deadlines[1..];
    }

    /** The first k timers of `all` have been moved to the end of the pending list. */
    ghost predicate Moved(all: seq<TgmEvent>, dates: seq<int>, before: seq<TgmEvent>, k: nat)
      reads this
    {
      && k <= |all| == |dates|
      && timers == all[k..] && deadlines == dates[k..] && pending == before + all[..k]
    }

    /** Is this, the first timer or the sentinel, a timer and strictly expired? */
    method IsDue(ev: TgmEvent, now: TimeVal, ghost t: int) returns (due: bool)
      requires Valid() && now.Normal() && t == now.Micros() && ev == Place(timerList, timers, 0)
      ensures due == (timers != [] && deadlines[0] < t)
    {
      if ev == timerList {
        return false;
      }
      MacrosAreMicros(ev.timeout, now);
      due := ev.timeout.Less(now);
    }

    /** The events of both lists are among these. */
    ghost predicate Within(nodes: set<TgmEvent>)
      reads this
    {
      (forall x | x in timers :: x in nodes) && (forall x | x in pending :: x in nodes)
    }

    /** One turn of processTimeouts(); returns what came behind the timer, and whether it is due. */
    method MoveNext(ev: TgmEvent, now: TimeVal, ghost t: int, ghost nodes: set<TgmEvent>,
                    ghost all: seq<TgmEvent>, ghost dates: seq<int>, ghost before: seq<TgmEvent>, ghost k: nat)
      returns (next: TgmEvent, due: bool)
      requires Valid() && Moved(all, dates, before, k) && k < |all| && ev == Place(timerList, timers, 0)
      requires now.Normal() && t == now.Micros() && Within(nodes)
      modifies this`timers, this`pending, this`deadlines, timerList`next, timerList`prev, pendingList`next, pendingList`prev
      modifies nodes`next, nodes`prev
      ensures Valid() && Moved(all, dates, before, k + 1) && next == Place(timerList, timers, 0)
      ensures Within(nodes) && due == (k + 1 < |dates| && dates[k + 1] < t)
    {
      OneMore(all, k);
      OneMore(dates, k);
      Assoc(before, all[..k], [ev]);
      next := ev.next;
      MoveFirst(ev);
      due := IsDue(next, now, t);
    }

    /** The loop of processTimeouts(). */
    method MoveExpired(first: TgmEvent, now: TimeVal, ghost t: int, ghost nodes: set<TgmEvent>,
                       ghost all: seq<TgmEvent>, ghost dates: seq<int>, ghost before: seq<TgmEvent>)
      returns (ghost k: nat)
      requires Valid() && Moved(all, dates, before, 0) && first == Place(timerList, timers, 0)
      requires now.Normal() && t == now.Micros()
      requires Within(nodes)
      modifies this`timers, this`pending, this`deadlines, timerList`next, timerList`prev, pendingList`next, pendingList`prev
      modifies nodes`next, nodes`prev
      ensures Valid() && Moved(all, dates, before, k) && AllBefore(dates, k, t) && (k < |dates| ==> dates[k] >= t)
    {
      k := 0;
      var ev := first;
      var due := IsDue(ev, now, t);
      while due
        invariant Valid() && Moved(all, dates, before, k) && ev == Place(timerList, timers, 0) && Within(nodes)
        invariant due == (k < |dates| && dates[k] < t) && AllBefore(dates, k, t)
        decreases |all| - k
      {
        OneMoreBefore(dates, k, t);
        ghost var k' := k + 1;
        ev, due := MoveNext(ev, now, t, nodes, all, dates, before, k);
        k := k';
      }
    }

    /** processTimeouts(): the strictly expired timers, in order, to the end of the pending list. */
    method ProcessTimeouts(now: TimeVal)
      requires Valid() && now.Normal()
      modifies this`timers, this`pending, this`deadlines, timerList`next, timerList`prev, pendingList`next, pendingList`prev
      modifies (set x | x in timers)`next, (set x | x in timers)`prev
      modifies (set x | x in pending)`next, (set x | x in pending)`prev
      ensures Valid()
      ensures Moved(old(timers), old(deadlines), old(pending), Leading(old(deadlines), now.Micros()))
    {
      ghost var nodes := (set x | x in timers) + set x | x in pending;
      assert pending + timers[..0] == pending;
      ghost var dates, t := deadlines, now.Micros();
      ghost var k := MoveExpired(timerList.next, now, t, nodes, timers, dates, pending);
      LeadingIs(dates, t, k);
    }

    /** Unlinks the first pending event. */
    method UnlinkPending(ev: TgmEvent)
      requires Linked(timerList, pendingList, timers, pending) && pending != [] && ev == pending[0]
      modifies this`pending, pendingList`next, pendingList`prev
      modifies (set x | x in pending)`next, (set x | x in pending)`prev
      ensures Linked(timerList, pendingList, timers, pending) && Free(ev) && pending == old(pending)[1..]
    {
      assert ev.prev == pendingList;
      assert ev.next == Place(pendingList, pending, 1);
      ghost var rest := FirstOff(pending);
      RemoveFromList(ev, pendingList, pending, 0);
      assert Ring(pendingList, rest);
      pending := rest;
    }

    /** calcNextTimeout(): how long select() may block; None is for ever. */
    method CalcNextTimeout(now: TimeVal) returns (wait: Option<TimeVal>)
      requires Valid() && now.Normal()
      ensures wait == None <==> timers == []
      ensures wait.Some? ==> wait.value.Normal() && 0 <= wait.value.Micros()
      ensures wait.Some? ==> forall i | 0 <= i < |deadlines| ::
                now.Micros() + wait.value.Micros() <= Max(deadlines[i], now.Micros())
      ensures wait.Some? ==> exists i | 0 <= i < |deadlines| ::
                now.Micros() + wait.value.Micros() == Max(deadlines[i], now.Micros())
    {
      var ev: TgmEvent := timerList.next;
      if ev == timerList {
        return None;
      }
      MacrosAreMicros(now, ev.timeout);
      MacrosAreMicros(ev.timeout, now);
      wait := Some(if now.Less(ev.timeout) then ev.timeout.Sub(now) else TimeVal(0, 0));
      assert deadlines[0] == ev.timeout.Micros();
    }
  }

  /** A timer with deadline t has come in front of the first one that is not earlier. */
  ghost predicate Gains(timers: seq<TgmEvent>, deadlines: seq<int>, ev: TgmEvent, t: int,
                        timers': seq<TgmEvent>, deadlines': seq<int>)
  {
    && Leading(deadlines, t) <= |timers|
    && timers' == Insert(timers, Leading(deadlines, t), ev) && deadlines' == InsertDeadline(deadlines, t)
  }

  function Max(a: int, b: int): int {
    if a < b then b else a
  }

  predicate AllBefore(dates: seq<int>, k: nat, t: int) {
    k <= |dates| && forall i | 0 <= i < k :: dates[i] < t
  }

  lemma OneMoreBefore(dates: seq<int>, k: nat, t: int)
    requires AllBefore(dates, k, t) && k < |dates| && dates[k] < t
    ensures AllBefore(dates, k + 1, t)
  {
  }

  lemma FirstOff(nodes: seq<TgmEvent>) returns (rest: seq<TgmEvent>)
    requires nodes != [] && Distinct(nodes)
    ensures rest == nodes[1..] == Delete(nodes, 0) && nodes[0] !in rest
    ensures forall x | x in rest :: x in nodes
  {
    rest := nodes[1..];
    assert Delete(nodes, 0) == rest;
  }

  lemma OneMore<T>(s: seq<T>, k: nat)
    requires k < |s|
    ensures s[k..][0] == s[k] && s[k..][1..] == s[k + 1..] && s[..k] + [s[k]] == s[..k + 1]
  {
  }

  /** The deadlines, in microseconds, are those of the timers. */
  ghost predicate Dated(timers: seq<TgmEvent>, deadlines: seq<int>)
    reads timers
  {
    && |deadlines| == |timers|
    && forall i | 0 <= i < |timers| :: timers[i].timeout.Normal() && timers[i].timeout.Micros() == deadlines[i]
  }

  lemma InsertKeepsDated(timers: seq<TgmEvent>, deadlines: seq<int>, k: nat, ev: TgmEvent)
    requires Dated(timers, deadlines) && k <= |timers| && ev.timeout.Normal()
    ensures Dated(Insert(timers, k, ev), deadlines[..k] + [ev.timeout.Micros()] + deadlines[k..])
  {
  }

  lemma InsertNodeMembers(nodes: seq<TgmEvent>, k: nat, ev: TgmEvent)
    requires k <= |nodes|
    ensures forall x :: x in Insert(nodes, k, ev) <==> x == ev || x in nodes
  {
    assert nodes == nodes[..k] + nodes[k..];
  }
}
