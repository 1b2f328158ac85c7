/** watch_table, readFds and nfds of libtgm/tgm_event.cpp, updated in place. */
module WatchTables {
  import opened CText
  import opened EventRings

  const MAX_FD_EVENTS := 8

  /** A free slot, in a table of fds. */
  const FREE := -1

  /** No fd is watched twice. */
  ghost predicate Apart(fds: seq<int>) {
    forall i, j | 0 <= i < j < |fds| && fds[i] != FREE :: fds[i] != fds[j]
  }

  /** readFds holds exactly the watched fds, no fd is watched twice, and nfds is one more than
  the largest; an empty table may leave it at 1. */
  ghost predicate Summarized(fds: seq<int>, readFds: set<int>, nfds: int) {
    && (forall i | 0 <= i < |fds| :: fds[i] >= FREE)
    && Apart(fds)
    && (forall fd :: fd in readFds <==> fd != FREE && fd in fds)
    && (forall fd | fd in readFds :: fd < nfds)
    && (if readFds == {} then 0 <= nfds <= 1 else nfds - 1 in readFds)
  }

  lemma AddSummarized(fds: seq<int>, readFds: set<int>, nfds: int, i: nat, fd: int)
    requires Summarized(fds, readFds, nfds) && i < |fds| && fds[i] == FREE && fd >= 0 && fd !in readFds
    ensures Summarized(fds[i := fd], readFds + {fd}, if fd >= nfds then fd + 1 else nfds)
  {
    var fds' := fds[i := fd];
    assert fds'[i] == fd;
    forall x
      ensures x in readFds + {fd} <==> x != FREE && x in fds'
    {
      if x in readFds {
        var j :| 0 <= j < |fds| && fds[j] == x;
        assert fds'[j] == x;
      }
    }
  }

  lemma WatchedTwice(fds: seq<int>, i: nat, fd: int)
    requires i < |fds| && fds[i] == FREE && fd != FREE && fd in fds
    ensures !Apart(fds[i := fd])
  {
    var j :| 0 <= j < |fds| && fds[j] == fd;
    assert fds[i := fd][j] == fds[i := fd][i];
  }

  lemma RemoveSummarized(fds: seq<int>, readFds: set<int>, nfds: int, i: nat, n: int)
    requires Summarized(fds, readFds, nfds) && i < |fds| && fds[i] != FREE
    requires (n == nfds && fds[i] + 1 != nfds) || Top(fds[i := FREE], n - 1)
    ensures Summarized(fds[i := FREE], readFds - {fds[i]}, n)
  {
    var fds', left := fds[i := FREE], readFds - {fds[i]};
    forall x
      ensures x in left <==> x != FREE && x in fds'
    {
      if x in left {
        var j :| 0 <= j < |fds| && fds[j] == x;
        assert fds'[j] == x;
      }
      if x != FREE && x in fds' {
        var j :| 0 <= j < |fds| && fds'[j] == x;
        assert fds[j] == x;
      }
    }
    assert fds[i] in readFds;
  }

  /** The largest fd, or 0 if there is none. */
  ghost predicate Top(fds: seq<int>, n: int) {
    && n >= 0
    && (forall i | 0 <= i < |fds| :: fds[i] <= n)
    && (n == 0 || n in fds)
  }

  /** Which slots have a ready fd, in the order of the table. */
  function ReadySlots(fds: seq<int>, rfds: set<int>, k: nat): (slots: seq<nat>)
    requires k <= |fds|
    ensures forall i | 0 <= i < |slots| :: slots[i] < k && fds[slots[i]] in rfds
    ensures forall i, j | 0 <= i < j < |slots| :: slots[i] < slots[j]
  {
    if k == 0 then []
    else if fds[k - 1] in rfds then ReadySlots(fds, rfds, k - 1) + [k - 1]
    else ReadySlots(fds, rfds, k - 1)
  }

  /** No ready slot is missing. */
  lemma {:induction false} ReadySlotsHas(fds: seq<int>, rfds: set<int>, k: nat, slot: nat)
    requires slot < k <= |fds| && fds[slot] in rfds
    ensures slot in ReadySlots(fds, rfds, k)
  {
    if slot < k - 1 {
      ReadySlotsHas(fds, rfds, k - 1, slot);
    }
  }

  class WatchTable {
    const table: array<TgmEvent?>
    var readFds: set<int>
    var nfds: int
    ghost var fds: seq<int>

    /** Event, index and fd agree slot by slot. */
    ghost predicate Slots()
      reads this`fds, table, table[..]
    {
      && table.Length == |fds| == MAX_FD_EVENTS
      && forall i | 0 <= i < |fds| ::
           if fds[i] == FREE then table[i] == null
           else table[i] != null && table[i].index == i && table[i].fd == fds[i]
    }

    ghost predicate Valid()
      reads this, table, table[..]
    {
      Slots() && Summarized(fds, readFds, nfds)
    }

    constructor ()
      ensures Valid() && fresh(table) && forall i | 0 <= i < table.Length :: table[i] == null
    {
      table := new TgmEvent?[MAX_FD_EVENTS](_ => null);
      readFds, nfds := {}, 0;
      fds := seq(MAX_FD_EVENTS, _ => FREE);
    }

    /** tgm_event_add(): the first free slot; a full table is left alone.  The table agrees with its
    summaries afterwards if and only if the fd was not watched before. */
    method Add(ev: TgmEvent) returns (ghost slot: Option<nat>)
      requires Valid() && ev.fd >= 0
      modifies this, table, ev`index
      ensures slot == None <==> FREE !in old(fds)
      ensures slot == None ==>
        Valid() && table[..] == old(table[..]) && fds == old(fds) && readFds == old(readFds) && nfds == old(nfds)
      ensures slot.Some? ==>
        && slot.value < table.Length && old(fds)[slot.value] == FREE && FREE !in old(fds)[..slot.value]
        && table[..] == old(table[..])[slot.value := ev] && fds == old(fds)[slot.value := ev.fd]
        && ev.index == slot.value && readFds == old(readFds) + {ev.fd}
        && nfds == (if ev.fd >= old(nfds) then ev.fd + 1 else old(nfds))
        && (Valid() <==> ev.fd !in old(readFds))
    {
      slot := None;
      var i := 0;
      while i < MAX_FD_EVENTS
        invariant 0 <= i <= MAX_FD_EVENTS
        invariant forall j | 0 <= j < i :: fds[j] != FREE
      {
        if table[i] == null {
          Occupy(ev, i);
          slot := Some(i);
          return;
        }
        i := i + 1;
      }
    }

    /** Puts an event into a free slot. */
    method Occupy(ev: TgmEvent, i: nat)
      requires Valid() && ev.fd >= 0 && i < |fds| && fds[i] == FREE
      modifies this, table, ev`index
      ensures ev.index == i && readFds == old(readFds) + {ev.fd}
      ensures nfds == if ev.fd >= old(nfds) then ev.fd + 1 else old(nfds)
      ensures table.Length == MAX_FD_EVENTS
      ensures table[..] == old(table[..])[i := ev] && fds == old(fds)[i := ev.fd]
      ensures Valid() <==> ev.fd !in old(readFds)
    {
      if ev.fd !in readFds {
        AddSummarized(fds, readFds, nfds, i, ev.fd);
        assert ev !in table[..];
      } else {
        WatchedTwice(fds, i, ev.fd);
      }
      table[i] := ev;
      ev.index := i;
      readFds := readFds + {ev.fd};
      if ev.fd >= nfds {
        nfds := ev.fd + 1;
      }
      fds := fds[i := ev.fd];
    }

    /** The recomputation of nfds in removeWatch(). */
    method Recompute()
      requires Slots() && forall i | 0 <= i < |fds| :: fds[i] >= FREE
      modifies this`nfds
      ensures Top(fds, nfds - 1)
    {
      var n := 0;
      var i := 0;
      while i < MAX_FD_EVENTS
        invariant 0 <= i <= MAX_FD_EVENTS && n >= 0
        invariant forall j | 0 <= j < i :: fds[j] <= n
        invariant n == 0 || n in fds
      {
        var rev := table[i];
        if rev != null && rev.fd > n {
          n := rev.fd;
        }
        i := i + 1;
      }
      nfds := n + 1;
    }

    /** removeWatch() */
    method RemoveWatch(ev: TgmEvent, index: nat)
      requires Valid() && index < table.Length && table[index] == ev
      modifies this, table, ev`index
      ensures Valid() && ev.index == -1
      ensures table[..] == old(table[..])[index := null] && fds == old(fds)[index := FREE]
      ensures readFds == old(readFds) - {ev.fd}
    {
      ghost var before, fdsBefore, nBefore := readFds, fds, nfds;
      assert forall j | 0 <= j < |fds| && table[j] == ev :: j == index;
      table[index] := null;
      ev.index := -1;
      readFds := readFds - {ev.fd};
      fds := fds[index := FREE];
      if ev.fd + 1 == nfds {
        Recompute();
      }
      RemoveSummarized(fdsBefore, before, nBefore, index, nfds);
    }

    /** tgm_event_del().  An index that is out of range changes nothing, and then the mutex is still
    held on return. */
    method Del(ev: TgmEvent) returns (held: bool)
      requires Valid() && (0 <= ev.index < MAX_FD_EVENTS ==> table[ev.index] == ev)
      modifies this, table, ev`index
      ensures Valid() && held == !(0 <= old(ev.index) < MAX_FD_EVENTS)
      ensures held ==>
        && table[..] == old(table[..]) && fds == old(fds) && readFds == old(readFds) && nfds == old(nfds)
        && ev.index == old(ev.index)
      ensures !held ==>
        && ev.index == -1 && table[..] == old(table[..])[old(ev.index) := null] && readFds == old(readFds) - {ev.fd}
    {
      held := ev.index < 0 || ev.index >= MAX_FD_EVENTS;
      if !held {
        RemoveWatch(ev, ev.index);
      }
    }
  }
}
