/** The circular doubly linked lists of libtgm/tgm_event.cpp, with a sentinel. */
module EventRings {
  import opened TimeVals

  class TgmEvent {
    var next: TgmEvent?
    var prev: TgmEvent?
    var fd: int
    var index: int
    var persist: bool
    var timeout: TimeVal

    /** tgm_event_set(); for a sentinel, init_list() follows. */
    constructor (fd: int, persist: bool)
      ensures next == null && prev == null && this.fd == fd && index == -1 && this.persist == persist
      ensures timeout == TimeVal(0, 0)
    {
      next, prev := null, null;
      this.fd, index, this.persist := fd, -1, persist;
      timeout := TimeVal(0, 0);
    }
  }

  ghost predicate Distinct(nodes: seq<TgmEvent>) {
    forall i, j | 0 <= i < j < |nodes| :: nodes[i] != nodes[j]
  }

  /** From `list` the links lead through `nodes` and back, in both directions. */
  ghost predicate Ring(list: TgmEvent, nodes: seq<TgmEvent>)
    reads list, nodes
  {
    var n := |nodes|;
    && list !in nodes && Distinct(nodes)
    && list.next == (if n == 0 then list else nodes[0])
    && list.prev == (if n == 0 then list else nodes[n - 1])
    && (n > 0 ==> nodes[n - 1].next == list && nodes[0].prev == list)
    && (forall i {:trigger nodes[i].next} | 0 <= i < n - 1 :: nodes[i].next == nodes[i + 1])
    && (forall i {:trigger nodes[i].prev} | 0 < i < n :: nodes[i].prev == nodes[i - 1])
  }

  /** init_list() */
  method InitList(list: TgmEvent)
    modifies list`next, list`prev
    ensures Ring(list, [])
  {
    list.next := list;
    list.prev := list;
  }

  ghost function Insert(nodes: seq<TgmEvent>, k: nat, ev: TgmEvent): seq<TgmEvent>
    requires k <= |nodes|
  {
    nodes[..k] + [ev] + nodes[k..]
  }

  lemma InsertAt(nodes: seq<TgmEvent>, k: nat, ev: TgmEvent)
    requires k <= |nodes|
    ensures var all := Insert(nodes, k, ev);
      forall i | 0 <= i < |all| :: all[i] == if i < k then nodes[i] else if i == k then ev else nodes[i - 1]
  {
  }

  ghost function Delete(nodes: seq<TgmEvent>, k: nat): seq<TgmEvent>
    requires k < |nodes|
  {
    nodes[..k] + nodes[k + 1..]
  }

  /** The node at a place of the ring; the place behind the last is the sentinel. */
  ghost function Place(list: TgmEvent, nodes: seq<TgmEvent>, k: nat): TgmEvent
    requires k <= |nodes|
  {
    if k < |nodes| then nodes[k] else list
  }

  /** addToList(): puts `ev` in front of `at`. */
  method AddToList(ev: TgmEvent, at: TgmEvent, ghost list: TgmEvent, ghost nodes: seq<TgmEvent>, ghost k: nat)
    requires Ring(list, nodes) && k <= |nodes| && at == Place(list, nodes, k)
    requires ev != list && ev !in nodes
    modifies ev`next, ev`prev, at`prev, at.prev`next
    ensures Ring(list, Insert(nodes, k, ev))
  {
    ghost var all := Insert(nodes, k, ev);
    InsertAt(nodes, k, ev);
    assert list !in all && Distinct(all);
    ev.next := at;
    ev.prev := at.prev;
    ev.prev.next := ev;
    at.prev := ev;
  }

  /** removeFromList() */
  method RemoveFromList(ev: TgmEvent, ghost list: TgmEvent, ghost nodes: seq<TgmEvent>, ghost k: nat)
    requires Ring(list, nodes) && k < |nodes| && ev == nodes[k]
    modifies ev`next, ev`prev, ev.next`prev, ev.prev`next
    ensures Ring(list, Delete(nodes, k)) && ev.next == null && ev.prev == null
  {
    ev.next.prev := ev.prev;
    ev.prev.next := ev.next;
    ev.next := null;
    ev.prev := null;
  }
}
