/** The pending requests of libtgm/tgm.cpp: a singly linked list, newest first. */
module Brokers {

  /** Request codes run from 1 to below this. */
  const NUM_COMMANDS := 17

  const SUCCESS := 0

  /** What goes out on a command socket for a request. */
  datatype Reply = Reply(fd: int, token: int, error: int)

  /** The error code of a reply: a failure to marshal the answer takes the place of success. */
  function ErrorSent(e: int, marshalled: int): int {
    if e == SUCCESS && marshalled != 0 then marshalled else e
  }

  /** The code says what came of the request: success if the vendor said success and the answer could be marshalled,
  otherwise the code of whichever failed. */
  predicate Carries(error: int, e: int, marshalled: int) {
    && (error == 0 <==> e == 0 && marshalled == 0)
    && (e != 0 ==> error == e)
    && (e == 0 && marshalled != 0 ==> error == marshalled)
  }

  lemma ErrorSentCarries(e: int, marshalled: int)
    ensures Carries(ErrorSent(e, marshalled), e, marshalled)
  {
  }

  /** A sequence without the first occurrence of x. */
  function Without<T(==)>(s: seq<T>, x: T): seq<T> {
    if s == [] then []
    else if s[0] == x then s[1..]
    else [s[0]] + Without(s[1..], x)
  }

  lemma {:induction false} WithoutMembers<T>(s: seq<T>, x: T)
    requires forall i, j | 0 <= i < j < |s| :: s[i] != s[j]
    ensures forall y :: y in Without(s, x) <==> y in s && y != x
    ensures forall i, j | 0 <= i < j < |Without(s, x)| :: Without(s, x)[i] != Without(s, x)[j]
  {
    if s != [] {
      assert s == [s[0]] + s[1..];
      if s[0] != x {
        WithoutMembers(s[1..], x);
        assert s[0] !in s[1..];
        var rest := Without(s[1..], x);
        assert forall i | 0 <= i < |rest| :: rest[i] in rest && rest[i] != s[0];
      }
    }
  }

  lemma {:induction false} WithoutIs<T>(s: seq<T>, x: T, k: nat)
    requires k < |s| && s[k] == x && x !in s[..k]
    ensures Without(s, x) == s[..k] + s[k + 1..]
  {
    if k > 0 {
      assert s[0] in s[..k];
      assert s[1..][..k - 1] == s[..k][1..];
      WithoutIs(s[1..], x, k - 1);
    }
  }

  lemma {:induction false} WithoutAbsent<T>(s: seq<T>, x: T)
    requires x !in s
    ensures Without(s, x) == s
  {
    if s != [] {
      WithoutAbsent(s[1..], x);
    }
  }

  class RequestInfo {
    const token: int
    const request: int
    var next: RequestInfo?
    var cancelled: bool
    const local: bool   // set by nothing

    constructor (token: int, request: int, next: RequestInfo?)
      ensures this.token == token && this.request == request && this.next == next && !cancelled && !local
    {
      this.token, this.request, this.next, cancelled, local := token, request, next, false, false;
    }
  }

  /** `nodes` are the requests of the list that starts at `head`, each once. */
  ghost predicate Chained(head: RequestInfo?, nodes: seq<RequestInfo>)
    reads nodes
  {
    && head == (if nodes == [] then null else nodes[0])
    && (forall i {:trigger nodes[i].next} | 0 <= i < |nodes| - 1 :: nodes[i].next == nodes[i + 1])
    && (nodes != [] ==> nodes[|nodes| - 1].next == null)
    && (forall i, j | 0 <= i < j < |nodes| :: nodes[i] != nodes[j])
  }

  /** Takes a request off the list: `*ppCur = (*ppCur)->p_next`, where ppCur is the link in `last`,
  or the head of the list.  Returns the head. */
  method Unlink(head: RequestInfo?, info: RequestInfo, last: RequestInfo?, ghost nodes: seq<RequestInfo>, ghost k: nat,
                ghost rest: seq<RequestInfo>)
    returns (first: RequestInfo?)
    requires Chained(head, nodes) && k < |nodes| && nodes[k] == info
    requires last == if k == 0 then null else nodes[k - 1]
    requires rest == nodes[..k] + nodes[k + 1..]
    modifies nodes`next
    ensures Chained(first, rest)
  {
    first := head;
    if last == null {
      first := info.next;
    } else {
      last.next := info.next;
    }
  }

  class Broker {
    var pendingRequests: RequestInfo?
    var fdCommand: int
    var replies: seq<Reply>       // all that was written to command sockets for requests
    ghost var pending: seq<RequestInfo>

    ghost predicate Valid()
      reads this, pending
    {
      Chained(pendingRequests, pending)
    }

    constructor ()
      ensures Valid() && pending == [] && fdCommand == -1 && replies == []
    {
      pendingRequests, fdCommand, replies, pending := null, -1, [], [];
    }

    /** processCommandBuffer(), up to the dispatch; `readable` is whether both numbers could be read. */
    method Accept(readable: bool, request: int, token: int) returns (info: RequestInfo?)
      requires Valid()
      modifies this`pendingRequests, this`pending
      ensures Valid()
      ensures info == null <==> !readable || request < 1 || request > 16
      ensures info == null ==> pending == old(pending)
      ensures info != null ==>
        && fresh(info) && info.token == token && info.request == request && !info.cancelled && !info.local
        && pending == [info] + old(pending)
    {
      if !readable || request < 1 || request >= NUM_COMMANDS {
        return null;
      }
      info := new RequestInfo(token, request, pendingRequests);
      assert info !in pending;
      pendingRequests := info;
      pending := [info] + pending;
    }

    /** checkAndDequeueRequestInfo() */
    method CheckAndDequeue(info: RequestInfo?) returns (found: bool)
      requires Valid()
      modifies this`pendingRequests, this`pending, pending`next
      ensures Valid() && found == (info in old(pending))
      ensures pending == if info == null then old(pending) else Without<RequestInfo>(old(pending), info)
    {
      if info == null {
        return false;
      }
      found := false;
      var cur, last: RequestInfo? := pendingRequests, null;
      ghost var k := 0;
      while cur != null
        invariant Valid() && pending == old(pending) && k <= |pending| && info !in pending[..k]
        invariant cur == if k < |pending| then pending[k] else null
        invariant last == if k == 0 then null else pending[k - 1]
        decreases |pending| - k
      {
        if info == cur {
          Take(cur, last, k);
          return true;
        }
        last, cur := cur, cur.next;
        k := k + 1;
      }
      assert pending[..k] == pending;
      WithoutAbsent<RequestInfo>(pending, info);
    }

    method Take(info: RequestInfo, last: RequestInfo?, ghost k: nat)
      requires Valid() && k < |pending| && pending[k] == info && info !in pending[..k]
      requires last == if k == 0 then null else pending[k - 1]
      modifies this`pendingRequests, this`pending, pending`next
      ensures Valid() && pending == Without<RequestInfo>(old(pending), info)
    {
      ghost var rest := Without<RequestInfo>(pending, info);
      WithoutIs<RequestInfo>(pending, info, k);
      pendingRequests := Unlink(pendingRequests, info, last, pending, k, rest);
      pending := rest;
    }

    /** TGM_onRequestComplete(); `marshalled` is what the response function returns and `fits`
    whether its answer is within MAX_COMMAND_BYTES. */
    method OnRequestComplete(info: RequestInfo?, e: int, marshalled: int, fits: bool)
      requires Valid()
      modifies this`pendingRequests, this`pending, this`replies, pending`next
      ensures Valid()
      ensures pending == if info == null then old(pending) else Without<RequestInfo>(old(pending), info)
      ensures replies == old(replies) +
        if info in old(pending) && !info.local && !info.cancelled && fdCommand >= 0 && fits
        then [Reply(fdCommand, info.token, ErrorSent(e, marshalled))] else []
      ensures Carries(ErrorSent(e, marshalled), e, marshalled)
    {
      var found := CheckAndDequeue(info);
      if !found || info.local {
        return;
      }
      if !info.cancelled {
        var error := e;
        if e == SUCCESS && marshalled != 0 {
          error := marshalled;
        }
        if fdCommand >= 0 && fits {
          replies := replies + [Reply(fdCommand, info.token, error)];
        }
      }
    }

    /** onCommandsSocketClosed(): nothing that is pending will be reported. */
    method OnCommandsSocketClosed()
      requires Valid()
      modifies pending`cancelled
      ensures Valid() && forall info | info in pending :: info.cancelled
    {
      var cur := pendingRequests;
      ghost var k := 0;
      while cur != null
        invariant Valid() && k <= |pending| && cur == if k < |pending| then pending[k] else null
        invariant forall i | 0 <= i < k :: pending[i].cancelled
        decreases |pending| - k
      {
        cur.cancelled := true;
        cur := cur.next;
        k := k + 1;
      }
    }
  }
}
