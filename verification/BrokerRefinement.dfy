/** The pending-request list of libtgm/tgm.cpp in the runs of BrokerRuns: each section of the code does in
place what one event of BrokerRuns does on values. */
module BrokerRefinement {
  import opened CText
  import opened Brokers
  import opened BrokerRuns

  /** The list holds the requests with these numbers, in the same order. */
  ghost predicate Lists(pending: seq<RequestInfo>, given: seq<RequestInfo>, ids: seq<nat>) {
    && |pending| == |ids|
    && forall i | 0 <= i < |ids| :: ids[i] < |given| && pending[i] == given[ids[i]]
  }

  /** s_fdCommand is the fd of the open connection. */
  ghost predicate OnSocket(fd: int, fds: seq<int>, s: State) {
    && |fds| == s.conns
    && if s.open.Some? then s.open.value < |fds| && fd == fds[s.open.value] && fd >= 0 else fd < 0
  }

  /** What was written to the sockets. */
  ghost predicate Wrote(replies: seq<Reply>, fds: seq<int>, sent: seq<Sent>) {
    && |replies| == |sent|
    && forall i | 0 <= i < |sent| ::
         && sent[i].conn < |fds| && replies[i].fd == fds[sent[i].conn]
         && replies[i].token == sent[i].token && replies[i].error == sent[i].error
  }

  /** The requests given out, by their numbers. */
  ghost predicate Numbers(given: seq<RequestInfo>, accepted: seq<Request>) {
    && |given| == |accepted|
    && (forall i, j | 0 <= i < j < |given| :: given[i] != given[j])
    && (forall id | 0 <= id < |given| :: given[id].token == accepted[id].token && !given[id].local)
  }

  ghost predicate Marks(given: seq<RequestInfo>, ids: seq<nat>, cancelled: set<nat>)
    requires forall i | 0 <= i < |ids| :: ids[i] < |given|
    reads (set x | x in given)`cancelled
  {
    forall i | 0 <= i < |ids| :: given[ids[i]].cancelled <==> ids[i] in cancelled
  }

  /** List, marks, socket and replies are those of the state. */
  ghost predicate Agrees(pending: seq<RequestInfo>, fd: int, replies: seq<Reply>,
                         given: seq<RequestInfo>, fds: seq<int>, s: State)
    reads (set x | x in given)`cancelled
  {
    && Numbers(given, s.accepted) && Lists(pending, given, s.pending)
    && Marks(given, s.pending, s.cancelled)
    && OnSocket(fd, fds, s) && Wrote(replies, fds, s.sent)
  }

  /** The broker is in the state of the machine. */
  ghost predicate Tied(b: Broker, given: seq<RequestInfo>, fds: seq<int>, s: State)
    reads b, b.pending, given
  {
    b.Valid() && Agrees(b.pending, b.fdCommand, b.replies, given, fds, s)
  }

  lemma ListsFirst(pending: seq<RequestInfo>, given: seq<RequestInfo>, ids: seq<nat>, info: RequestInfo)
    requires Lists(pending, given, ids)
    ensures Lists([info] + pending, given + [info], [|given|] + ids)
  {
  }

  lemma {:induction false} ListsWithout(pending: seq<RequestInfo>, given: seq<RequestInfo>, ids: seq<nat>, id: nat)
    requires Lists(pending, given, ids) && id < |given|
    requires forall i, j | 0 <= i < j < |given| :: given[i] != given[j]
    ensures Lists(Without<RequestInfo>(pending, given[id]), given, Without<nat>(ids, id))
    ensures given[id] in pending <==> id in ids
    ensures forall x | x in Without<nat>(ids, id) :: x in ids
  {
    if ids != [] {
      assert pending == [pending[0]] + pending[1..] && ids == [ids[0]] + ids[1..];
      ListsWithout(pending[1..], given, ids[1..], id);
    }
  }

  lemma NewMarks(given: seq<RequestInfo>, ids: seq<nat>, cancelled: set<nat>, info: RequestInfo)
    requires forall i | 0 <= i < |ids| :: ids[i] < |given|
    requires Marks(given, ids, cancelled) && |given| !in cancelled && !info.cancelled
    ensures Marks(given + [info], [|given|] + ids, cancelled)
  {
  }

  lemma FewerMarks(given: seq<RequestInfo>, ids: seq<nat>, cancelled: set<nat>, id: nat)
    requires forall i | 0 <= i < |ids| :: ids[i] < |given|
    requires Marks(given, ids, cancelled) && forall x | x in Without<nat>(ids, id) :: x in ids
    ensures var left := Without<nat>(ids, id);
      (forall i | 0 <= i < |left| :: left[i] < |given|) && Marks(given, left, cancelled)
  {
    var left := Without<nat>(ids, id);
    forall i | 0 <= i < |left|
      ensures left[i] < |given| && (given[left[i]].cancelled <==> left[i] in cancelled)
    {
      assert left[i] in ids;
    }
  }

  lemma WroteOne(replies: seq<Reply>, fds: seq<int>, sent: seq<Sent>, r: Reply, x: Sent)
    requires Wrote(replies, fds, sent) && x.conn < |fds| && r.fd == fds[x.conn] && r.token == x.token && r.error == x.error
    ensures Wrote(replies + [r], fds, sent + [x])
  {
  }

  lemma DispatchAgrees(info: RequestInfo, request: int, token: int, readable: bool,
                       pending: seq<RequestInfo>, fd: int, replies: seq<Reply>,
                       given: seq<RequestInfo>, fds: seq<int>, s: State)
    requires Agrees(pending, fd, replies, given, fds, s) && s.open.Some? && Acceptable(request, readable) && Inv(s)
    requires info !in given && info.token == token && !info.local && !info.cancelled
    ensures Agrees([info] + pending, fd, replies, given + [info], fds, Step(s, Command(request, token, readable)))
  {
    ListsFirst(pending, given, s.pending, info);
    NewMarks(given, s.pending, s.cancelled, info);
  }

  /** What a completion writes. */
  function Answer(s: State, id: nat, fits: bool, r: Reply): seq<Reply> {
    if Answers(s, id, fits) then [r] else []
  }

  lemma CompleteAgrees(pending: seq<RequestInfo>, fd: int, replies: seq<Reply>, e: int, marshalled: int, fits: bool,
                       id: nat, given: seq<RequestInfo>, fds: seq<int>, s: State)
    requires Agrees(pending, fd, replies, given, fds, s) && id < |given|
    ensures Agrees(Without<RequestInfo>(pending, given[id]), fd,
                   replies + Answer(s, id, fits, Reply(fd, given[id].token, ErrorSent(e, marshalled))),
                   given, fds, Step(s, Complete(id, e, marshalled, fits)))
    ensures Answers(s, id, fits) <==> given[id] in pending && !given[id].cancelled && fd >= 0 && fits
  {
    ListsWithout(pending, given, s.pending, id);
    FewerMarks(given, s.pending, s.cancelled, id);
    if Answers(s, id, fits) {
      var error := ErrorSent(e, marshalled);
      WroteOne(replies, fds, s.sent, Reply(fd, given[id].token, error),
               Sent(id, s.accepted[id].token, s.open.value, error));
    } else {
      assert replies + [] == replies;
    }
  }

  /** listenCallback() accepts a connection. */
  method Connects(b: Broker, fd: int, ghost given: seq<RequestInfo>, ghost fds: seq<int>, ghost s: State)
    requires Tied(b, given, fds, s) && s.open == None && !s.closing && fd >= 0
    modifies b`fdCommand
    ensures Tied(b, given, fds + [fd], Step(s, Connect))
  {
    b.fdCommand := fd;
  }

  /** A record of the open connection: a request is given the next number, or nothing happens. */
  method Dispatches(b: Broker, request: int, token: int, readable: bool,
                    ghost given: seq<RequestInfo>, ghost fds: seq<int>, ghost s: State)
    returns (info: RequestInfo?)
    requires Tied(b, given, fds, s) && s.open.Some? && Inv(s)
    modifies b`pendingRequests, b`pending
    ensures info == null <==> !Acceptable(request, readable)
    ensures Tied(b, if info == null then given else given + [info], fds, Step(s, Command(request, token, readable)))
  {
    info := b.Accept(readable, request, token);
    if info != null {
      DispatchAgrees(info, request, token, readable, old(b.pending), b.fdCommand, b.replies, given, fds, s);
    }
  }

  /** TGM_onRequestComplete() for a request of the vendor: whether and what it writes is known beforehand. */
  method Answered(b: Broker, info: RequestInfo, e: int, marshalled: int, fits: bool,
                  ghost answers: bool, ghost r: Reply)
    requires b.Valid() && !info.local && r == Reply(b.fdCommand, info.token, ErrorSent(e, marshalled))
    requires answers <==> info in b.pending && !info.cancelled && b.fdCommand >= 0 && fits
    modifies b`pendingRequests, b`pending, b`replies, b.pending`next
    ensures b.Valid() && b.pending == Without<RequestInfo>(old(b.pending), info)
    ensures b.replies == old(b.replies) + if answers then [r] else []
  {
    b.OnRequestComplete(info, e, marshalled, fits);
  }

  /** The vendor completes a request that it was given. */
  method Completes(b: Broker, info: RequestInfo, e: int, marshalled: int, fits: bool,
                   ghost id: nat, ghost given: seq<RequestInfo>, ghost fds: seq<int>, ghost s: State)
    requires Tied(b, given, fds, s) && id < |given| && info == given[id]
    modifies b`pendingRequests, b`pending, b`replies, b.pending`next
    ensures Tied(b, given, fds, Step(s, Complete(id, e, marshalled, fits)))
  {
    ghost var r := Reply(b.fdCommand, info.token, ErrorSent(e, marshalled));
    CompleteAgrees(b.pending, b.fdCommand, b.replies, e, marshalled, fits, id, given, fds, s);
    Answered(b, info, e, marshalled, fits, Answers(s, id, fits), r);
  }

  /** processCommandsCallback() closes the socket. */
  method HangsUp(b: Broker, ghost given: seq<RequestInfo>, ghost fds: seq<int>, ghost s: State)
    requires Tied(b, given, fds, s) && s.open.Some?
    modifies b`fdCommand
    ensures Tied(b, given, fds, Step(s, HangUp))
  {
    b.fdCommand := -1;
  }

  lemma CancelAgrees(pending: seq<RequestInfo>, fd: int, replies: seq<Reply>,
                     given: seq<RequestInfo>, fds: seq<int>, s: State)
    requires Numbers(given, s.accepted) && Lists(pending, given, s.pending)
    requires OnSocket(fd, fds, s) && Wrote(replies, fds, s.sent)
    requires s.closing && forall info | info in pending :: info.cancelled
    ensures Agrees(pending, fd, replies, given, fds, Step(s, CancelAll))
  {
    forall i | 0 <= i < |s.pending|
      ensures given[s.pending[i]].cancelled && s.pending[i] in Step(s, CancelAll).cancelled
    {
      assert pending[i] in pending && s.pending[i] in s.pending;
    }
  }

  /** onCommandsSocketClosed() */
  method Cancels(b: Broker, ghost given: seq<RequestInfo>, ghost fds: seq<int>, ghost s: State)
    requires Tied(b, given, fds, s) && s.closing
    modifies b.pending`cancelled
    ensures Tied(b, given, fds, Step(s, CancelAll))
  {
    b.OnCommandsSocketClosed();
    CancelAgrees(b.pending, b.fdCommand, b.replies, given, fds, s);
  }
}
