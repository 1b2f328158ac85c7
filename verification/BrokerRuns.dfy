/** Requests and responses of libtgm/tgm.cpp over whole runs.

All events are on the loop thread, which also completes the requests; a request is known by its
number, and no number is used twice.  The vendor may complete any request it was given, and any
number of times. */
module BrokerRuns {
  import opened CText
  import opened Brokers

  /** A request that was accepted, and the connection that carried it. */
  datatype Request = Request(token: int, conn: nat)

  /** A solicited response, and the connection that it was written to. */
  datatype Sent = Sent(id: nat, token: int, conn: nat, error: int)

  datatype State = State(
    open: Option<nat>,        // the connection behind s_fdCommand; None is -1
    conns: nat,               // connections accepted so far
    closing: bool,            // s_fdCommand is -1 and onCommandsSocketClosed() is still to come
    accepted: seq<Request>,
    pending: seq<nat>,        // s_pendingRequests, newest first
    cancelled: set<nat>,
    completed: set<nat>,      // requests the vendor has completed at least once
    sent: seq<Sent>)

  const INITIAL := State(None, 0, false, [], [], {}, {}, [])

  datatype Event =
    | Connect                        // listenCallback() accepts
    | Command(request: int, token: int, readable: bool)
    | Complete(id: nat, e: int, marshalled: int, fits: bool)  // TGM_onRequestComplete(); fits: within MAX_COMMAND_BYTES
    | HangUp                         // processCommandsCallback() closes the socket ...
    | CancelAll                      // ... and calls onCommandsSocketClosed()

  predicate Acceptable(request: int, readable: bool) {
    readable && 1 <= request < NUM_COMMANDS
  }

  function OnCommand(s: State, token: int, conn: nat): State {
    s.(accepted := s.accepted + [Request(token, conn)], pending := [|s.accepted|] + s.pending)
  }

  /** Whether completing a request sends something. */
  predicate Answers(s: State, id: nat, fits: bool) {
    id in s.pending && id !in s.cancelled && s.open.Some? && fits
  }

  function OnComplete(s: State, id: nat, e: int, marshalled: int, fits: bool): State
    requires id < |s.accepted|
  {
    s.(pending := Without<nat>(s.pending, id),
       completed := s.completed + {id},
       sent := if Answers(s, id, fits) then
                 s.sent + [Sent(id, s.accepted[id].token, s.open.value, ErrorSent(e, marshalled))]
               else s.sent)
  }

  /** An event that cannot happen in a state leaves it alone. */
  function Step(s: State, e: Event): State {
    match e
    case Connect =>
      if s.open.Some? || s.closing then s else s.(open := Some(s.conns), conns := s.conns + 1)
    case Command(request, token, readable) =>
      if s.open.Some? && Acceptable(request, readable) then OnCommand(s, token, s.open.value) else s
    case Complete(id, e, marshalled, fits) =>
      if id < |s.accepted| then OnComplete(s, id, e, marshalled, fits) else s
    case HangUp =>
      if s.open.Some? then s.(open := None, closing := true) else s
    case CancelAll =>
      if s.closing then s.(closing := false, cancelled := s.cancelled + set id | id in s.pending) else s
  }

  function Run(events: seq<Event>): State {
    if events == [] then INITIAL else Step(Run(events[..|events| - 1]), events[|events| - 1])
  }

  /** A pending request is cancelled exactly if its connection is gone. */
  ghost predicate Owned(s: State) {
    forall id | id in s.pending ::
      id < |s.accepted| && (s.closing || (id in s.cancelled <==> s.open != Some(s.accepted[id].conn)))
  }

  /** Pending is what has been accepted and not completed, each once. */
  ghost predicate Listed(s: State) {
    && (forall i, j | 0 <= i < j < |s.pending| :: s.pending[i] != s.pending[j])
    && (forall id: nat :: id in s.pending <==> id < |s.accepted| && id !in s.completed)
  }

  ghost predicate Numbered(s: State) {
    && (s.open.Some? ==> s.open.value == s.conns - 1 && !s.closing)
    && (forall id | 0 <= id < |s.accepted| :: s.accepted[id].conn < s.conns)
    && (forall id | id in s.cancelled :: id < |s.accepted|)
    && (forall id | id in s.completed :: id < |s.accepted|)
  }

  /** What was sent was sent once, after a completion, with the token of its request and on the
  connection of its request. */
  ghost predicate Proper(s: State) {
    && (forall i | 0 <= i < |s.sent| ::
          var x := s.sent[i];
          x.id in s.completed && x.id < |s.accepted| && Request(x.token, x.conn) == s.accepted[x.id])
    && (forall i, j | 0 <= i < j < |s.sent| :: s.sent[i].id != s.sent[j].id)
  }

  ghost predicate Inv(s: State) {
    Listed(s) && Owned(s) && Numbered(s) && Proper(s)
  }

  lemma CommandKeepsInv(s: State, token: int)
    requires Inv(s) && s.open.Some?
    ensures Inv(OnCommand(s, token, s.open.value))
  {
    var s', id := OnCommand(s, token, s.open.value), |s.accepted|;
    assert id !in s.pending && id !in s.completed && id !in s.cancelled;
    assert forall x :: x in s'.pending <==> x == id || x in s.pending;
    assert forall i | 0 <= i < id :: s'.accepted[i] == s.accepted[i];
  }

  lemma CompleteKeepsProper(s: State, id: nat, e: int, marshalled: int, fits: bool)
    requires Inv(s) && id < |s.accepted|
    ensures Proper(OnComplete(s, id, e, marshalled, fits))
  {
    assert Answers(s, id, fits) ==> id !in s.completed;
  }

  lemma CompleteKeepsInv(s: State, id: nat, e: int, marshalled: int, fits: bool)
    requires Inv(s) && id < |s.accepted|
    ensures Inv(OnComplete(s, id, e, marshalled, fits))
  {
    CompleteKeepsProper(s, id, e, marshalled, fits);
    var s' := OnComplete(s, id, e, marshalled, fits);
    assert Listed(s') && Owned(s') by {
      WithoutMembers<nat>(s.pending, id);
    }
  }

  lemma StepKeepsInv(s: State, e: Event)
    requires Inv(s)
    ensures Inv(Step(s, e))
  {
    match e
    case Command(request, token, readable) =>
      if s.open.Some? && Acceptable(request, readable) {
        CommandKeepsInv(s, token);
      }
    case Complete(id, e, marshalled, fits) =>
      if id < |s.accepted| {
        CompleteKeepsInv(s, id, e, marshalled, fits);
      }
    case _ =>
  }

  /** Pending is what was accepted and not completed; cancelled of it is what has lost its
  connection. */
  lemma {:induction false} RunsAreSound(events: seq<Event>)
    ensures Listed(Run(events)) && Owned(Run(events)) && Numbered(Run(events)) && Proper(Run(events))
  {
    if events != [] {
      RunsAreSound(events[..|events| - 1]);
      StepKeepsInv(Run(events[..|events| - 1]), events[|events| - 1]);
    }
  }

  /** In every run each request gets at most one response, with its own token and on the
  connection that carried it, even if it is completed twice. */
  lemma AnsweredOnce(events: seq<Event>)
    ensures var s := Run(events);
      && (forall i, j | 0 <= i < j < |s.sent| :: s.sent[i].id != s.sent[j].id)
      && (forall i | 0 <= i < |s.sent| ::
            s.sent[i].id < |s.accepted| && Request(s.sent[i].token, s.sent[i].conn) == s.accepted[s.sent[i].id])
  {
    RunsAreSound(events);
  }

  /** Every pending request that is not cancelled belongs to the open connection; while the
  socket is being closed none is open. */
  lemma PendingIsOpen(events: seq<Event>, id: nat)
    requires id in Run(events).pending && id !in Run(events).cancelled
    ensures var s := Run(events);
      id < |s.accepted| && (if s.closing then s.open == None else s.open == Some(s.accepted[id].conn))
  {
    RunsAreSound(events);
  }

  /** A completion sends a response if and only if it is the first one of its request, the
  connection of the request is still open, and the answer is not too large. */
  lemma AnswersIff(events: seq<Event>, id: nat, e: int, marshalled: int, fits: bool)
    ensures var s := Run(events);
      |Step(s, Complete(id, e, marshalled, fits)).sent| == |s.sent| + 1 <==>
      id < |s.accepted| && id !in s.completed && s.open == Some(s.accepted[id].conn) && fits
  {
    RunsAreSound(events);
  }

  /** The responses to one request. */
  function Responses(sent: seq<Sent>, id: nat): seq<Sent> {
    if sent == [] then []
    else Responses(sent[..|sent| - 1], id) + if sent[|sent| - 1].id == id then [sent[|sent| - 1]] else []
  }

  lemma CompletedStays(s: State, e: Event, id: nat)
    requires Inv(s) && id in s.completed
    ensures id in Step(s, e).completed && Responses(Step(s, e).sent, id) == Responses(s.sent, id)
  {
    var s' := Step(s, e);
    if s'.sent != s.sent {
      assert e.Complete? && e.id != id;
      assert s'.sent[..|s'.sent| - 1] == s.sent;
    }
  }

  lemma RunMore(events: seq<Event>, more: seq<Event>)
    requires more != []
    ensures Run(events + more) == Step(Run(events + more[..|more| - 1]), more[|more| - 1])
  {
    assert (events + more)[..|events + more| - 1] == events + more[..|more| - 1];
  }

  /** The first completion of a request decides: whatever comes after it, other completions, connections and
  hang-ups included, the request is never answered again, and if it was not answered it never is. */
  lemma {:induction false} FirstCompletionDecides(events: seq<Event>, more: seq<Event>, id: nat)
    requires id in Run(events).completed
    ensures id in Run(events + more).completed
    ensures Responses(Run(events + more).sent, id) == Responses(Run(events).sent, id)
    decreases |more|
  {
    if more == [] {
      assert events + more == events;
    } else {
      FirstCompletionDecides(events, more[..|more| - 1], id);
      RunMore(events, more);
      RunsAreSound(events + more[..|more| - 1]);
      CompletedStays(Run(events + more[..|more| - 1]), more[|more| - 1], id);
    }
  }

  lemma {:induction false} ResponsesAre(sent: seq<Sent>, id: nat)
    requires forall i, j | 0 <= i < j < |sent| :: sent[i].id != sent[j].id
    ensures |Responses(sent, id)| <= 1
    ensures forall x :: x in Responses(sent, id) <==> x in sent && x.id == id
  {
    if sent != [] {
      var before, r := sent[..|sent| - 1], Responses(sent[..|sent| - 1], id);
      assert sent == before + [sent[|sent| - 1]];
      ResponsesAre(before, id);
      assert r != [] ==> r[0] in before && r[0].id == id;
    }
  }

  /** In every run a request that has been completed has one response if its first completion sent one, and
  none otherwise; one that has not been completed has none. */
  lemma OneResponse(events: seq<Event>, id: nat)
    ensures |Responses(Run(events).sent, id)| <= 1
    ensures id !in Run(events).completed ==> Responses(Run(events).sent, id) == []
  {
    RunsAreSound(events);
    ResponsesAre(Run(events).sent, id);
    var r := Responses(Run(events).sent, id);
    if r != [] {
      assert r[0] in Run(events).sent && r[0].id == id;
    }
  }

  /** The first completion of a request that had been accepted by then. */
  function FirstCompletion(events: seq<Event>, id: nat): (first: Option<Event>)
    ensures first.Some? ==> first.value.Complete? && first.value.id == id
  {
    if events == [] then None
    else
      var init, e := events[..|events| - 1], events[|events| - 1];
      var first := FirstCompletion(init, id);
      if first == None && e.Complete? && e.id == id && id < |Run(init).accepted| then Some(e) else first
  }

  lemma {:induction false} CompletedIff(events: seq<Event>, id: nat)
    ensures id in Run(events).completed <==> FirstCompletion(events, id).Some?
  {
    if events != [] {
      CompletedIff(events[..|events| - 1], id);
    }
  }

  /** In every run a response carries the code of the first completion of its request, whatever the
  later ones say. */
  lemma {:induction false} CarriesFirst(events: seq<Event>, i: nat)
    requires i < |Run(events).sent|
    ensures var x := Run(events).sent[i]; var first := FirstCompletion(events, x.id);
      first.Some? && Carries(x.error, first.value.e, first.value.marshalled)
  {
    var init, e := events[..|events| - 1], events[|events| - 1];
    RunsAreSound(init);
    if i < |Run(init).sent| {
      CarriesFirst(init, i);
    } else {
      CompletedIff(init, e.id);
    }
  }

  // ---------------------------------------------------------------- connections

  /** The socket has been closed, and its requests are not yet cancelled. */
  predicate Closing(events: seq<Event>) {
    events != [] &&
    var init, e := events[..|events| - 1], events[|events| - 1];
    if e == HangUp then Link(init).Some? || Closing(init) else e != CancelAll && Closing(init)
  }

  /** How many connections have been accepted: one at a time, and none while one is being closed. */
  function Accepted(events: seq<Event>): nat {
    if events == [] then 0
    else
      var init := events[..|events| - 1];
      Accepted(init) + if events[|events| - 1] == Connect && Link(init) == None && !Closing(init) then 1 else 0
  }

  /** The open connection. */
  function Link(events: seq<Event>): Option<nat> {
    if events == [] then None
    else
      var init, e := events[..|events| - 1], events[|events| - 1];
      if e == HangUp then None
      else if e == Connect && Link(init) == None && !Closing(init) then Some(Accepted(init))
      else Link(init)
  }

  /** In every run: after a hang-up and the cancelling, and only then, the next connection is accepted, with a number
  of its own. */
  lemma {:induction false} LinksAreTold(events: seq<Event>)
    ensures var s := Run(events); s.open == Link(events) && s.closing == Closing(events) && s.conns == Accepted(events)
  {
    if events != [] {
      LinksAreTold(events[..|events| - 1]);
    }
  }
}
