/** No cross-talk: with one issuing thread, the k-th command is answered from the k-th block of
the modem's lines, whatever unsolicited lines come in between.

The events are finer than those of AtProtocol: writing a command and installing its response
are two, with s_commandmutex held in between, so a modem that answers at once is covered. */
module AtCrossTalk {
  import opened CText
  import opened AtLines
  import opened AtProtocol

  /** A line on its way from the modem: part of an answer, unsolicited, or one of the two lines of
  an unsolicited SMS. */
  datatype Wired = Reply(line: string) | Urc(line: string) | Header(line: string) | Body(line: string)

  /** A command and the lines that the modem answers it with. */
  datatype Exchange = Exchange(command: Command, block: seq<string>)

  /** The only final line of a block is its last one. */
  ghost predicate Proper(x: Exchange) {
    && x.block != [] && IsFinal(x.block[|x.block| - 1])
    && (forall i | 0 <= i < |x.block| - 1 :: !IsFinal(x.block[i]))
    && (forall i | 0 <= i < |x.block| :: !IsSmsHeader(x.block[i]))
  }

  datatype Phase = Idle | Writing | Waiting

  datatype Talk = Talk(
    state: State,              // the protocol
    phase: Phase,              // of the issuing thread; it holds the lock while Writing
    next: nat,                 // the exchange at hand
    todo: seq<string>,         // lines of its block that the modem has not sent yet
    wire: seq<Wired>,          // lines sent and not read
    got: seq<string>,          // lines of the block that have been read
    held: Option<string>,      // readerLoop() has an SMS header and waits for its second line
    sms: seq<(string, string)>)  // what the SMS handler got

  const START := Talk(INITIAL, Idle, 0, [], [], [], None, [])

  datatype Happening =
    | Write            // lock, write the command
    | Install          // set the slot up and wait, which unlocks
    | Sends            // the modem sends the next line of the block
    | SendsUrc(line: string)
    | SendsSms(header: string, body: string)
    | Reads            // the reader takes a line off the wire and deals with it
    | Wakes

  /** The reader hands both lines of an SMS over without the lock; any other line waits for it. */
  predicate MayRead(t: Talk) {
    t.wire != [] && (t.phase != Writing || t.held.Some? || IsSmsHeader(t.wire[0].line))
  }

  function OnRead(t: Talk): Talk
    requires t.wire != []
  {
    var line := t.wire[0].line;
    var t := t.(wire := t.wire[1..], got := if t.wire[0].Reply? then t.got + [line] else t.got);
    if t.held.Some? then t.(held := None, sms := t.sms + [(t.held.value, line)])
    else if IsSmsHeader(line) then t.(held := Some(line))
    else t.(state := Step(t.state, Line(line)))
  }

  function OnWake(t: Talk): Talk {
    var state := Step(t.state, Wake);
    if t.state.waiting.Some? && state.waiting == None then t.(state := state, phase := Idle, next := t.next + 1)
    else t
  }

  function Happen(script: seq<Exchange>, t: Talk, h: Happening): Talk {
    match h
    case Write =>
      if t.phase == Idle && t.next < |script| then t.(phase := Writing, todo := script[t.next].block, got := []) else t
    case Install =>
      if t.phase == Writing && t.next < |script| then
        t.(phase := Waiting, state := Step(t.state, Issue(script[t.next].command, true, true)))
      else t
    case Sends =>
      if t.todo != [] then t.(wire := t.wire + [Reply(t.todo[0])], todo := t.todo[1..]) else t
    case SendsUrc(line) => t.(wire := t.wire + [Urc(line)])
    case SendsSms(header, body) =>
      if IsSmsHeader(header) then t.(wire := t.wire + [Header(header), Body(body)]) else t
    case Reads =>
      if MayRead(t) then OnRead(t) else t
    case Wakes =>
      if t.phase == Waiting then OnWake(t) else t
  }

  function Play(script: seq<Exchange>, hs: seq<Happening>): Talk {
    if hs == [] then START else Happen(script, Play(script, hs[..|hs| - 1]), hs[|hs| - 1])
  }

  /** An unsolicited line is harmless while it is read if it is neither final nor an SMS header
  and the pending command, if any, has no use for it. */
  predicate Harmless(s: State, line: string) {
    && !IsFinal(line) && !IsSmsHeader(line)
    && (s.waiting.Some? ==>
          var c := s.waiting.value;
          !Matches(c.kind, c.prefix, line) && !(c.pdu.Some? && line == PROMPT))
  }

  predicate PoliteStep(t: Talk, h: Happening) {
    h == Reads && MayRead(t) && t.wire[0].Urc? ==> Harmless(t.state, t.wire[0].line)
  }

  /** Every unsolicited line is harmless when it is read. */
  predicate Polite(script: seq<Exchange>, hs: seq<Happening>) {
    hs != [] ==>
      Polite(script, hs[..|hs| - 1]) && PoliteStep(Play(script, hs[..|hs| - 1]), hs[|hs| - 1])
  }

  // ---------------------------------------------------------------- the invariant

  function Replies(wire: seq<Wired>): seq<string> {
    if wire == [] then []
    else (if wire[0].Reply? then [wire[0].line] else []) + Replies(wire[1..])
  }

  lemma {:induction false} RepliesAppend(a: seq<Wired>, b: seq<Wired>)
    ensures Replies(a + b) == Replies(a) + Replies(b)
  {
    if a == [] {
      assert a + b == b;
    } else {
      assert (a + b)[1..] == a[1..] + b;
      RepliesAppend(a[1..], b);
    }
  }

  /** Both lines of an SMS are next to each other; no reply looks like the first one. */
  predicate Adjacent(held: bool, wire: seq<Wired>)
    decreases |wire|
  {
    if wire == [] then !held
    else
      match wire[0]
      case Body(_) => held && Adjacent(false, wire[1..])
      case Header(line) => !held && IsSmsHeader(line) && Adjacent(true, wire[1..])
      case Reply(line) => !held && !IsSmsHeader(line) && Adjacent(false, wire[1..])
      case Urc(_) => !held && Adjacent(false, wire[1..])
  }

  lemma {:induction false} AdjacentAppend(held: bool, a: seq<Wired>, b: seq<Wired>)
    requires Adjacent(held, a) && Adjacent(false, b)
    ensures Adjacent(held, a + b)
    decreases |a|
  {
    if a == [] {
      assert a + b == b;
    } else {
      assert (a + b)[1..] == a[1..] + b;
      AdjacentAppend(a[0].Header?, a[1..], b);
    }
  }

  /** The right answer to an exchange, from its block alone. */
  ghost predicate Right(x: Exchange, r: Return) {
    var answer := Answer(x.command, x.block);
    && r.command == x.command
    && if NeedsIntermediate(x.command) && answer.success && answer.intermediates == [] then
         r.error == InvalidResponse && r.out == None
       else
         r.error == Ok && r.out == if x.command.want then Some(answer) else None
  }

  /** The calls so far are right. */
  ghost predicate Answered(script: seq<Exchange>, t: Talk) {
    && t.next == |t.state.calls| <= |script|
    && !t.state.closed
    && forall i | 0 <= i < t.next :: Right(script[i], t.state.calls[i])
  }

  /** The reader will always find an SMS in one piece. */
  ghost predicate Orderly(t: Talk) {
    && Adjacent(t.held.Some?, t.wire)
    && forall i | 0 <= i < |t.todo| :: !IsSmsHeader(t.todo[i])
  }

  /** The block at hand is what has been read, what is on the wire, and what is still to be sent. */
  predicate Accounted(block: seq<string>, got: seq<string>, wire: seq<Wired>, todo: seq<string>) {
    got + (Replies(wire) + todo) == block
  }

  /** What the issuing thread is doing. */
  ghost predicate AtPhase(script: seq<Exchange>, t: Talk) {
    match t.phase
    case Idle => t.state.waiting == None && Cleared(t.state.slot) && Replies(t.wire) == [] && t.todo == []
    case Writing =>
      && t.next < |script| && t.state.waiting == None && Cleared(t.state.slot)
      && t.got == [] && Accounted(script[t.next].block, [], t.wire, t.todo)
    case Waiting =>
      && t.next < |script| && t.state.waiting == Some(script[t.next].command)
      && Accounted(script[t.next].block, t.got, t.wire, t.todo)
      && Serves(t.state.slot, script[t.next].command, t.got)
  }

  ghost predicate Serves(slot: Slot, c: Command, got: seq<string>) {
    Folded(slot, c.kind, c.prefix, c.pdu, got)
  }

  ghost predicate Inv(script: seq<Exchange>, t: Talk) {
    Answered(script, t) && Orderly(t) && AtPhase(script, t)
  }

  ghost predicate ProperScript(script: seq<Exchange>) {
    forall i | 0 <= i < |script| :: Proper(script[i])
  }

  lemma WriteKeepsInv(script: seq<Exchange>, t: Talk)
    requires ProperScript(script) && Inv(script, t) && t.phase == Idle && t.next < |script|
    ensures Inv(script, Happen(script, t, Write))
  {
    assert Proper(script[t.next]);
    assert [] + ([] + script[t.next].block) == script[t.next].block;
  }

  lemma FreshServes(c: Command)
    ensures Serves(Fresh(c.kind, c.prefix, c.pdu), c, [])
  {
    RoutingIsFold(c.kind, c.prefix, c.pdu, []);
  }

  lemma InstallKeepsInv(script: seq<Exchange>, t: Talk)
    requires Inv(script, t) && t.phase == Writing
    ensures Inv(script, Happen(script, t, Install))
  {
    FreshServes(script[t.next].command);
  }

  /** More lines on the wire, none of them a reply. */
  lemma NoiseKeepsInv(script: seq<Exchange>, t: Talk, noise: seq<Wired>)
    requires Inv(script, t) && Adjacent(false, noise) && Replies(noise) == []
    ensures Inv(script, t.(wire := t.wire + noise))
  {
    AdjacentAppend(t.held.Some?, t.wire, noise);
    RepliesAppend(t.wire, noise);
    assert Replies(t.wire) + [] == Replies(t.wire);
  }

  lemma AccountedSends(block: seq<string>, got: seq<string>, wire: seq<Wired>, todo: seq<string>)
    requires Accounted(block, got, wire, todo) && todo != []
    ensures Accounted(block, got, wire + [Reply(todo[0])], todo[1..])
  {
    var reply := [Reply(todo[0])];
    RepliesAppend(wire, reply);
    assert reply[1..] == [] && Replies(reply) == [todo[0]];
    assert Replies(wire) + [todo[0]] + todo[1..] == Replies(wire) + todo;
  }

  lemma SendsKeepsInv(script: seq<Exchange>, t: Talk)
    requires Inv(script, t) && t.todo != []
    ensures Inv(script, Happen(script, t, Sends))
  {
    var reply := [Reply(t.todo[0])];
    assert reply[1..] == [];
    AdjacentAppend(t.held.Some?, t.wire, reply);
    AccountedSends(script[t.next].block, t.got, t.wire, t.todo);
  }

  lemma SmsFirst(wire: seq<Wired>, held: bool)
    requires Adjacent(held, wire) && wire != [] && (wire[0].Header? || wire[0].Body?)
    ensures Replies(wire) == Replies(wire[1..]) && held == wire[0].Body?
    ensures Adjacent(wire[0].Header?, wire[1..]) && (wire[0].Header? ==> IsSmsHeader(wire[0].line))
  {
  }

  /** The two lines of an SMS never touch the protocol. */
  lemma ReadSmsKeepsInv(script: seq<Exchange>, t: Talk)
    requires Inv(script, t) && t.wire != [] && (t.wire[0].Header? || t.wire[0].Body?)
    ensures Inv(script, OnRead(t)) && OnRead(t).state == t.state
  {
    SmsFirst(t.wire, t.held.Some?);
    var t' := OnRead(t);
    assert t' == t.(wire := t.wire[1..], held := t'.held, sms := t'.sms);
    assert t'.held.Some? == t.wire[0].Header?;
  }

  lemma OnlySmsWhileWriting(t: Talk)
    requires Orderly(t) && MayRead(t) && PoliteStep(t, Reads) && t.phase == Writing
    ensures t.wire[0].Header? || t.wire[0].Body?
  {
  }

  /** A harmless unsolicited line does not touch the slot. */
  lemma HarmlessRoutes(s: State, got: seq<string>, line: string)
    requires Harmless(s, line) && (s.waiting == None ==> Cleared(s.slot))
    requires s.waiting.Some? ==> Serves(s.slot, s.waiting.value, got)
    ensures Step(s, Line(line)).slot == s.slot
  {
  }

  lemma ReadUrcKeepsInv(script: seq<Exchange>, t: Talk)
    requires Inv(script, t) && t.phase != Writing
    requires t.wire != [] && t.wire[0].Urc? && Harmless(t.state, t.wire[0].line)
    ensures Inv(script, OnRead(t))
  {
    HarmlessRoutes(t.state, t.got, t.wire[0].line);
    LineOnly(t.state, t.wire[0].line);
    UrcFirst(t.wire);
  }

  lemma UrcFirst(wire: seq<Wired>)
    requires wire != [] && wire[0].Urc?
    ensures Replies(wire) == Replies(wire[1..])
    ensures forall held | Adjacent(held, wire) :: !held && Adjacent(held, wire[1..])
  {
  }

  lemma AccountedReads(block: seq<string>, got: seq<string>, wire: seq<Wired>, todo: seq<string>)
    requires Accounted(block, got, wire, todo) && wire != [] && wire[0].Reply?
    ensures Accounted(block, got + [wire[0].line], wire[1..], todo)
  {
    var line, rest := wire[0].line, Replies(wire[1..]);
    assert [line] + rest + todo == [line] + (rest + todo);
    assert got + ([line] + (rest + todo)) == got + [line] + (rest + todo);
  }

  lemma ReadReplyKeepsInv(script: seq<Exchange>, t: Talk)
    requires Inv(script, t) && t.wire != [] && t.wire[0].Reply? && t.phase != Writing
    ensures Inv(script, OnRead(t))
  {
    var line := t.wire[0].line;
    assert t.phase == Waiting by {
      assert Replies(t.wire)[0] == line;
    }
    var c := script[t.next].command;
    StepFolds(t.state.slot, c.kind, c.prefix, c.pdu, t.got, line);
    AccountedReads(script[t.next].block, t.got, t.wire, t.todo);
    LineOnly(t.state, line);
  }

  lemma LineOnly(s: State, line: string)
    ensures var s' := Step(s, Line(line));
      && s'.slot == Route(s.slot, line).0
      && s'.closed == s.closed && s'.waiting == s.waiting && s'.calls == s.calls
  {
  }

  /** A final line in a part of a proper block means that the part is the whole block. */
  lemma FinalEndsBlock(x: Exchange, done: seq<string>, rest: seq<string>)
    requires Proper(x) && done + rest == x.block && LastFinal(done).Some?
    ensures rest == [] && done == x.block
  {
    LastFinalIs(done);
    var i :| 0 <= i < |done| && done[i] == LastFinal(done).value;
    assert x.block[i] == done[i];
  }

  /** What a wake-up makes of a slot that has served a whole block. */
  lemma DoneIsRight(s: State, x: Exchange)
    requires s.waiting == Some(x.command) && !s.closed && Serves(s.slot, x.command, x.block)
    ensures s.slot.response.Some?
    ensures var s' := OnDone(s, x.command);
      && |s'.calls| == |s.calls| + 1 && s'.calls[..|s.calls|] == s.calls
      && Right(x, s'.calls[|s.calls|])
      && s'.waiting == None && !s'.closed && Cleared(s'.slot)
  {
    var r := s.slot.response.value;
    assert r.(intermediates := Reversed(r.intermediates)) == Answer(x.command, x.block);
  }

  lemma WakeKeepsInv(script: seq<Exchange>, t: Talk)
    requires ProperScript(script) && Inv(script, t) && t.phase == Waiting
    ensures Inv(script, OnWake(t))
  {
    var x := script[t.next];
    if t.state.slot.response.value.final.Some? {
      assert Proper(x);
      FinalEndsBlock(x, t.got, Replies(t.wire) + t.todo);
      DoneIsRight(t.state, x);
      var t' := t.(state := OnDone(t.state, x.command), phase := Idle, next := t.next + 1);
      assert OnWake(t) == t';
      OneMoreAnswered(script, t, t');
      assert Replies(t.wire) + t.todo == [];
    }
  }

  lemma OneMoreAnswered(script: seq<Exchange>, t: Talk, t': Talk)
    requires Answered(script, t) && t.next < |script|
    requires t'.next == t.next + 1 == |t'.state.calls| && !t'.state.closed
    requires t'.state.calls[..t.next] == t.state.calls && Right(script[t.next], t'.state.calls[t.next])
    ensures Answered(script, t')
  {
    forall i | 0 <= i < t'.next
      ensures Right(script[i], t'.state.calls[i])
    {
      if i < t.next {
        assert t'.state.calls[i] == t'.state.calls[..t.next][i] == t.state.calls[i];
      }
    }
  }

  lemma UrcIsNoise(line: string)
    ensures Adjacent(false, [Urc(line)]) && Replies([Urc(line)]) == []
  {
    assert [Urc(line)][1..] == [];
  }

  lemma SmsIsNoise(header: string, body: string)
    requires IsSmsHeader(header)
    ensures Adjacent(false, [Header(header), Body(body)]) && Replies([Header(header), Body(body)]) == []
  {
    var both, last := [Header(header), Body(body)], [Body(body)];
    assert both[1..] == last && last[1..] == [];
    assert Replies(last) == [] + [];
    assert Adjacent(true, last);
  }

  lemma ReadKeepsInv(script: seq<Exchange>, t: Talk)
    requires Inv(script, t) && MayRead(t) && PoliteStep(t, Reads)
    ensures Inv(script, OnRead(t))
  {
    if t.phase == Writing {
      OnlySmsWhileWriting(t);
    }
    match t.wire[0]
    case Reply(_) => ReadReplyKeepsInv(script, t);
    case Urc(_) => ReadUrcKeepsInv(script, t);
    case Header(_) => ReadSmsKeepsInv(script, t);
    case Body(_) => ReadSmsKeepsInv(script, t);
  }

  lemma HappenKeepsInv(script: seq<Exchange>, t: Talk, h: Happening)
    requires ProperScript(script) && Inv(script, t) && PoliteStep(t, h)
    ensures Inv(script, Happen(script, t, h))
  {
    match h
    case Write => if t.phase == Idle && t.next < |script| { WriteKeepsInv(script, t); }
    case Install => if t.phase == Writing { InstallKeepsInv(script, t); }
    case Sends => if t.todo != [] { SendsKeepsInv(script, t); }
    case SendsUrc(line) =>
      UrcIsNoise(line);
      NoiseKeepsInv(script, t, [Urc(line)]);
    case SendsSms(header, body) =>
      if IsSmsHeader(header) {
        SmsIsNoise(header, body);
        NoiseKeepsInv(script, t, [Header(header), Body(body)]);
      }
    case Reads =>
      if MayRead(t) {
        ReadKeepsInv(script, t);
      }
    case Wakes => if t.phase == Waiting { WakeKeepsInv(script, t); }
  }

  lemma {:induction false} PlayKeepsInv(script: seq<Exchange>, hs: seq<Happening>)
    requires ProperScript(script) && Polite(script, hs)
    ensures Inv(script, Play(script, hs))
  {
    if hs != [] {
      PlayKeepsInv(script, hs[..|hs| - 1]);
      HappenKeepsInv(script, Play(script, hs[..|hs| - 1]), hs[|hs| - 1]);
    } else {
      assert Inv(script, START);
    }
  }

  /** In every interleaving of the issuer, the reader and the modem, the calls that have
  returned are, one by one, answered from their own blocks. */
  lemma NoCrossTalk(script: seq<Exchange>, hs: seq<Happening>)
    requires ProperScript(script) && Polite(script, hs)
    ensures var calls := Play(script, hs).state.calls;
      && |calls| == Play(script, hs).next <= |script|
      && forall k | 0 <= k < |calls| :: Right(script[k], calls[k])
  {
    PlayKeepsInv(script, hs);
  }

  /** The reader takes the next line off the wire at any time but while a command is being written; and even then if it is a
  line of an SMS. */
  lemma ReadsIff(script: seq<Exchange>, hs: seq<Happening>)
    requires ProperScript(script) && Polite(script, hs)
    ensures var t, t' := Play(script, hs), Play(script, hs + [Reads]);
      && (t.wire != [] && (t.phase != Writing || t.wire[0].Header? || t.wire[0].Body?) ==> t'.wire == t.wire[1..])
      && (t.phase == Writing && t.wire != [] && !IsSmsHeader(t.wire[0].line) && !t.wire[0].Body? ==> t' == t)
  {
    assert (hs + [Reads])[..|hs|] == hs;
    PlayKeepsInv(script, hs);
    var t := Play(script, hs);
    if MayRead(t) {
      assert OnRead(t).wire == t.wire[1..];
    }
  }
}
