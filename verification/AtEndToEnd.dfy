/** From the bytes on the fd to the answers: the reader thread's loop, over any split of the bytes, does
with the lines what the reader of AtCrossTalk does with them. */
module AtEndToEnd {
  import opened Sequences
  import opened CText
  import opened AtLines
  import opened AtProtocol
  import opened AtCrossTalk
  import opened ATBuffers
  import opened ATBufferRuns
  import Reader = ReaderLoops

  // ---------------------------------------------------------------- what was sent, read and delivered

  function Texts(wire: seq<Wired>): (lines: seq<string>)
    ensures |lines| == |wire| && forall i | 0 <= i < |lines| :: lines[i] == wire[i].line
  {
    seq(|wire|, i requires 0 <= i < |wire| => wire[i].line)
  }

  /** What a happening puts on the wire. */
  function Puts(t: Talk, h: Happening): seq<string> {
    match h
    case Sends => if t.todo != [] then [t.todo[0]] else []
    case SendsUrc(line) => [line]
    case SendsSms(header, body) => if IsSmsHeader(header) then [header, body] else []
    case _ => []
  }

  /** Every line that the modem has sent. */
  function Sent(script: seq<Exchange>, hs: seq<Happening>): seq<string> {
    if hs == [] then []
    else Sent(script, hs[..|hs| - 1]) + Puts(Play(script, hs[..|hs| - 1]), hs[|hs| - 1])
  }

  predicate IsRead(t: Talk, h: Happening) {
    h == Reads && MayRead(t)
  }

  /** What the reader does with the line that it takes off the wire. */
  function Handed(t: Talk, line: string): seq<Reader.Delivery> {
    if t.held.Some? then [Reader.ToSmsHandler(t.held.value, line)]
    else if IsSmsHeader(line) then []
    else [Reader.ToRouter(line)]
  }

  /** Everything that the reader has done with lines. */
  function Delivered(script: seq<Exchange>, hs: seq<Happening>): seq<Reader.Delivery> {
    if hs == [] then []
    else
      var t := Play(script, hs[..|hs| - 1]);
      Delivered(script, hs[..|hs| - 1]) + if IsRead(t, hs[|hs| - 1]) then Handed(t, t.wire[0].line) else []
  }

  /** The SMSs among some deliveries. */
  function SmsAmong(done: seq<Reader.Delivery>): seq<(string, string)> {
    if done == [] then []
    else
      var d := done[|done| - 1];
      SmsAmong(done[..|done| - 1]) + if d.ToSmsHandler? then [(d.header, d.pdu)] else []
  }

  lemma SmsOneMore(done: seq<Reader.Delivery>, handed: seq<Reader.Delivery>)
    requires |handed| <= 1
    ensures SmsAmong(done + handed) ==
            SmsAmong(done) + if handed != [] && handed[0].ToSmsHandler? then [(handed[0].header, handed[0].pdu)] else []
  {
    if handed == [] {
      assert done + handed == done;
    } else {
      assert (done + handed)[..|done|] == done;
    }
  }

  lemma SmsStep(script: seq<Exchange>, t: Talk, h: Happening)
    ensures Happen(script, t, h).sms ==
            t.sms + if IsRead(t, h) && t.held.Some? then [(t.held.value, t.wire[0].line)] else []
  {
  }

  /** What the SMS handler has got are the SMSs delivered. */
  lemma {:induction false} SmsAreDelivered(script: seq<Exchange>, hs: seq<Happening>)
    ensures Play(script, hs).sms == SmsAmong(Delivered(script, hs))
  {
    if hs != [] {
      var init, h := hs[..|hs| - 1], hs[|hs| - 1];
      var t := Play(script, init);
      SmsAreDelivered(script, init);
      SmsStep(script, t, h);
      SmsOneMore(Delivered(script, init), if IsRead(t, h) then Handed(t, t.wire[0].line) else []);
    }
  }

  // ---------------------------------------------------------------- pairing

  /** No SMS header is waiting for its second line. */
  predicate Whole(lines: seq<string>)
    decreases |lines|
  {
    if lines == [] then true
    else if !IsSmsHeader(lines[0]) then Whole(lines[1..])
    else |lines| > 1 && Whole(lines[2..])
  }

  lemma {:induction false} PairedAppend(a: seq<string>, b: seq<string>)
    requires Whole(a)
    ensures Reader.Paired(a + b) == Reader.Paired(a) + Reader.Paired(b) && Whole(a + b) == Whole(b)
    decreases |a|
  {
    if a == [] {
      assert a + b == b;
    } else if !IsSmsHeader(a[0]) {
      assert (a + b)[1..] == a[1..] + b;
      PairedAppend(a[1..], b);
      Assoc([Reader.ToRouter(a[0])], Reader.Paired(a[1..]), Reader.Paired(b));
    } else {
      assert (a + b)[2..] == a[2..] + b;
      PairedAppend(a[2..], b);
      Assoc([Reader.ToSmsHandler(a[0], a[1])], Reader.Paired(a[2..]), Reader.Paired(b));
    }
  }

  lemma PairedOne(line: string, second: string)
    ensures !IsSmsHeader(line) ==> Reader.Paired([line]) == [Reader.ToRouter(line)] && Whole([line])
    ensures IsSmsHeader(line) ==> Reader.Paired([line]) == []
    ensures IsSmsHeader(line) ==> Reader.Paired([line, second]) == [Reader.ToSmsHandler(line, second)] && Whole([line, second])
  {
    assert [line][1..] == [] && [line, second][2..] == [];
  }

  // ---------------------------------------------------------------- the play and its lines

  /** The lines sent are those read and those on the wire, and what was delivered is those read, paired;
  a held header is the last line read. */
  ghost predicate Followed(t: Talk, sent: seq<string>, done: seq<Reader.Delivery>, paired: seq<string>) {
    && Whole(paired) && done == Reader.Paired(paired)
    && (t.held.Some? ==> IsSmsHeader(t.held.value))
    && sent == (if t.held.Some? then paired + [t.held.value] else paired) + Texts(t.wire)
  }

  lemma PutsFollow(script: seq<Exchange>, t: Talk, h: Happening,
                   sent: seq<string>, done: seq<Reader.Delivery>, paired: seq<string>)
    requires Followed(t, sent, done, paired) && !IsRead(t, h)
    ensures Followed(Happen(script, t, h), sent + Puts(t, h), done, paired)
  {
    var t' := Happen(script, t, h);
    assert t'.held == t.held;
    assert Texts(t'.wire) == Texts(t.wire) + Puts(t, h);
    Assoc(if t.held.Some? then paired + [t.held.value] else paired, Texts(t.wire), Puts(t, h));
  }

  lemma TextsFirst(wire: seq<Wired>)
    requires wire != []
    ensures Texts(wire) == [wire[0].line] + Texts(wire[1..])
  {
  }

  /** More whole lines are paired. */
  lemma PairedMore(paired: seq<string>, lines: seq<string>, d: Reader.Delivery)
    requires Whole(paired) && Whole(lines) && Reader.Paired(lines) == [d]
    ensures Whole(paired + lines) && Reader.Paired(paired + lines) == Reader.Paired(paired) + [d]
  {
    PairedAppend(paired, lines);
  }

  lemma ReadFollows(t: Talk, sent: seq<string>, done: seq<Reader.Delivery>, paired: seq<string>)
    returns (more: seq<string>)
    requires Followed(t, sent, done, paired) && t.wire != []
    ensures Followed(OnRead(t), sent, done + Handed(t, t.wire[0].line), more)
  {
    var line, rest, t' := t.wire[0].line, Texts(t.wire[1..]), OnRead(t);
    assert t'.wire == t.wire[1..];
    TextsFirst(t.wire);
    PairedOne(if t.held.Some? then t.held.value else line, line);
    if t.held.Some? {
      var header := t.held.value;
      more := paired + [header, line];
      PairedMore(paired, [header, line], Reader.ToSmsHandler(header, line));
      Assoc(paired + [header], [line], rest);
      assert paired + [header] + [line] == more && t'.held == None;
    } else if IsSmsHeader(line) {
      more := paired;
      Assoc(paired, [line], rest);
      assert done + [] == done && t'.held == Some(line);
    } else {
      more := paired + [line];
      PairedMore(paired, [line], Reader.ToRouter(line));
      Assoc(paired, [line], rest);
      assert t'.held == None;
    }
  }

  lemma {:induction false} PlayIsFollowed(script: seq<Exchange>, hs: seq<Happening>) returns (paired: seq<string>)
    ensures Followed(Play(script, hs), Sent(script, hs), Delivered(script, hs), paired)
  {
    if hs == [] {
      paired := [];
    } else {
      var init, h := hs[..|hs| - 1], hs[|hs| - 1];
      var t, sent, done := Play(script, init), Sent(script, init), Delivered(script, init);
      paired := PlayIsFollowed(script, init);
      if IsRead(t, h) {
        assert sent + Puts(t, h) == sent;
        paired := ReadFollows(t, sent, done, paired);
      } else {
        PutsFollow(script, t, h, sent, done, paired);
        assert done + [] == done;
      }
    }
  }

  // ---------------------------------------------------------------- so far

  /** The lines that the reader has taken off the wire. */
  function ReadSoFar(script: seq<Exchange>, hs: seq<Happening>): seq<string> {
    var sent, wire := Sent(script, hs), Play(script, hs).wire;
    if |wire| <= |sent| then sent[..|sent| - |wire|] else []
  }

  /** At every moment, what has been delivered is the lines read, each SMS in one piece. */
  lemma DeliveredSoFar(script: seq<Exchange>, hs: seq<Happening>)
    ensures Delivered(script, hs) == Reader.Paired(ReadSoFar(script, hs))
    ensures Sent(script, hs) == ReadSoFar(script, hs) + Texts(Play(script, hs).wire)
  {
    var t, sent := Play(script, hs), Sent(script, hs);
    var paired := PlayIsFollowed(script, hs);
    var read := if t.held.Some? then paired + [t.held.value] else paired;
    assert sent == read + Texts(t.wire);
    assert sent[..|sent| - |t.wire|] == read;
    if t.held.Some? {
      PairedOne(t.held.value, "");
      PairedAppend(paired, [t.held.value]);
    }
  }

  lemma {:induction false} PairedGrows(a: seq<string>, b: seq<string>)
    ensures Reader.Paired(a) <= Reader.Paired(a + b)
    decreases |a|
  {
    if a != [] {
      if !IsSmsHeader(a[0]) {
        assert (a + b)[1..] == a[1..] + b;
        PairedGrows(a[1..], b);
      } else if |a| > 1 {
        assert (a + b)[2..] == a[2..] + b;
        PairedGrows(a[2..], b);
      }
    }
  }

  /** What has been sent stays sent. */
  lemma {:induction false} SentGrows(script: seq<Exchange>, hs: seq<Happening>, n: nat)
    requires n <= |hs|
    ensures Sent(script, hs[..n]) <= Sent(script, hs)
    decreases |hs|
  {
    if n == |hs| {
      assert hs[..n] == hs;
    } else {
      var init := hs[..|hs| - 1];
      assert init[..n] == hs[..n];
      SentGrows(script, init, n);
    }
  }

  /** What has been delivered at some moment is the beginning of what the lines sent in the end call for. */
  lemma DeliveredInTheEnd(script: seq<Exchange>, hs: seq<Happening>, n: nat)
    requires n <= |hs|
    ensures Delivered(script, hs[..n]) <= Reader.Paired(Sent(script, hs))
  {
    var done := hs[..n];
    DeliveredSoFar(script, done);
    SentGrows(script, hs, n);
    PairedPrefix(ReadSoFar(script, done), Texts(Play(script, done).wire), Sent(script, hs));
  }

  lemma PairedPrefix(read: seq<string>, wire: seq<string>, all: seq<string>)
    requires read + wire <= all
    ensures Reader.Paired(read) <= Reader.Paired(all)
  {
    assert all == read + all[|read|..];
    PairedGrows(read, all[|read|..]);
  }

  // ---------------------------------------------------------------- what the deliveries do

  /** What a happening is for the protocol. */
  function Means(script: seq<Exchange>, t: Talk, h: Happening): seq<Event> {
    match h
    case Install => if t.phase == Writing && t.next < |script| then [Issue(script[t.next].command, true, true)] else []
    case Reads => if MayRead(t) && t.held == None && !IsSmsHeader(t.wire[0].line) then [Line(t.wire[0].line)] else []
    case Wakes => if t.phase == Waiting then [Wake] else []
    case _ => []
  }

  function Meant(script: seq<Exchange>, hs: seq<Happening>): seq<Event> {
    if hs == [] then []
    else Meant(script, hs[..|hs| - 1]) + Means(script, Play(script, hs[..|hs| - 1]), hs[|hs| - 1])
  }

  /** The lines among the events of the protocol. */
  function EventLines(events: seq<Event>): seq<string> {
    if events == [] then []
    else EventLines(events[..|events| - 1]) + if events[|events| - 1].Line? then [events[|events| - 1].line] else []
  }

  /** The lines that were delivered to processLine(). */
  function RouterLines(done: seq<Reader.Delivery>): seq<string> {
    if done == [] then []
    else RouterLines(done[..|done| - 1]) + if done[|done| - 1].ToRouter? then [done[|done| - 1].line] else []
  }

  lemma AtMostOne(events: seq<Event>, more: seq<Event>, done: seq<Reader.Delivery>, handed: seq<Reader.Delivery>)
    requires |more| <= 1 && |handed| <= 1
    ensures Run(events + more) == if more == [] then Run(events) else Step(Run(events), more[0])
    ensures EventLines(events + more) == EventLines(events) + EventLines(more)
    ensures RouterLines(done + handed) == RouterLines(done) + RouterLines(handed)
  {
    if more == [] {
      assert events + more == events;
    } else {
      assert (events + more)[..|events|] == events && more[..0] == [] && (events + more)[|events|] == more[0];
    }
    if handed == [] {
      assert done + handed == done;
    } else {
      assert (done + handed)[..|done|] == done && handed[..0] == [] && (done + handed)[|done|] == handed[0];
    }
  }

  /** The deliveries drive the protocol: its state is that of a run of AtProtocol whose lines are those
  delivered to processLine() so far. */
  lemma {:induction false} DeliveriesDrive(script: seq<Exchange>, hs: seq<Happening>)
    ensures Play(script, hs).state == Run(Meant(script, hs))
    ensures EventLines(Meant(script, hs)) == RouterLines(Delivered(script, hs))
  {
    if hs != [] {
      var init, h := hs[..|hs| - 1], hs[|hs| - 1];
      var t := Play(script, init);
      var handed := if IsRead(t, h) then Handed(t, t.wire[0].line) else [];
      DeliveriesDrive(script, init);
      AtMostOne(Meant(script, init), Means(script, t, h), Delivered(script, init), handed);
      MeansStep(script, t, h);
      MeansLines(script, t, h);
    }
  }

  lemma MeansStep(script: seq<Exchange>, t: Talk, h: Happening)
    ensures var means := Means(script, t, h);
      Happen(script, t, h).state == if means == [] then t.state else Step(t.state, means[0])
  {
    if h == Wakes {
      WakeReturns(t.state);
    }
  }

  /** A wake-up either brings the call back or changes nothing. */
  lemma WakeReturns(s: State)
    ensures Step(s, Wake) == s || (s.waiting.Some? && Step(s, Wake).waiting == None)
  {
  }

  lemma OneLine(line: string)
    ensures EventLines([Line(line)]) == [line] && RouterLines([Reader.ToRouter(line)]) == [line]
  {
    assert [Line(line)][..0] == [] && [Reader.ToRouter(line)][..0] == [];
  }

  lemma NoLine(e: Event, header: string, pdu: string)
    requires !e.Line?
    ensures EventLines([e]) == [] && RouterLines([Reader.ToSmsHandler(header, pdu)]) == []
  {
    assert [e][..0] == [] && [Reader.ToSmsHandler(header, pdu)][..0] == [];
  }

  /** The lines of the protocol's events are those handed to processLine(). */
  lemma MeansLines(script: seq<Exchange>, t: Talk, h: Happening)
    ensures EventLines(Means(script, t, h)) == RouterLines(if IsRead(t, h) then Handed(t, t.wire[0].line) else [])
  {
    match h
    case Install =>
      if t.phase == Writing && t.next < |script| {
        NoLine(Issue(script[t.next].command, true, true), "", "");
      }
    case Wakes => NoLine(Wake, "", "");
    case Reads =>
      if MayRead(t) {
        OneLine(t.wire[0].line);
        if t.held.Some? {
          NoLine(Wake, t.held.value, t.wire[0].line);
        }
      }
    case _ =>
  }

  lemma {:induction false} PoliteSoFar(script: seq<Exchange>, hs: seq<Happening>, n: nat)
    requires n <= |hs| && Polite(script, hs)
    ensures Polite(script, hs[..n])
    decreases |hs|
  {
    if n == |hs| {
      assert hs[..n] == hs;
    } else {
      assert hs[..|hs| - 1][..n] == hs[..n];
      PoliteSoFar(script, hs[..|hs| - 1], n);
    }
  }

  /** After some happenings: what the reader has delivered is the beginning of what it will have delivered,
  it has driven the protocol to where it is, and every call that has returned was answered from its own block. */
  ghost predicate RightSoFar(script: seq<Exchange>, hs: seq<Happening>, delivered: seq<Reader.Delivery>) {
    var calls := Play(script, hs).state.calls;
    && Delivered(script, hs) == Reader.Paired(ReadSoFar(script, hs)) <= delivered
    && Play(script, hs).state == Run(Meant(script, hs))
    && EventLines(Meant(script, hs)) == RouterLines(Delivered(script, hs))
    && |calls| <= |script| && forall k | 0 <= k < |calls| :: Right(script[k], calls[k])
  }

  /** From end to end: if the bytes on the fd, cut up in any way, are heard as the lines that the modem sends,
  then at every moment readerLoop() has delivered what it will have delivered by then, these lines have
  driven the protocol, and every call that has returned was answered from its own block. */
  method EndToEnd(b: ATBuffer, ghost script: seq<Exchange>, ghost hs: seq<Happening>)
    returns (delivered: seq<Reader.Delivery>, overran: bool)
    requires b.Valid() && Reader.Heard(View(b), b.chunks) == Reader.Hearing(Sent(script, hs), false)
    requires ProperScript(script) && Polite(script, hs)
    modifies b`cur, b`chunks, b`unread, b.buf
    ensures !overran && delivered == Reader.Paired(Sent(script, hs))
    ensures forall n | 0 <= n <= |hs| :: RightSoFar(script, hs[..n], delivered)
    ensures Play(script, hs).wire == [] ==> delivered == Delivered(script, hs)
  {
    delivered, overran := Reader.ReaderLoop(b);
    forall n | 0 <= n <= |hs|
      ensures RightSoFar(script, hs[..n], delivered)
    {
      DeliveredSoFar(script, hs[..n]);
      DeliveredInTheEnd(script, hs, n);
      DeliveriesDrive(script, hs[..n]);
      PoliteSoFar(script, hs, n);
      NoCrossTalk(script, hs[..n]);
    }
    DeliveredSoFar(script, hs);
    assert Play(script, hs).wire == [] ==> ReadSoFar(script, hs) + [] == ReadSoFar(script, hs);
  }
}
