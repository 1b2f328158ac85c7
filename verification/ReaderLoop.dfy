/** readerLoop() of huawei_tgm/atchannel.c over the line buffer: the two lines of an unsolicited SMS
go to the handler together, every other line to processLine(). */
module ReaderLoops {
  import opened CText
  import opened LineBuffer
  import opened LineMemory
  import opened LineBufferRuns
  import opened LineBufferPrompts
  import opened AtLines
  import opened ATBuffers
  import opened ATBufferRuns
  import Chunking = LineBufferChunking
  import Stale = LineBufferStale

  datatype Delivery = ToRouter(line: string) | ToSmsHandler(header: string, pdu: string)

  /** What is done with the lines of a stream; a header without a second line is dropped. */
  function Paired(lines: seq<string>): seq<Delivery> {
    if lines == [] then []
    else if !IsSmsHeader(lines[0]) then [ToRouter(lines[0])] + Paired(lines[1..])
    else if |lines| == 1 then []
    else [ToSmsHandler(lines[0], lines[1])] + Paired(lines[2..])
  }

  /** The lines of some deliveries. */
  function Flat(deliveries: seq<Delivery>): seq<string> {
    if deliveries == [] then []
    else
      (match deliveries[0]
       case ToRouter(line) => [line]
       case ToSmsHandler(header, pdu) => [header, pdu]) + Flat(deliveries[1..])
  }

  /** The last line is an SMS header without a second line. */
  predicate Dangling(lines: seq<string>)
    decreases |lines|
  {
    lines != [] &&
    if !IsSmsHeader(lines[0]) then Dangling(lines[1..]) else |lines| == 1 || Dangling(lines[2..])
  }

  /** Nothing is lost, doubled or reordered but such a line. */
  lemma {:induction false} PairedIs(lines: seq<string>)
    ensures Flat(Paired(lines)) == if Dangling(lines) then lines[..|lines| - 1] else lines
    decreases |lines|
  {
    if lines != [] {
      if !IsSmsHeader(lines[0]) {
        PairedIs(lines[1..]);
        assert Paired(lines)[1..] == Paired(lines[1..]);
        assert lines == [lines[0]] + lines[1..];
      } else if |lines| > 1 {
        PairedIs(lines[2..]);
        assert Paired(lines)[1..] == Paired(lines[2..]);
        assert lines == [lines[0], lines[1]] + lines[2..];
      }
    }
  }

  /** A header goes to the SMS handler, with the line behind it, and no header goes to the router. */
  lemma {:induction false} PairedGoes(lines: seq<string>)
    ensures forall d | d in Paired(lines) :: if d.ToRouter? then !IsSmsHeader(d.line) else IsSmsHeader(d.header)
    decreases |lines|
  {
    if lines != [] {
      if !IsSmsHeader(lines[0]) {
        PairedGoes(lines[1..]);
      } else if |lines| > 1 {
        PairedGoes(lines[2..]);
      }
    }
  }

  // ---------------------------------------------------------------- what is heard

  /** The strings that readline() returns until it reports end of file, and whether it stops short of that,
  because the cursor has left the array. */
  datatype Hearing = Hearing(lines: seq<string>, over: bool)

  function First(line: string, later: Hearing): Hearing {
    later.(lines := [line] + later.lines)
  }

  function Heard(v: Buffer, chunks: Batches): Hearing
    requires v.Valid()
    decreases |Bytes(chunks)|, |chunks|, MAX_AT_RESPONSE + 1 - v.cur
  {
    ReadLineUses(v, chunks);
    var m := v.Memory(chunks);
    match LineBuffer.ReadLine(v.text, chunks)
    case Line(line, rest, left) => First(line, Heard(Buffer(m.bytes, m.cur, rest), left))
    case Eof(_, _) => Hearing([], false)
    case Prompted(left) => First(PROMPT, if m.cur > MAX_AT_RESPONSE then Hearing([], true) else Heard(Onto(m), left))
  }

  /** What is heard from a buffer, if there still is one. */
  function Later(next: Option<Buffer>, chunks: Batches): Hearing
    requires next.Some? ==> next.value.Valid()
  {
    if next == None then Hearing([], true) else Heard(next.value, chunks)
  }

  lemma PromptIsNoHeader()
    ensures !IsSmsHeader(PROMPT)
  {
    forall i | 0 <= i < |SMS_UNSOLICITEDS|
      ensures !StartsWith(PROMPT, SMS_UNSOLICITEDS[i])
    {
      assert SMS_UNSOLICITEDS[i][0] == '+' && PROMPT[0] == '>';
    }
  }

  lemma HearsHeard(v: Buffer, chunks: Batches, line: Option<string>, next: Option<Buffer>, left: Batches)
    requires v.Valid() && Hears(v, chunks, line, next, left)
    ensures next.Some? ==> next.value.Valid()
    ensures Heard(v, chunks) == if line == None then Hearing([], false) else First(line.value, Later(next, left))
    ensures line == None || IsSmsHeader(line.value) ==> next.Some?
    ensures next.Some? && line.Some? ==> Onward(v, chunks, next.value, left)
  {
    ReadLineUses(v, chunks);
    PromptIsNoHeader();
  }

  // ---------------------------------------------------------------- streams that are heard as they are

  /** The bytes still to be read are such that no line is lost, and no read() fails before the end. */
  ghost predicate Intact(text: string, chunks: Batches) {
    |text| <= MAX_AT_RESPONSE && Chunking.NonEmpty(chunks) && Good(true, 0, text + Bytes(chunks))
  }

  /** The lines still to come. */
  function ToCome(text: string, chunks: Batches): seq<string> {
    Lines("", text + Bytes(chunks))
  }

  lemma NextLine(text: string, chunks: Batches)
    requires Intact(text, chunks)
    ensures match LineBuffer.ReadLine(text, chunks)
      case Line(line, rest, left) =>
        && Intact(rest, left) && ToCome(text, chunks) == [line] + ToCome(rest, left)
        && |rest| + |Bytes(left)| < |text| + |Bytes(chunks)|
      case Eof(_, _) => ToCome(text, chunks) == []
      case Prompted(_) => false
  {
    ReadLineShrinks(text, chunks);
    ReadLineConserves(text, chunks);
    ReadLineExact(true, text, chunks);
    Chunking.ReadLineExtends(text, chunks, [""]);
    match LineBuffer.ReadLine(text, chunks)
    case Eof(rest, left) =>
      assert rest + Bytes(left) == rest && rest + "" == rest;
      ThroughText(true, 0, "", rest, "");
    case _ =>
  }

  /** However read() cuts an intact stream up, its lines are heard. */
  lemma {:induction false} IntactIsHeard(v: Buffer, chunks: Batches)
    requires v.Valid() && Intact(v.text, chunks)
    ensures Heard(v, chunks) == Hearing(ToCome(v.text, chunks), false)
    decreases |v.text| + |Bytes(chunks)|
  {
    ReadLineUses(v, chunks);
    NextLine(v.text, chunks);
    var m := v.Memory(chunks);
    match LineBuffer.ReadLine(v.text, chunks)
    case Line(line, rest, left) => IntactIsHeard(Buffer(m.bytes, m.cur, rest), left);
    case Eof(_, _) =>
  }

  /** A line with line ends around it, or a prompt with line ends in front, small enough for the buffer. */
  ghost predicate Frames(batch: string, line: string) {
    || (line == PROMPT && exists eols :: AllEols(eols) && |eols| + 2 <= MAX_AT_RESPONSE && batch == eols + PROMPT)
    || (line != "" && EolFree(line) && exists eols, t, behind :: FramesLine(batch, eols, line, t, behind))
  }

  predicate FramesLine(batch: string, eols: string, line: string, t: char, behind: string) {
    && AllEols(eols) && IsEol(t) && AllEols(behind) && batch == eols + (line + ([t] + behind))
    && |eols| + |line| + 1 + |behind| <= MAX_AT_RESPONSE
  }

  lemma FrameIsHeard(text: string, batch: string, line: string, more: Batches)
    requires AllEols(text) && |text| <= MAX_AT_RESPONSE && Frames(batch, line)
    ensures var o := LineBuffer.ReadLine(text, [batch] + more);
      || (o.Prompted? && line == PROMPT && o.chunks == more)
      || (o.Line? && o.line == line && AllEols(o.rest) && o.chunks == more)
  {
    if line == PROMPT && exists eols :: AllEols(eols) && |eols| + 2 <= MAX_AT_RESPONSE && batch == eols + PROMPT {
      var eols :| AllEols(eols) && |eols| + 2 <= MAX_AT_RESPONSE && batch == eols + PROMPT;
      Stale.PromptComes(text, eols, more);
    } else {
      var eols, t, behind :| FramesLine(batch, eols, line, t, behind);
      Chunking.FreshStart(text, [batch] + more);
      Chunking.LineComes(eols, line, t, behind, more);
    }
  }

  ghost predicate Framed(chunks: Batches, lines: seq<string>)
    decreases |lines|
  {
    if lines == [] then chunks == []
    else chunks != [] && Frames(chunks[0], lines[0]) && Framed(chunks[1..], lines[1..])
  }

  /** If every line and every prompt of the modem comes in a batch of its own, they are heard exactly as
  they come, provided every prompt is clean. */
  lemma {:induction false} FramedIsHeard(v: Buffer, chunks: Batches, lines: seq<string>)
    requires v.Valid() && AllEols(v.text) && Framed(chunks, lines) && Clean(v, chunks)
    ensures Heard(v, chunks) == Hearing(lines, false)
    decreases |lines|
  {
    ReadLineUses(v, chunks);
    var m := v.Memory(chunks);
    if lines == [] {
      Chunking.FreshStart(v.text, []);
      assert LineBuffer.ReadLine(v.text, []) == Eof("", []);
    } else {
      assert chunks == [chunks[0]] + chunks[1..];
      FrameIsHeard(v.text, chunks[0], lines[0], chunks[1..]);
      match LineBuffer.ReadLine(v.text, chunks)
      case Line(line, rest, left) => FramedIsHeard(Buffer(m.bytes, m.cur, rest), left, lines[1..]);
      case Prompted(left) => FramedIsHeard(Onto(m), left, lines[1..]);
    }
  }

  // ---------------------------------------------------------------- the loop

  lemma PairedCons(line: string, rest: seq<string>)
    ensures !IsSmsHeader(line) ==> Paired([line] + rest) == [ToRouter(line)] + Paired(rest)
    ensures IsSmsHeader(line) && rest != [] ==>
      Paired([line] + rest) == [ToSmsHandler(line, rest[0])] + Paired(rest[1..])
    ensures IsSmsHeader(line) && rest == [] ==> Paired([line] + rest) == []
  {
    assert ([line] + rest)[1..] == rest;
    if rest != [] {
      assert ([line] + rest)[2..] == rest[1..];
    }
  }

  lemma PairedTwo(header: string, line: string, rest: seq<string>)
    requires IsSmsHeader(header)
    ensures Paired([header] + ([line] + rest)) == [ToSmsHandler(header, line)] + Paired(rest)
  {
    PairedCons(header, [line] + rest);
    assert ([line] + rest)[1..] == rest;
  }

  lemma Deliver(done: seq<Delivery>, d: Delivery, more: seq<Delivery>)
    ensures done + ([d] + more) == done + [d] + more
  {
  }

  /** Reads lines until end of file, whatever comes, and stops where the next readline() would start past
  the array.  What is delivered are the lines that readline() returns, in order, with each SMS in one piece. */
  method ReaderLoop(b: ATBuffer) returns (delivered: seq<Delivery>, overran: bool)
    requires b.Valid()
    modifies b`cur, b`chunks, b`unread, b.buf
    ensures delivered == Paired(Heard(old(View(b)), old(b.chunks)).lines)
    ensures overran == Heard(old(View(b)), old(b.chunks)).over
  {
    delivered, overran := [], false;
    ghost var all, next := Heard(View(b), b.chunks), Some(View(b));
    while !overran
      invariant overran == next.None? && (next.Some? ==> b.Valid() && View(b) == next.value)
      invariant all.over == Later(next, b.chunks).over
      invariant Paired(all.lines) == delivered + Paired(Later(next, b.chunks).lines)
      decreases !overran, |Bytes(b.chunks)|, |b.chunks|, MAX_AT_RESPONSE + 1 - b.cur
    {
      ghost var v, left := View(b), b.chunks;
      var line1, inside;
      line1, inside, next := Hear(b);
      HearsHeard(v, left, line1, next, b.chunks);
      if line1 == None {
        break;
      }
      if IsSmsHeader(line1.value) {
        ghost var v', left' := View(b), b.chunks;
        var line2;
        line2, inside, next := Hear(b);
        HearsHeard(v', left', line2, next, b.chunks);
        if line2 == None {
          break;
        }
        PairedTwo(line1.value, line2.value, Later(next, b.chunks).lines);
        Deliver(delivered, ToSmsHandler(line1.value, line2.value), Paired(Later(next, b.chunks).lines));
        delivered := delivered + [ToSmsHandler(line1.value, line2.value)];
      } else {
        PairedCons(line1.value, Later(next, b.chunks).lines);
        Deliver(delivered, ToRouter(line1.value), Paired(Later(next, b.chunks).lines));
        delivered := delivered + [ToRouter(line1.value)];
      }
      overran := !inside;
    }
  }
}
