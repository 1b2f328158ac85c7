/** Whole runs of readline() of huawei_tgm/atchannel.c on the buffer itself. */
module ATBufferRuns {
  import opened Sequences
  import opened CText
  import opened LineBuffer
  import opened LineMemory
  import opened LineBufferRuns
  import opened LineBufferPrompts
  import opened ATBuffers

  lemma RunOnce(lines: seq<string>, line: string, text: string, chunks: Batches)
    requires |text| <= MAX_AT_RESPONSE && LineBuffer.ReadLine(text, chunks).Line?
    requires LineBuffer.ReadLine(text, chunks).line == line
    ensures var o := LineBuffer.ReadLine(text, chunks);
      |o.rest| <= MAX_AT_RESPONSE && lines + Run(text, chunks) == lines + [line] + Run(o.rest, o.chunks)
  {
    ReadLineShrinks(text, chunks);
    var o := LineBuffer.ReadLine(text, chunks);
    Assoc(lines, [line], Run(o.rest, o.chunks));
  }

  /** Reads until the batches are used up, passing over end-of-file reports.  Without a '>' in the
  stream the buffer is valid after every call, whatever was thrown away, every batch is used, and
  the lines are disjoint slices of the stream, in order. */
  method ReadAll(b: ATBuffer) returns (lines: seq<string>)
    requires b.Valid() && NoGreater(b.unread + Bytes(b.chunks))
    modifies b`cur, b`chunks, b`unread, b.buf
    ensures b.Valid() && b.chunks == []
    ensures lines == Run(old(b.unread), old(b.chunks))
    ensures InOrder(lines, old(b.unread) + Bytes(old(b.chunks)))
  {
    RunInOrder(b.unread, b.chunks);
    ghost var all := Run(b.unread, b.chunks);
    lines := [];
    var more := true;
    while more
      invariant b.Valid() && NoGreater(b.unread + Bytes(b.chunks))
      invariant all == if more then lines + Run(b.unread, b.chunks) else lines
      invariant !more ==> b.chunks == []
      decreases |b.unread| + |Bytes(b.chunks)|, |b.chunks|, more
    {
      ReadLineShrinks(b.unread, b.chunks);
      ReadLineConserves(b.unread, b.chunks);
      ReadLinePromptless(b.unread, b.chunks);
      ghost var text, chunks := b.unread, b.chunks;
      var used := b.chunks == [];
      var line := b.ReadLine();
      if line == None {
        more := !used;
      } else {
        RunOnce(lines, line.value, text, chunks);
        lines := lines + [line.value];
      }
    }
  }

  // ---------------------------------------------------------------- prompts included

  /** The buffer as a value. */
  ghost function View(b: ATBuffer): (v: Buffer)
    requires b.Valid()
    reads b, b.buf
    ensures v.Valid()
  {
    Buffer(b.buf[..], b.cur, b.unread)
  }

  /** One readline() on the buffer: what it returns, and the buffer afterwards unless the cursor has left
  the array. */
  ghost predicate Hears(v: Buffer, chunks: Batches, line: Option<string>, next: Option<Buffer>, left: Batches)
    requires v.Valid()
  {
    var m := v.Memory(chunks);
    match LineBuffer.ReadLine(v.text, chunks)
    case Line(text, rest, more) => line == Some(text) && next == Some(Buffer(m.bytes, m.cur, rest)) && left == more
    case Eof(rest, more) => line == None && next == Some(Buffer(m.bytes, m.cur, rest)) && left == more
    case Prompted(more) =>
      && line == Some(PROMPT) && left == more
      && if m.cur > MAX_AT_RESPONSE then next == None else next == Some(Onto(m))
  }

  method Hear(b: ATBuffer) returns (line: Option<string>, inside: bool, ghost next: Option<Buffer>)
    requires b.Valid()
    modifies b`cur, b`chunks, b`unread, b.buf
    ensures Hears(old(View(b)), old(b.chunks), line, next, b.chunks)
    ensures inside == next.Some? && (inside ==> b.Valid() && View(b) == next.value)
  {
    line := b.ReadLine();
    inside := b.cur < b.buf.Length;
    next := if inside then Some(View(b)) else None;
  }

  /** A call uses batches or bytes up, or moves the cursor on. */
  ghost predicate Onward(v: Buffer, chunks: Batches, v': Buffer, left: Batches) {
    || |Bytes(left)| < |Bytes(chunks)|
    || (|Bytes(left)| == |Bytes(chunks)| && |left| < |chunks|)
    || (|Bytes(left)| == |Bytes(chunks)| && |left| == |chunks| && v'.cur > v.cur)
  }

  lemma HearsOnward(v: Buffer, chunks: Batches, line: Option<string>, next: Option<Buffer>, left: Batches)
    requires v.Valid() && Hears(v, chunks, line, next, left)
    ensures next.Some? ==> next.value.Valid() && (line.Some? || chunks != [] ==> Onward(v, chunks, next.value, left))
  {
    ReadLineUses(v, chunks);
  }

  /** One call of a run. */
  lemma HearsRun(v: Buffer, chunks: Batches, line: Option<string>, next: Option<Buffer>, left: Batches) returns (g: Got)
    requires v.Valid() && Hears(v, chunks, line, next, left)
    ensures next.Some? ==> next.value.Valid()
    ensures line == None ==> next.Some?
    ensures line == None && chunks == [] ==> RunMemory(v, chunks) == [] && left == []
    ensures line == None && chunks != [] ==> RunMemory(v, chunks) == RunMemory(next.value, left)
    ensures line.Some? ==>
      && g != Overrun && Words(g) == [line.value]
      && RunMemory(v, chunks) == [g] + if next == None then [Overrun] else RunMemory(next.value, left)
  {
    ReadLineUses(v, chunks);
    ReadLineConserves(v.text, chunks);
    g := if LineBuffer.ReadLine(v.text, chunks).Prompted? || line == None then GotPrompt else GotLine(line.value);
  }

  lemma SpokenOne(done: seq<Got>, g: Got)
    ensures Spoken(done + [g]) == Spoken(done) + Words(g)
  {
    assert (done + [g])[..|done|] == done;
  }

  /** Reads on until the batches are used up, whatever comes; stops where the next readline() would start
  past the array.  What is heard is the run's, stale text after prompts included. */
  method HearAll(b: ATBuffer) returns (lines: seq<string>, overran: bool)
    requires b.Valid()
    modifies b`cur, b`chunks, b`unread, b.buf
    ensures lines == Spoken(RunMemory(old(View(b)), old(b.chunks)))
    ensures overran <==> Overrun in RunMemory(old(View(b)), old(b.chunks))
    ensures !overran ==> b.Valid() && b.chunks == []
  {
    ghost var all, done: seq<Got> := RunMemory(View(b), b.chunks), [];
    lines, overran := [], false;
    var more := true;
    while more
      invariant more ==> b.Valid() && !overran && all == done + RunMemory(View(b), b.chunks)
      invariant !more && !overran ==> all == done && b.Valid() && b.chunks == []
      invariant !more && overran ==> all == done + [Overrun]
      invariant lines == Spoken(done) && Overrun !in done
      decreases more, |Bytes(b.chunks)|, |b.chunks|, MAX_AT_RESPONSE + 1 - b.cur
    {
      ghost var v, left := View(b), b.chunks;
      var used := b.chunks == [];
      var line, inside;
      ghost var next;
      line, inside, next := Hear(b);
      HearsOnward(v, left, line, next, b.chunks);
      ghost var g := HearsRun(v, left, line, next, b.chunks);
      if line == None {
        more := !used;
      } else {
        Assoc(done, [g], if next == None then [Overrun] else RunMemory(next.value, b.chunks));
        SpokenOne(done, g);
        done := done + [g];
        lines := lines + [line.value];
        more, overran := inside, !inside;
      }
    }
    SpokenOne(done, Overrun);
  }
}
