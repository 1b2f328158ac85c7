/** Runs of readline() over streams with SMS prompts.  After a prompt the cursor of the buffer is one past
the NUL that ends it, so the next readline() takes for unread whatever C string an earlier read()
left there; or it reads past the array. */
module LineBufferPrompts {
  import opened Sequences
  import opened CText
  import opened LineBuffer
  import opened LineMemory
  import opened LineBufferRuns
  import Chunking = LineBufferChunking

  /** The buffer: its bytes, the cursor, and the unread text there. */
  datatype Buffer = Buffer(bytes: seq<char>, cur: nat, text: string) {
    predicate Valid() {
      Closed(bytes) && cur + |text| <= MAX_AT_RESPONSE
    }

    /** What one readline() leaves in the array. */
    function Memory(chunks: Batches): (m: Memory)
      requires Valid()
      ensures Closed(m.bytes) && m.cur <= MAX_AT_RESPONSE + 1
    {
      ReadLineMemory(bytes, cur, text, chunks)
    }
  }

  /** What a call of readline() comes back with; Overrun is a call with the cursor past the array. */
  datatype Got = GotLine(line: string) | GotPrompt | Overrun

  // ---------------------------------------------------------------- one readline()

  /** A call that returns without reading moves the cursor on; one that reads uses bytes up. */
  ghost predicate Uses(cur: nat, chunks: Batches, o: Outcome, m: Memory) {
    && |Bytes(o.chunks)| <= |Bytes(chunks)|
    && (|Bytes(o.chunks)| == |Bytes(chunks)| ==> |o.chunks| <= |chunks|)
    && (|Bytes(o.chunks)| == |Bytes(chunks)| && |o.chunks| == |chunks| && !o.Eof? ==> m.cur > cur)
    && (if o.Prompted? then m.cur >= 3 else m.cur + |o.rest| <= MAX_AT_RESPONSE)
    && (o.Eof? && chunks != [] ==> |o.chunks| < |chunks|)
  }

  lemma {:induction false} ScanUses(bytes: seq<char>, cur: nat, text: string, chunks: Batches)
    requires Closed(bytes) && cur + |text| <= MAX_AT_RESPONSE
    ensures Uses(cur, chunks, Scan(cur, text, chunks), ScanMemory(bytes, cur, text, chunks))
    decreases |Bytes(chunks)|, |chunks|, 1
  {
    if text != PROMPT && FirstEol(text) == |text| {
      if cur + |text| == MAX_AT_RESPONSE {
        FillMoreUses(bytes[0 := '\0'], 0, "", chunks);
      } else {
        FillMoreUses(bytes, cur, text, chunks);
      }
    }
  }

  lemma UsesMore(at: nat, cur: nat, chunks: Batches, left: Batches, count: nat, o: Outcome, m: Memory)
    requires chunks != [] && 0 < count <= |chunks[0]| && left == Remaining(chunks, count) && Uses(cur, left, o, m)
    ensures Uses(at, chunks, o, m)
  {
    assert |left| <= |chunks| && |Bytes(left)| < |Bytes(chunks)|;
  }

  /** The reading loop returns only by end of file, or having used bytes up. */
  lemma {:induction false} FillMoreUses(bytes: seq<char>, cur: nat, text: string, chunks: Batches)
    requires Closed(bytes) && cur + |text| < MAX_AT_RESPONSE
    ensures Uses(MAX_AT_RESPONSE + 1, chunks, FillMore(cur, text, chunks), FillMoreMemory(bytes, cur, text, chunks))
    decreases |Bytes(chunks)|, |chunks|, 0
  {
    if chunks == [] || chunks[0] == "" {
      if chunks != [] {
        assert Bytes(chunks) == Bytes(chunks[1..]);
      }
    } else {
      var count := Min(|chunks[0]|, MAX_AT_RESPONSE - cur - |text|);
      var got, left := text + chunks[0][..count], Remaining(chunks, count);
      var k := LeadingEols(got);
      var o, m := FillMore(cur, text, chunks), FillMoreMemory(bytes, cur, text, chunks);
      var bytes' := Put(bytes, cur + |text|, chunks[0][..count]);
      assert o == Scan(cur + k, got[k..], left) by {
        FillMoreScans(cur, text, chunks, count);
      }
      assert m == ScanMemory(bytes', cur + k, got[k..], left);
      ScanUses(bytes', cur + k, got[k..], left);
      UsesMore(MAX_AT_RESPONSE + 1, cur + k, chunks, left, count, o, m);
    }
  }

  lemma ReadLineUses(b: Buffer, chunks: Batches)
    requires b.Valid()
    ensures Uses(b.cur, chunks, ReadLine(b.text, chunks), b.Memory(chunks))
  {
    if b.text == "" {
      FillMoreUses(b.bytes[0 := '\0'], 0, "", chunks);
    } else {
      var k := LeadingEols(b.text);
      var text := b.text[k..];
      if NextEol(0, text) == None {
        var bytes := Put(b.bytes, 0, text);
        assert ReadLine(b.text, chunks) == Fill(0, text, chunks) && b.Memory(chunks) == FillMemory(bytes, 0, text, chunks);
        if |text| == MAX_AT_RESPONSE {
          FillMoreUses(bytes[0 := '\0'], 0, "", chunks);
        } else {
          FillMoreUses(bytes, 0, text, chunks);
        }
      }
    }
  }

  // ---------------------------------------------------------------- runs

  /** The buffer after a prompt, if the cursor is still in the array. */
  function Onto(m: Memory): (b: Buffer)
    requires Closed(m.bytes) && m.cur <= MAX_AT_RESPONSE
    ensures b.Valid()
  {
    Buffer(m.bytes, m.cur, CStr(m.bytes, m.cur))
  }

  /** What successive calls come back with until the batches are used up or the cursor is past the array;
  end-of-file reports in between are passed over. */
  function RunMemory(b: Buffer, chunks: Batches): seq<Got>
    requires b.Valid()
    decreases |Bytes(chunks)|, |chunks|, MAX_AT_RESPONSE + 1 - b.cur
  {
    ReadLineUses(b, chunks);
    var m := b.Memory(chunks);
    match ReadLine(b.text, chunks)
    case Line(line, rest, left) => [GotLine(line)] + RunMemory(Buffer(m.bytes, m.cur, rest), left)
    case Eof(rest, left) => if chunks == [] then [] else RunMemory(Buffer(m.bytes, m.cur, rest), left)
    case Prompted(left) => [GotPrompt] + if m.cur > MAX_AT_RESPONSE then [Overrun] else RunMemory(Onto(m), left)
  }

  /** The same for a buffer that is empty after a prompt. */
  function IdealRun(text: string, chunks: Batches): seq<Got>
    requires |text| <= MAX_AT_RESPONSE
    decreases |text| + |Bytes(chunks)|, |chunks|
  {
    ReadLineShrinks(text, chunks);
    match ReadLine(text, chunks)
    case Line(line, rest, left) => [GotLine(line)] + IdealRun(rest, left)
    case Eof(rest, left) => if chunks == [] then [] else IdealRun(rest, left)
    case Prompted(left) => [GotPrompt] + IdealRun("", left)
  }

  /** The strings that readline() returned. */
  function Spoken(got: seq<Got>): seq<string> {
    if got == [] then [] else Spoken(got[..|got| - 1]) + Words(got[|got| - 1])
  }

  function Words(g: Got): seq<string> {
    match g
    case GotLine(line) => [line]
    case GotPrompt => [PROMPT]
    case Overrun => []
  }

  function AsGot(lines: seq<string>): (got: seq<Got>)
    ensures |got| == |lines| && forall i | 0 <= i < |got| :: got[i] == GotLine(lines[i])
  {
    if lines == [] then [] else [GotLine(lines[0])] + AsGot(lines[1..])
  }

  /** Without a '>' to come, the run is the one without prompts. */
  lemma {:induction false} NoPromptComes(text: string, chunks: Batches)
    requires |text| <= MAX_AT_RESPONSE && NoGreater(text + Bytes(chunks))
    ensures IdealRun(text, chunks) == AsGot(Run(text, chunks))
    decreases |text| + |Bytes(chunks)|, |chunks|
  {
    ReadLineShrinks(text, chunks);
    ReadLinePromptless(text, chunks);
    match ReadLine(text, chunks)
    case Line(line, rest, left) =>
      NoPromptComes(rest, left);
      assert ([line] + Run(rest, left))[1..] == Run(rest, left);
    case Eof(rest, left) =>
      if chunks != [] {
        NoPromptComes(rest, left);
      }
  }

  // ---------------------------------------------------------------- clean prompts

  /** The cursor is still in the array, and the text it is on is at most line ends. */
  predicate CleanAfter(m: Memory)
    requires Closed(m.bytes)
  {
    m.cur <= MAX_AT_RESPONSE && AllEols(CStr(m.bytes, m.cur))
  }

  /** Every prompt of the run is clean. */
  predicate Clean(b: Buffer, chunks: Batches)
    requires b.Valid()
    decreases |Bytes(chunks)|, |chunks|, MAX_AT_RESPONSE + 1 - b.cur
  {
    ReadLineUses(b, chunks);
    var m := b.Memory(chunks);
    match ReadLine(b.text, chunks)
    case Line(line, rest, left) => Clean(Buffer(m.bytes, m.cur, rest), left)
    case Eof(rest, left) => chunks == [] || Clean(Buffer(m.bytes, m.cur, rest), left)
    case Prompted(left) => CleanAfter(m) && Clean(Onto(m), left)
  }

  /** Line ends in front of nothing are as good as nothing. */
  predicate SameText(held: string, ideal: string) {
    held == ideal || (AllEols(held) && ideal == "")
  }

  lemma SameOutcome(held: string, ideal: string, chunks: Batches)
    requires |held| <= MAX_AT_RESPONSE && SameText(held, ideal)
    ensures ReadLine(held, chunks) == ReadLine(ideal, chunks)
  {
    if held != ideal {
      Chunking.FreshStart(held, chunks);
      Chunking.FreshStart("", chunks);
    }
  }

  /** If every prompt is clean, the run is the ideal one. */
  lemma {:induction false} CleanRunIsIdeal(b: Buffer, ideal: string, chunks: Batches)
    requires b.Valid() && SameText(b.text, ideal) && Clean(b, chunks)
    ensures RunMemory(b, chunks) == IdealRun(ideal, chunks)
    decreases |Bytes(chunks)|, |chunks|, MAX_AT_RESPONSE + 1 - b.cur
  {
    ReadLineUses(b, chunks);
    ReadLineShrinks(ideal, chunks);
    SameOutcome(b.text, ideal, chunks);
    var m := b.Memory(chunks);
    match ReadLine(b.text, chunks)
    case Line(line, rest, left) => CleanRunIsIdeal(Buffer(m.bytes, m.cur, rest), rest, left);
    case Eof(rest, left) =>
      if chunks != [] {
        CleanRunIsIdeal(Buffer(m.bytes, m.cur, rest), rest, left);
      }
    case Prompted(left) => CleanRunIsIdeal(Onto(m), "", left);
  }

  lemma {:induction false} NoPromptIsClean(b: Buffer, chunks: Batches)
    requires b.Valid() && NoGreater(b.text + Bytes(chunks))
    ensures Clean(b, chunks)
    decreases |Bytes(chunks)|, |chunks|, MAX_AT_RESPONSE + 1 - b.cur
  {
    ReadLineUses(b, chunks);
    ReadLinePromptless(b.text, chunks);
    var m := b.Memory(chunks);
    match ReadLine(b.text, chunks)
    case Line(line, rest, left) => NoPromptIsClean(Buffer(m.bytes, m.cur, rest), left);
    case Eof(rest, left) =>
      if chunks != [] {
        NoPromptIsClean(Buffer(m.bytes, m.cur, rest), left);
      }
  }

  /** Whatever comes next, up to the next prompt, is read as if nothing else were there. */
  ghost predicate ReadsAlone(b: Buffer)
    requires b.Valid()
  {
    forall more | NoGreater(Bytes(more)) :: RunMemory(b, more) == AsGot(Run("", more))
  }

  lemma CleanReadsAlone(b: Buffer, more: Batches)
    requires b.Valid() && AllEols(b.text) && NoGreater(Bytes(more))
    ensures RunMemory(b, more) == AsGot(Run("", more))
  {
    assert "" + Bytes(more) == Bytes(more);
    NoGreaterSplit(b.text, Bytes(more));
    NoPromptIsClean(b, more);
    CleanRunIsIdeal(b, "", more);
    NoPromptComes("", more);
  }

  /** A text without a line end is not enough for a line. */
  lemma ScanReadsOn(dead: nat, text: string, chunks: Batches)
    requires EolFree(text) && dead + |text| < MAX_AT_RESPONSE && text != PROMPT
    ensures Scan(dead, text, chunks) == FillMore(dead, text, chunks)
  {
    assert text[..|text|] == text;
    FirstEolIs(text, |text|);
  }

  /** One more line end, if the text has none, brings the text out. */
  lemma TextComesOut(b: Buffer) returns (more: Batches)
    requires b.Valid() && b.cur > 0 && !AllEols(b.text)
    ensures NoGreater(Bytes(more)) && Run("", more) == []
    ensures !ReadLine(b.text, more).Eof?
  {
    var k := LeadingEols(b.text);
    var text := b.text[k..];
    assert text != "" by {
      assert b.text[..|b.text|] == b.text;
    }
    if text == PROMPT || FirstEol(text) < |text| {
      more := [];
      assert Run("", []) == [];
    } else {
      more := ["\n"];
      LineEndScans("");
      LineEndAlone();
      LineEndComes(text);
      ScanReadsOn(0, text, more);
    }
  }

  /** One batch of one line end, behind some text. */
  lemma LineEndScans(text: string)
    requires |text| < MAX_AT_RESPONSE
    ensures var got := text + "\n";
      FillMore(0, text, ["\n"]) == Scan(LeadingEols(got), got[LeadingEols(got)..], [])
    ensures Bytes(["\n"]) == "\n"
  {
    var more: Batches := ["\n"];
    assert more[0][..1] == "\n" && more[1..] == [] && Remaining(more, 1) == [] && "\n" + "" == "\n";
    FillMoreScans(0, text, more, 1);
  }

  lemma LineEndComes(text: string)
    requires text != "" && EolFree(text) && |text| < MAX_AT_RESPONSE
    ensures FillMore(0, text, ["\n"]) == Line(text, "", [])
  {
    var got := text + "\n";
    LineEndScans(text);
    LeadingEolsIs(got, 0);
    assert got[0..] == got == text + (['\n'] + "");
    Chunking.ScanFinds(0, text, '\n', "", []);
  }

  lemma LineEndAlone()
    ensures Run("", ["\n"]) == []
  {
    LineEndScans("");
    assert "" + "\n" == "\n" && "\n"[1..] == "";
    LeadingEolsIs("\n", 1);
    var more: Batches := ["\n"];
    assert Scan(1, "", []) == Eof("", []) && ReadLine("", more) == FillMore(0, "", more);
    assert Run("", []) == [];
  }

  /** After a prompt, what comes next is read alone if and only if the cursor is on nothing but line ends. */
  lemma ReadsAloneIff(b: Buffer)
    requires b.Valid() && b.cur > 0
    ensures ReadsAlone(b) <==> AllEols(b.text)
  {
    if AllEols(b.text) {
      forall more | NoGreater(Bytes(more))
        ensures RunMemory(b, more) == AsGot(Run("", more))
      {
        CleanReadsAlone(b, more);
      }
    } else {
      var more := TextComesOut(b);
      assert RunMemory(b, more) != [] == AsGot(Run("", more));
    }
  }

  /** At every prompt of the run the cursor is still in the array, and what comes next is read alone. */
  ghost predicate Undisturbed(b: Buffer, chunks: Batches)
    requires b.Valid()
    decreases |Bytes(chunks)|, |chunks|, MAX_AT_RESPONSE + 1 - b.cur
  {
    ReadLineUses(b, chunks);
    var m := b.Memory(chunks);
    match ReadLine(b.text, chunks)
    case Line(line, rest, left) => Undisturbed(Buffer(m.bytes, m.cur, rest), left)
    case Eof(rest, left) => chunks == [] || Undisturbed(Buffer(m.bytes, m.cur, rest), left)
    case Prompted(left) => m.cur <= MAX_AT_RESPONSE && ReadsAlone(Onto(m)) && Undisturbed(Onto(m), left)
  }

  /** A stream with prompts is read without invented or glued text, however it goes on after each prompt,
  if and only if every prompt is clean. */
  lemma {:induction false} UndisturbedIff(b: Buffer, chunks: Batches)
    requires b.Valid()
    ensures Undisturbed(b, chunks) <==> Clean(b, chunks)
    decreases |Bytes(chunks)|, |chunks|, MAX_AT_RESPONSE + 1 - b.cur
  {
    ReadLineUses(b, chunks);
    var m := b.Memory(chunks);
    match ReadLine(b.text, chunks)
    case Line(line, rest, left) => UndisturbedIff(Buffer(m.bytes, m.cur, rest), left);
    case Eof(rest, left) =>
      if chunks != [] {
        UndisturbedIff(Buffer(m.bytes, m.cur, rest), left);
      }
    case Prompted(left) =>
      if m.cur <= MAX_AT_RESPONSE {
        ReadsAloneIff(Onto(m));
        UndisturbedIff(Onto(m), left);
      }
  }

  // ---------------------------------------------------------------- order

  /** The lines and prompts are disjoint slices of the stream, in order, and the array is never left. */
  ghost predicate HeardInOrder(got: seq<Got>, s: string) {
    got == [] ||
    match got[0]
    case GotLine(line) =>
      exists skipped, t, after ::
        Parts(s, skipped, line, t, after) && line != "" && EolFree(line) && HeardInOrder(got[1..], after)
    case GotPrompt => exists skipped, after :: Prompts(s, skipped, after) && HeardInOrder(got[1..], after)
    case Overrun => false
  }

  lemma HeardBehind(got: seq<Got>, skipped: string, s: string)
    requires HeardInOrder(got, s)
    ensures HeardInOrder(got, skipped + s)
  {
    if got != [] {
      match got[0]
      case GotLine(line) =>
        var k, t, after :| Parts(s, k, line, t, after) && line != "" && EolFree(line) && HeardInOrder(got[1..], after);
        Assoc(skipped, k, line + ([t] + after));
        assert Parts(skipped + s, skipped + k, line, t, after);
      case GotPrompt =>
        var k, after :| Prompts(s, k, after) && HeardInOrder(got[1..], after);
        Assoc(skipped, k, PROMPT + after);
        assert Prompts(skipped + s, skipped + k, after);
    }
  }

  lemma {:induction false} IdealInOrder(text: string, chunks: Batches)
    requires |text| <= MAX_AT_RESPONSE
    ensures HeardInOrder(IdealRun(text, chunks), text + Bytes(chunks))
    decreases |text| + |Bytes(chunks)|, |chunks|
  {
    var whole, o, got := text + Bytes(chunks), ReadLine(text, chunks), IdealRun(text, chunks);
    ReadLineShrinks(text, chunks);
    ReadLineConserves(text, chunks);
    match o
    case Line(line, rest, left) =>
      IdealInOrder(rest, left);
      var skipped, t :| Parts(whole, skipped, line, t, After(o));
      assert got[0] == GotLine(line) && got[1..] == IdealRun(rest, left);
      assert Parts(whole, skipped, line, t, After(o));
    case Eof(rest, left) =>
      if chunks != [] {
        IdealInOrder(rest, left);
        var skipped :| Ends(whole, skipped, After(o));
        HeardBehind(got, skipped, After(o));
      }
    case Prompted(left) =>
      IdealInOrder("", left);
      assert "" + Bytes(left) == Bytes(left);
      var skipped :| Prompts(whole, skipped, Bytes(left));
      assert got[0] == GotPrompt && got[1..] == IdealRun("", left);
      assert Prompts(whole, skipped, Bytes(left));
  }

  /** If every prompt is clean, nothing is made up, glued together, returned twice or out of order. */
  lemma CleanRunInOrder(b: Buffer, chunks: Batches)
    requires b.Valid() && Clean(b, chunks)
    ensures HeardInOrder(RunMemory(b, chunks), b.text + Bytes(chunks))
  {
    CleanRunIsIdeal(b, b.text, chunks);
    IdealInOrder(b.text, chunks);
  }
}
