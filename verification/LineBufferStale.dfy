/** What the cursor of the AT channel's line buffer is on after an SMS prompt, told from the bytes that were
in the array before the call. */
module LineBufferStale {
  import opened Sequences
  import opened CText
  import opened LineBuffer
  import opened LineMemory
  import opened LineBufferRuns
  import opened LineBufferPrompts
  import Chunking = LineBufferChunking

  /** The buffer of a new channel. */
  const FRESH := Buffer(seq(MAX_AT_RESPONSE + 1, _ => '\0'), 0, "")

  /** A call that ends in a prompt and has filled the array up to `end` without starting again. */
  ghost predicate EndsAt(text: nat, chunks: Batches, o: Outcome, end: nat) {
    o.Prompted? && end <= MAX_AT_RESPONSE && end + |Bytes(o.chunks)| == text + |Bytes(chunks)|
  }

  /** The cursor is behind the NUL at `end`, and from there on the array is as it was. */
  ghost predicate Behind(bytes: seq<char>, m: Memory, end: nat) {
    && |m.bytes| == |bytes| == MAX_AT_RESPONSE + 1 && m.cur == end + 1 && end <= MAX_AT_RESPONSE
    && m.bytes[end + 1..] == bytes[end + 1..]
  }

  /** A reading loop that ends in a prompt has read something. */
  lemma PromptTakes(cur: nat, text: string, chunks: Batches)
    requires cur + |text| < MAX_AT_RESPONSE && FillMore(cur, text, chunks).Prompted?
    ensures |Bytes(FillMore(cur, text, chunks).chunks)| < |Bytes(chunks)|
  {
    var count := Min(|chunks[0]|, MAX_AT_RESPONSE - cur - |text|);
    var got := text + chunks[0][..count];
    var k := LeadingEols(got);
    FillMoreScans(cur, text, chunks, count);
    ScanUses(FRESH.bytes, cur + k, got[k..], Remaining(chunks, count));
  }

  lemma PutBehind(bytes: seq<char>, at: nat, data: string, i: nat)
    requires Closed(bytes) && at + |data| < i <= MAX_AT_RESPONSE + 1
    ensures Put(bytes, at, data)[i..] == bytes[i..]
  {
  }

  lemma {:induction false} ScanBehind(bytes: seq<char>, cur: nat, text: string, chunks: Batches, end: nat)
    requires Closed(bytes) && cur + |text| <= MAX_AT_RESPONSE
    requires EndsAt(cur + |text|, chunks, Scan(cur, text, chunks), end)
    ensures cur + |text| <= end && Behind(bytes, ScanMemory(bytes, cur, text, chunks), end)
    decreases |Bytes(chunks)|, |chunks|, 1
  {
    if text != PROMPT {
      assert FirstEol(text) == |text|;
      assert Scan(cur, text, chunks) == Fill(cur, text, chunks);
      assert ScanMemory(bytes, cur, text, chunks) == FillMemory(bytes, cur, text, chunks);
      if cur + |text| == MAX_AT_RESPONSE {
        PromptTakes(0, "", chunks);
      } else {
        FillMoreBehind(bytes, cur, text, chunks, end);
      }
    }
  }

  lemma {:induction false} FillMoreBehind(bytes: seq<char>, cur: nat, text: string, chunks: Batches, end: nat)
    requires Closed(bytes) && cur + |text| < MAX_AT_RESPONSE
    requires EndsAt(cur + |text|, chunks, FillMore(cur, text, chunks), end)
    ensures cur + |text| < end && Behind(bytes, FillMoreMemory(bytes, cur, text, chunks), end)
    decreases |Bytes(chunks)|, |chunks|, 0
  {
    var count := Min(|chunks[0]|, MAX_AT_RESPONSE - cur - |text|);
    var taken, left := chunks[0][..count], Remaining(chunks, count);
    var k := LeadingEols(text + taken);
    var bytes' := Put(bytes, cur + |text|, taken);
    FillMoreScans(cur, text, chunks, count);
    ScanBehind(bytes', cur + k, (text + taken)[k..], left, end);
    PutBehind(bytes, cur + |text|, taken, end + 1);
  }

  lemma {:induction false} SameCStr(a: seq<char>, b: seq<char>, i: nat)
    requires Closed(a) && Closed(b) && i <= MAX_AT_RESPONSE && a[i..] == b[i..]
    ensures CStr(a, i) == CStr(b, i)
    decreases MAX_AT_RESPONSE - i
  {
    assert a[i..][0] == a[i] && b[i..][0] == b[i];
    if a[i] != '\0' {
      assert a[i + 1..] == a[i..][1..] && b[i + 1..] == b[i..][1..];
      SameCStr(a, b, i + 1);
    }
  }

  /** The prompt is clean if and only if what was behind it in the array, before the call, is. */
  lemma BehindIsClean(bytes: seq<char>, m: Memory, end: nat)
    requires Closed(bytes) && Closed(m.bytes) && Behind(bytes, m, end)
    ensures CleanAfter(m) <==> end < MAX_AT_RESPONSE && AllEols(CStr(bytes, end + 1))
    ensures end < MAX_AT_RESPONSE ==> CStr(m.bytes, m.cur) == CStr(bytes, end + 1)
  {
    if end < MAX_AT_RESPONSE {
      SameCStr(m.bytes, bytes, end + 1);
    }
  }

  /** How much of the unread text one readline() keeps before it reads on: all but the line ends in front. */
  function KeptBytes(text: string): nat {
    |text| - LeadingEols(text)
  }

  lemma ReadsOn(b: Buffer, text: string, chunks: Batches)
    requires b.Valid() && b.text != "" && text == b.text[LeadingEols(b.text)..] && |text| < MAX_AT_RESPONSE
    requires ReadLine(b.text, chunks).Prompted? && ReadLine(b.text, chunks).chunks != chunks
    ensures ReadLine(b.text, chunks) == FillMore(0, text, chunks)
    ensures b.Memory(chunks) == FillMoreMemory(Put(b.bytes, 0, text), 0, text, chunks)
  {
    assert text != PROMPT && FirstEol(text) == |text|;
    assert b.Memory(chunks) == FillMemory(Put(b.bytes, 0, text), 0, text, chunks);
    assert ReadLine(b.text, chunks) == Fill(0, text, chunks);
  }

  /** A prompt for which something had to be read, however many read()s brought it.  If nothing has been
  thrown away in the call, the bytes kept and read fill the array up to `end`, and the cursor is on what was
  there, behind the NUL, before the call. */
  lemma StaleText(b: Buffer, chunks: Batches, end: nat)
    requires b.Valid() && EndsAt(KeptBytes(b.text), chunks, ReadLine(b.text, chunks), end)
    requires |Bytes(ReadLine(b.text, chunks).chunks)| < |Bytes(chunks)|
    ensures Behind(b.bytes, b.Memory(chunks), end)
    ensures CleanAfter(b.Memory(chunks)) <==> end < MAX_AT_RESPONSE && AllEols(CStr(b.bytes, end + 1))
  {
    var m := b.Memory(chunks);
    if b.text == "" {
      var bytes := b.bytes[0 := '\0'];
      FillMoreBehind(bytes, 0, "", chunks, end);
      assert bytes[end + 1..] == b.bytes[end + 1..];
    } else {
      var text := b.text[LeadingEols(b.text)..];
      var bytes := Put(b.bytes, 0, text);
      assert |text| < MAX_AT_RESPONSE;
      ReadsOn(b, text, chunks);
      FillMoreBehind(bytes, 0, text, chunks, end);
      PutBehind(b.bytes, 0, text, end + 1);
    }
    BehindIsClean(b.bytes, m, end);
  }

  /** A prompt that was in the buffer already. */
  lemma StaleHeld(b: Buffer, chunks: Batches)
    requires b.Valid() && b.text[LeadingEols(b.text)..] == PROMPT && b.bytes[b.cur + |b.text|] == '\0'
    ensures ReadLine(b.text, chunks) == Prompted(chunks)
    ensures Behind(b.bytes, b.Memory(chunks), b.cur + |b.text|)
    ensures CleanAfter(b.Memory(chunks)) <==>
            b.cur + |b.text| < MAX_AT_RESPONSE && AllEols(CStr(b.bytes, b.cur + |b.text| + 1))
  {
    var end := b.cur + |b.text|;
    assert b.Memory(chunks) == Memory(b.bytes[end := '\0'], end + 1);
    assert b.bytes[end := '\0'] == b.bytes;
    BehindIsClean(b.bytes, b.Memory(chunks), end);
  }

  lemma PromptComes(text: string, eols: string, more: Batches)
    requires AllEols(text) && |text| <= MAX_AT_RESPONSE && AllEols(eols) && |eols| + 2 <= MAX_AT_RESPONSE
    ensures ReadLine(text, [eols + PROMPT] + more) == Prompted(more)
    ensures KeptBytes(text) == 0 && |Bytes([eols + PROMPT] + more)| == |eols| + 2 + |Bytes(more)|
  {
    var batch := eols + PROMPT;
    assert batch + "" == batch;
    Chunking.FreshStart(text, [batch] + more);
    Chunking.BatchComes(eols, PROMPT, "", more);
    assert text[..|text|] == text;
    LeadingEolsIs(text, |text|);
    assert ([batch] + more)[1..] == more;
  }

  /** A prompt that comes in one batch of its own, line ends in front of it included, when nothing is left
  to be read but line ends. */
  lemma PromptAlone(b: Buffer, eols: string, more: Batches)
    requires b.Valid() && AllEols(b.text) && AllEols(eols) && |eols| + 2 <= MAX_AT_RESPONSE
    ensures var chunks, end := [eols + PROMPT] + more, |eols| + 2;
      && ReadLine(b.text, chunks) == Prompted(more)
      && Behind(b.bytes, b.Memory(chunks), end)
      && (CleanAfter(b.Memory(chunks)) <==> end < MAX_AT_RESPONSE && AllEols(CStr(b.bytes, end + 1)))
  {
    PromptComes(b.text, eols, more);
    StaleText(b, [eols + PROMPT] + more, |eols| + 2);
  }

  // ---------------------------------------------------------------- a line, and then a prompt

  /** A line that comes alone is scanned at once. */
  lemma LineScans(bytes: seq<char>, line: string, t: char, more: Batches)
    requires Closed(bytes) && line != "" && EolFree(line) && IsEol(t) && |line| < MAX_AT_RESPONSE
    ensures ReadLine("", [line + [t]] + more) == Line(line, "", more)
    ensures ReadLineMemory(bytes, 0, "", [line + [t]] + more) ==
            ScanMemory(Put(bytes[0 := '\0'], 0, line + [t]), 0, line + [t], more)
  {
    var batch, chunks := line + [t], [line + [t]] + more;
    assert "" + (line + ([t] + "")) == batch && chunks[1..] == more && chunks[0][..|batch|] == batch;
    Chunking.LineComes("", line, t, "", more);
    assert ReadLine("", chunks) == FillMore(0, "", chunks);
    assert "" + batch == batch && batch[0..] == batch;
    LeadingEolsIs(batch, 0);
    assert ReadLineMemory(bytes, 0, "", chunks) == FillMoreMemory(bytes[0 := '\0'], 0, "", chunks);
  }

  lemma LineFound(bytes: seq<char>, line: string, t: char, more: Batches)
    requires Closed(bytes) && EolFree(line) && IsEol(t) && |line| < MAX_AT_RESPONSE
    ensures ScanMemory(bytes, 0, line + [t], more) == Memory(bytes[|line| := '\0'], |line| + 1)
  {
    var batch := line + [t];
    assert batch[..|line|] == line && batch[|line|] == t;
    FirstEolIs(batch, |line|);
    assert !IsEol(PROMPT[1]);
    assert batch != PROMPT;
  }

  /** The array once a line that came alone has been returned. */
  lemma LineLeaves(line: string, t: char, more: Batches)
    requires line != "" && EolFree(line) && IsEol(t) && |line| < MAX_AT_RESPONSE
    ensures FRESH.Valid() && ReadLine("", [line + [t]] + more) == Line(line, "", more)
    ensures var m := FRESH.Memory([line + [t]] + more);
      m.cur == |line| + 1 && m.bytes == line + seq(MAX_AT_RESPONSE + 1 - |line|, _ => '\0')
  {
    var batch, chunks := line + [t], [line + [t]] + more;
    var bytes := Put(FRESH.bytes, 0, batch);
    assert FRESH.bytes[0 := '\0'] == FRESH.bytes;
    LineScans(FRESH.bytes, line, t, more);
    LineFound(bytes, line, t, more);
    assert FRESH.Memory(chunks) == Memory(bytes[|line| := '\0'], |line| + 1);
    assert bytes[|line| := '\0'] == line + seq(MAX_AT_RESPONSE + 1 - |line|, _ => '\0');
  }

  lemma {:induction false} LineCStr(bytes: seq<char>, line: string, i: nat)
    requires Closed(bytes) && NulFree(line) && |line| < MAX_AT_RESPONSE && i <= MAX_AT_RESPONSE
    requires bytes == line + seq(MAX_AT_RESPONSE + 1 - |line|, _ => '\0')
    ensures CStr(bytes, i) == if i < |line| then line[i..] else ""
    decreases MAX_AT_RESPONSE - i
  {
    if i < |line| {
      assert bytes[i] == line[i] && line[i] in line;
      assert line[i..] == [line[i]] + line[i + 1..];
      LineCStr(bytes, line, i + 1);
    }
  }

  /** What the cursor is on when a prompt comes behind a first line, each in a batch of its own: whatever of
  the line is longer than the prompt, its line ends and its NUL. */
  function StaleEnd(line: string, eols: string): string {
    if |eols| + 3 < |line| then line[|eols| + 3..] else ""
  }

  lemma PromptBehindLine(m: Memory, line: string, eols: string, more: Batches)
    requires Closed(m.bytes) && m.cur <= MAX_AT_RESPONSE && NulFree(line) && |line| < MAX_AT_RESPONSE
    requires m.bytes == line + seq(MAX_AT_RESPONSE + 1 - |line|, _ => '\0')
    requires AllEols(eols) && |eols| + 2 < MAX_AT_RESPONSE
    ensures var m' := Buffer(m.bytes, m.cur, "").Memory([eols + PROMPT] + more);
      && ReadLine("", [eols + PROMPT] + more) == Prompted(more)
      && m'.cur == |eols| + 3 && CStr(m'.bytes, m'.cur) == StaleEnd(line, eols)
  {
    var b, chunks := Buffer(m.bytes, m.cur, ""), [eols + PROMPT] + more;
    PromptAlone(b, eols, more);
    LineCStr(m.bytes, line, |eols| + 3);
    BehindIsClean(m.bytes, b.Memory(chunks), |eols| + 2);
  }

  lemma StaleEndIsEols(line: string, eols: string)
    requires EolFree(line)
    ensures AllEols(StaleEnd(line, eols)) <==> |line| <= |eols| + 3
  {
    if |eols| + 3 < |line| {
      assert StaleEnd(line, eols)[0] == line[|eols| + 3];
    }
  }

  /** The prompt is clean if and only if the line is no longer than the prompt, its line ends and its NUL;
  otherwise the end of the line is taken for unread text. */
  lemma PromptAfterLine(line: string, t: char, eols: string, more: Batches) returns (b: Buffer)
    requires line != "" && EolFree(line) && NulFree(line) && IsEol(t) && |line| < MAX_AT_RESPONSE
    requires AllEols(eols) && |eols| + 2 < MAX_AT_RESPONSE
    ensures var chunks := [line + [t]] + ([eols + PROMPT] + more);
      && FRESH.Valid() && b.Valid() && b.cur == |eols| + 3 && b.text == StaleEnd(line, eols)
      && RunMemory(FRESH, chunks) == [GotLine(line)] + ([GotPrompt] + RunMemory(b, more))
      && (Clean(FRESH, chunks) <==> |line| <= |eols| + 3 && Clean(b, more))
  {
    var second := [eols + PROMPT] + more;
    LineLeaves(line, t, second);
    var m := FRESH.Memory([line + [t]] + second);
    var c := Buffer(m.bytes, m.cur, "");
    PromptBehindLine(m, line, eols, more);
    StaleEndIsEols(line, eols);
    b := Onto(c.Memory(second));
    assert RunMemory(c, second) == [GotPrompt] + RunMemory(b, more);
    assert Clean(c, second) <==> CleanAfter(c.Memory(second)) && Clean(b, more);
  }

  // ---------------------------------------------------------------- inputs

  /** A first prompt that comes alone is clean: the array behind it has never been written to. */
  lemma FirstPromptIsClean(eols: string)
    requires AllEols(eols) && |eols| < 8190
    ensures RunMemory(FRESH, [eols + "> "]) == [GotPrompt] && Clean(FRESH, [eols + "> "])
  {
    var chunks := [eols + PROMPT];
    assert chunks + [] == chunks;
    PromptAlone(FRESH, eols, []);
    LineCStr(FRESH.bytes, "", |eols| + 3);
    var m := FRESH.Memory(chunks);
    BehindIsClean(FRESH.bytes, m, |eols| + 2);
    NothingMore(Onto(m));
  }

  lemma NothingMore(b: Buffer)
    requires b.Valid() && b.text == ""
    ensures RunMemory(b, []) == [] && Clean(b, [])
  {
    assert ReadLine("", []) == Eof("", []);
  }

  /** A line longer than the prompt, the prompt, and the modem's answer: the end of the line is glued to it. */
  lemma AnswerIsGlued()
    ensures RunMemory(FRESH, ["+CSQ: 9\r", "> ", "OK\r"]) == [GotLine("+CSQ: 9"), GotPrompt, GotLine("Q: 9OK")]
    ensures !Clean(FRESH, ["+CSQ: 9\r", "> ", "OK\r"])
  {
    var line, more := "+CSQ: 9", ["OK\r"];
    assert line + ['\r'] == "+CSQ: 9\r" && "" + PROMPT == "> ";
    assert ["+CSQ: 9\r"] + (["> "] + more) == ["+CSQ: 9\r", "> ", "OK\r"];
    var b := PromptAfterLine(line, '\r', "", more);
    assert b.text == line[3..] == "Q: 9";
    GluedLine(b);
  }

  lemma GluedLine(b: Buffer)
    requires b.Valid() && b.text == "Q: 9"
    ensures RunMemory(b, ["OK\r"]) == [GotLine("Q: 9OK")]
  {
    var more := ["OK\r"];
    GluedText(more);
    var m := b.Memory(more);
    ReadLineUses(b, more);
    NothingMore(Buffer(m.bytes, m.cur, ""));
  }

  lemma GluedText(more: Batches)
    requires more == ["OK\r"]
    ensures ReadLine("Q: 9", more) == Line("Q: 9OK", "", [])
  {
    var text, got := "Q: 9", "Q: 9OK" + (['\r'] + "");
    LeadingEolsIs(text, 0);
    assert text[0..] == text && text != PROMPT;
    ScanReadsOn(0, text, more);
    assert ReadLine(text, more) == Scan(0, text, more);
    assert text + more[0][..3] == got && more[1..] == [] && got[0..] == got;
    LeadingEolsIs(got, 0);
    FillMoreScans(0, text, more, 3);
    Chunking.ScanFinds(0, "Q: 9OK", '\r', "", []);
  }

  /** A prompt that fills the buffer to the last byte takes the cursor out of the array. */
  lemma CursorLeavesArray(eols: string)
    requires AllEols(eols) && |eols| == 8190
    ensures RunMemory(FRESH, [eols + "> "]) == [GotPrompt, Overrun]
  {
    var chunks := [eols + PROMPT];
    assert chunks + [] == chunks;
    PromptAlone(FRESH, eols, []);
    assert RunMemory(FRESH, chunks) == [GotPrompt] + [Overrun];
  }
}
