/** Whole runs of readline(): what comes out depends on the bytes, not on how read() cut them up,
exactly when every line fits the buffer. */
module LineBufferRuns {
  import opened Sequences
  import opened CText
  import opened LineBuffer

  /** The piece begun once `c` has followed `acc`. */
  function Grow(acc: string, c: char): string {
    if IsEol(c) then "" else acc + [c]
  }

  /** The lines of a stream: split at CR and LF, drop empty pieces and the unterminated
  last one.  `acc` is the piece begun before the stream. */
  function Lines(acc: string, s: string): seq<string>
    decreases |s|
  {
    if s == "" then []
    else (if IsEol(s[0]) && acc != "" then [acc] else []) + Lines(Grow(acc, s[0]), s[1..])
  }

  /** The bytes, line ends and text, since the last line ended. */
  function Held(n: nat, acc: string, c: char): nat {
    if IsEol(c) && acc != "" then 0 else n + 1
  }

  /** Every terminated line, together with the line ends in front of it, is shorter than the
  buffer; with `strict` the unterminated last piece is, too. */
  predicate Fits(strict: bool, n: nat, acc: string, s: string)
    decreases |s|
  {
    if s == "" then
      strict && acc != "" ==> n < MAX_AT_RESPONSE
    else
      && (IsEol(s[0]) && acc != "" ==> n < MAX_AT_RESPONSE)
      && Fits(strict, Held(n, acc, s[0]), Grow(acc, s[0]), s[1..])
  }

  /** No line of the stream starts with the SMS prompt. */
  predicate NoPrompt(acc: string, s: string)
    decreases |s|
  {
    acc != PROMPT && (s != "" ==> NoPrompt(Grow(acc, s[0]), s[1..]))
  }

  predicate NoGreater(s: string) {
    '>' !in s
  }

  // ---------------------------------------------------------------- streams

  /** Text without a line end only makes the begun piece longer. */
  lemma {:induction false} ThroughText(strict: bool, n: nat, acc: string, text: string, s: string)
    requires EolFree(text)
    ensures Lines(acc, text + s) == Lines(acc + text, s)
    ensures Fits(strict, n, acc, text + s) == Fits(strict, n + |text|, acc + text, s)
    ensures NoPrompt(acc, text + s) ==> NoPrompt(acc + text, s)
    decreases |text|
  {
    if text == "" {
      assert text + s == s && acc + text == acc;
    } else {
      assert (text + s)[1..] == text[1..] + s;
      assert acc + [text[0]] + text[1..] == acc + text;
      ThroughText(strict, n + 1, acc + [text[0]], text[1..], s);
    }
  }

  /** Line ends with no text before them only take up room. */
  lemma {:induction false} ThroughEols(strict: bool, n: nat, eols: string, s: string)
    requires AllEols(eols)
    ensures Lines("", eols + s) == Lines("", s)
    ensures Fits(strict, n, "", eols + s) == Fits(strict, n + |eols|, "", s)
    ensures NoPrompt("", eols + s) ==> NoPrompt("", s)
    decreases |eols|
  {
    if eols == "" {
      assert eols + s == s;
    } else {
      assert (eols + s)[1..] == eols[1..] + s;
      ThroughEols(strict, n + 1, eols[1..], s);
    }
  }

  /** One line with its line end. */
  lemma ThroughLine(strict: bool, n: nat, line: string, t: char, s: string)
    requires line != "" && EolFree(line) && IsEol(t)
    ensures Lines("", line + [t] + s) == [line] + Lines("", s)
    ensures Fits(strict, n, "", line + [t] + s) ==
            (n + |line| < MAX_AT_RESPONSE && Fits(strict, 0, "", s))
    ensures NoPrompt("", line + [t] + s) ==> NoPrompt("", s)
  {
    assert line + [t] + s == line + ([t] + s);
    assert "" + line == line;
    ThroughText(strict, n, "", line, [t] + s);
    assert ([t] + s)[0] == t && ([t] + s)[1..] == s;
  }

  /** A shorter history asks for less. */
  lemma {:induction false} FitsAntitone(strict: bool, m: nat, n: nat, acc: string, s: string)
    requires m <= n && Fits(strict, n, acc, s)
    ensures Fits(strict, m, acc, s)
    decreases |s|
  {
    if s != "" {
      FitsAntitone(strict, Held(m, acc, s[0]), Held(n, acc, s[0]), Grow(acc, s[0]), s[1..]);
    }
  }

  /** A piece that has outgrown the buffer fits only if it never ends. */
  lemma {:induction false} OutgrownNeverEnds(strict: bool, n: nat, acc: string, s: string)
    requires acc != "" && n >= MAX_AT_RESPONSE && Fits(strict, n, acc, s)
    ensures EolFree(s) && !strict
    decreases |s|
  {
    if s != "" {
      OutgrownNeverEnds(strict, n + 1, acc + [s[0]], s[1..]);
    }
  }

  lemma {:induction false} NoGreaterNoPrompt(acc: string, s: string)
    requires NoGreater(acc) && NoGreater(s)
    ensures NoPrompt(acc, s)
    decreases |s|
  {
    assert PROMPT[0] == '>';
    if s != "" {
      NoGreaterNoPrompt(Grow(acc, s[0]), s[1..]);
    }
  }

  // ---------------------------------------------------------------- one readline()

  /** The bytes that an outcome leaves for later. */
  function After(o: Outcome): string
    requires !o.Prompted?
  {
    o.rest + Bytes(o.chunks)
  }

  /** `whole` is some skipped bytes, a line, its line end, and what comes after. */
  ghost predicate Parts(whole: string, skipped: string, line: string, t: char, after: string) {
    IsEol(t) && whole == skipped + (line + ([t] + after))
  }

  ghost predicate Ends(whole: string, skipped: string, after: string) {
    whole == skipped + after
  }

  /** `whole` is some skipped bytes, a prompt, and what comes after. */
  ghost predicate Prompts(whole: string, skipped: string, after: string) {
    whole == skipped + (PROMPT + after)
  }

  /** Conservation: a line is a non-empty stretch of the bytes without a line end inside, and
  what comes after its line end is exactly what is kept for later.  At end of file, a suffix
  of the bytes is kept. */
  ghost predicate Conserves(whole: string, o: Outcome) {
    match o
    case Line(line, rest, _) =>
      && 0 < |line| < MAX_AT_RESPONSE && |rest| < MAX_AT_RESPONSE && EolFree(line)
      && exists skipped, t :: Parts(whole, skipped, line, t, After(o))
    case Eof(rest, _) =>
      && |rest| <= MAX_AT_RESPONSE && EolFree(rest)
      && exists skipped :: Ends(whole, skipped, After(o))
    case Prompted(left) => exists skipped :: Prompts(whole, skipped, Bytes(left))
  }

  /** End of file uses up a batch, if there is one. */
  ghost predicate Advances(chunks: Batches, o: Outcome) {
    o.Eof? ==> if chunks == [] then o.chunks == [] else |o.chunks| < |chunks|
  }

  lemma DropConserves(dropped: string, part: string, o: Outcome)
    requires Conserves(part, o)
    ensures Conserves(dropped + part, o)
  {
    if o.Line? {
      var skipped, t :| Parts(part, skipped, o.line, t, After(o));
      Assoc(dropped, skipped, o.line + ([t] + After(o)));
      assert Parts(dropped + part, dropped + skipped, o.line, t, After(o));
    } else if o.Eof? {
      var skipped :| Ends(part, skipped, After(o));
      Assoc(dropped, skipped, After(o));
      assert Ends(dropped + part, dropped + skipped, After(o));
    } else {
      var skipped :| Prompts(part, skipped, Bytes(o.chunks));
      Assoc(dropped, skipped, PROMPT + Bytes(o.chunks));
      assert Prompts(dropped + part, dropped + skipped, Bytes(o.chunks));
    }
  }

  lemma LineConserves(text: string, e: nat, chunks: Batches)
    requires 0 < e < |text| <= MAX_AT_RESPONSE && EolFree(text[..e]) && IsEol(text[e])
    ensures Conserves(text + Bytes(chunks), Line(text[..e], text[e + 1..], chunks))
  {
    var line, t, rest, more := text[..e], text[e], text[e + 1..], Bytes(chunks);
    assert text == line + ([t] + rest);
    Assoc(line, [t] + rest, more);
    Assoc([t], rest, more);
    var after := rest + more;
    assert "" + (line + ([t] + after)) == line + ([t] + after);
    assert After(Line(line, rest, chunks)) == after;
    assert Parts(text + more, "", line, t, after);
  }

  lemma EofConserves(text: string, chunks: Batches)
    requires |text| <= MAX_AT_RESPONSE && EolFree(text)
    ensures Conserves(text + Bytes(chunks), Eof(text, chunks))
  {
    var whole := text + Bytes(chunks);
    assert "" + whole == whole;
    assert After(Eof(text, chunks)) == whole;
    assert Ends(whole, "", whole);
  }

  lemma {:induction false} ScanConserves(dead: nat, text: string, chunks: Batches)
    requires dead + |text| <= MAX_AT_RESPONSE && (text != "" ==> !IsEol(text[0]))
    ensures Conserves(text + Bytes(chunks), Scan(dead, text, chunks))
    ensures Advances(chunks, Scan(dead, text, chunks))
    decreases |Bytes(chunks)|, |chunks|, 1
  {
    var e := FirstEol(text);
    if text == PROMPT {
      assert "" + (PROMPT + Bytes(chunks)) == text + Bytes(chunks);
      assert Prompts(text + Bytes(chunks), "", Bytes(chunks));
    } else if e < |text| {
      LineConserves(text, e, chunks);
    } else if dead + |text| == MAX_AT_RESPONSE {
      FillMoreConserves(0, "", chunks);
      assert "" + Bytes(chunks) == Bytes(chunks);
      DropConserves(text, Bytes(chunks), FillMore(0, "", chunks));
    } else {
      FillMoreConserves(dead, text, chunks);
    }
  }

  lemma {:induction false} FillMoreConserves(dead: nat, text: string, chunks: Batches)
    requires dead + |text| < MAX_AT_RESPONSE && EolFree(text)
    ensures Conserves(text + Bytes(chunks), FillMore(dead, text, chunks))
    ensures Advances(chunks, FillMore(dead, text, chunks))
    decreases |Bytes(chunks)|, |chunks|, 0
  {
    if chunks == [] {
      EofConserves(text, []);
    } else if chunks[0] == "" {
      EofConserves(text, chunks[1..]);
      assert Bytes(chunks) == Bytes(chunks[1..]);
    } else {
      var count := Min(|chunks[0]|, MAX_AT_RESPONSE - dead - |text|);
      var got, left := text + chunks[0][..count], Remaining(chunks, count);
      var k := LeadingEols(got);
      var o := Scan(dead + k, got[k..], left);
      assert FillMore(dead, text, chunks) == o by {
        FillMoreScans(dead, text, chunks, count);
      }
      ScanConserves(dead + k, got[k..], left);
      RegroupText(text, chunks[0][..count], Bytes(left), k);
      DropConserves(got[..k], got[k..] + Bytes(left), o);
    }
  }

  lemma RegroupText(text: string, taken: string, more: string, k: nat)
    requires k <= |text + taken|
    ensures text + (taken + more) == (text + taken)[..k] + ((text + taken)[k..] + more)
  {
    Assoc(text, taken, more);
    Split(text + taken, k);
    Assoc((text + taken)[..k], (text + taken)[k..], more);
  }

  lemma Split(s: string, k: nat)
    requires k <= |s|
    ensures s == s[..k] + s[k..]
  {
  }

  /** One readline() returns a slice of the stream and keeps what follows it, however long the
  lines are and however much of an overlong one was thrown away. */
  lemma ReadLineConserves(text: string, chunks: Batches)
    requires |text| <= MAX_AT_RESPONSE
    ensures Conserves(text + Bytes(chunks), ReadLine(text, chunks))
    ensures Advances(chunks, ReadLine(text, chunks))
  {
    if text == "" {
      FillMoreConserves(0, "", chunks);
    } else {
      var k := LeadingEols(text);
      ScanConserves(0, text[k..], chunks);
      DropConserves(text[..k], text[k..] + Bytes(chunks), Scan(0, text[k..], chunks));
      Split(text, k);
      Assoc(text[..k], text[k..], Bytes(chunks));
    }
  }

  lemma NoGreaterSplit(a: string, b: string)
    ensures NoGreater(a + b) <==> NoGreater(a) && NoGreater(b)
  {
    assert forall c :: c in a + b <==> c in a || c in b;
  }

  /** Nothing is a prompt, however much of an overlong line has been thrown away, and what is left
  has no '>' either. */
  ghost predicate Promptless(o: Outcome) {
    !o.Prompted? && NoGreater(After(o))
  }

  lemma {:induction false} ScanPromptless(dead: nat, text: string, chunks: Batches)
    requires dead + |text| <= MAX_AT_RESPONSE && NoGreater(text) && NoGreater(Bytes(chunks))
    ensures Promptless(Scan(dead, text, chunks))
    decreases |Bytes(chunks)|, |chunks|, 1
  {
    var e := FirstEol(text);
    assert PROMPT[0] == '>';
    if e < |text| {
      Split(text, e + 1);
      NoGreaterSplit(text[..e + 1], text[e + 1..]);
      NoGreaterSplit(text[e + 1..], Bytes(chunks));
    } else if dead + |text| == MAX_AT_RESPONSE {
      FillMorePromptless(0, "", chunks);
    } else {
      FillMorePromptless(dead, text, chunks);
    }
  }

  lemma {:induction false} FillMorePromptless(dead: nat, text: string, chunks: Batches)
    requires dead + |text| < MAX_AT_RESPONSE && NoGreater(text) && NoGreater(Bytes(chunks))
    ensures Promptless(FillMore(dead, text, chunks))
    decreases |Bytes(chunks)|, |chunks|, 0
  {
    if chunks == [] || chunks[0] == "" {
      var left := if chunks == [] then [] else chunks[1..];
      assert Bytes(chunks) == Bytes(left);
      NoGreaterSplit(text, Bytes(left));
    } else {
      var count := Min(|chunks[0]|, MAX_AT_RESPONSE - dead - |text|);
      var taken, left := chunks[0][..count], Remaining(chunks, count);
      var got := text + taken;
      var k := LeadingEols(got);
      NoGreaterSplit(taken, Bytes(left));
      NoGreaterSplit(text, taken);
      Split(got, k);
      NoGreaterSplit(got[..k], got[k..]);
      FillMoreScans(dead, text, chunks, count);
      ScanPromptless(dead + k, got[k..], left);
    }
  }

  /** For every stream without '>', overlong lines included, readline() never sees a prompt. */
  lemma ReadLinePromptless(text: string, chunks: Batches)
    requires |text| <= MAX_AT_RESPONSE && NoGreater(text + Bytes(chunks))
    ensures Promptless(ReadLine(text, chunks))
  {
    NoGreaterSplit(text, Bytes(chunks));
    if text == "" {
      FillMorePromptless(0, "", chunks);
    } else {
      var k := LeadingEols(text);
      Split(text, k);
      NoGreaterSplit(text[..k], text[k..]);
      ScanPromptless(0, text[k..], chunks);
    }
  }

  // ---------------------------------------------------------------- runs

  /** The lines that readline() returns until the batches are used up or a prompt comes.
  End-of-file reports in between are passed over. */
  function Run(text: string, chunks: Batches): (lines: seq<string>)
    requires |text| <= MAX_AT_RESPONSE
    decreases |text| + |Bytes(chunks)|, |chunks|
  {
    ReadLineShrinks(text, chunks);
    match ReadLine(text, chunks)
    case Line(line, rest, left) => [line] + Run(rest, left)
    case Eof(rest, left) => if chunks == [] then [] else Run(rest, left)
    case Prompted(_) => []
  }

  lemma ReadLineShrinks(text: string, chunks: Batches)
    requires |text| <= MAX_AT_RESPONSE
    ensures match ReadLine(text, chunks)
      case Line(line, rest, left) =>
        |rest| <= MAX_AT_RESPONSE && |rest| + |Bytes(left)| < |text| + |Bytes(chunks)|
      case Eof(rest, left) =>
        && |rest| <= MAX_AT_RESPONSE && |rest| + |Bytes(left)| <= |text| + |Bytes(chunks)|
        && (chunks != [] ==> |left| < |chunks|)
      case Prompted(left) => |Bytes(left)| < |text| + |Bytes(chunks)|
  {
    ReadLineConserves(text, chunks);
  }

  /** What the unread bytes must satisfy for readline() to be exact. */
  ghost predicate Good(strict: bool, n: nat, s: string) {
    && Fits(strict, n, "", s)
    && NoPrompt("", s)
    && (strict || NoGreater(s))
  }

  /** The outcome is the next line of the stream, and the rest of the stream is kept. */
  ghost predicate Exact(strict: bool, whole: string, o: Outcome) {
    && !o.Prompted?
    && Good(strict, 0, After(o))
    && Lines("", whole) == if o.Line? then [o.line] + Lines("", After(o)) else Lines("", After(o))
  }

  lemma NoGreaterSuffix(a: string, b: string)
    requires NoGreater(a + b)
    ensures NoGreater(b)
  {
    assert forall c | c in b :: c in a + b;
  }

  lemma SplitAt(s: string, e: nat)
    requires e < |s|
    ensures s == s[..e] + [s[e]] + s[e + 1..]
  {
  }

  lemma LineExact(strict: bool, n: nat, line: string, t: char, rest: string, chunks: Batches)
    requires line != "" && EolFree(line) && IsEol(t)
    requires Good(strict, n, line + [t] + rest + Bytes(chunks))
    ensures Exact(strict, line + [t] + rest + Bytes(chunks), Line(line, rest, chunks))
  {
    var s := rest + Bytes(chunks);
    Assoc(line + [t], rest, Bytes(chunks));
    ThroughLine(strict, n, line, t, s);
    if !strict {
      NoGreaterSuffix(line + [t], s);
    }
    assert After(Line(line, rest, chunks)) == s;
  }

  lemma EofExact(strict: bool, n: nat, text: string, chunks: Batches)
    requires Good(strict, n, text + Bytes(chunks))
    ensures Exact(strict, text + Bytes(chunks), Eof(text, chunks))
  {
    FitsAntitone(strict, 0, n, "", text + Bytes(chunks));
  }

  /** Line ends in front of a text change nothing but the room they take. */
  lemma DropGood(strict: bool, n: nat, eols: string, s: string)
    requires AllEols(eols) && Good(strict, n, eols + s)
    ensures Good(strict, n + |eols|, s)
  {
    ThroughEols(strict, n, eols, s);
    if !strict {
      NoGreaterSuffix(eols, s);
    }
  }

  lemma DropExact(strict: bool, eols: string, s: string, o: Outcome)
    requires AllEols(eols) && Exact(strict, s, o)
    ensures Exact(strict, eols + s, o)
  {
    ThroughEols(strict, 0, eols, s);
  }

  /** A stream without a line end is good and has no lines. */
  lemma NothingComes(s: string)
    requires EolFree(s) && NoGreater(s)
    ensures Good(false, 0, s) && Lines("", s) == []
  {
    assert s + "" == s && "" + s == s;
    ThroughText(false, 0, "", s, "");
    NoGreaterNoPrompt("", s);
  }

  /** Throwing a full buffer away is harmless in a good stream: it held nothing but line ends,
  or the start of a line that never ends. */
  lemma DitchExact(strict: bool, n: nat, text: string, s: string) returns (m: nat)
    requires EolFree(text) && n + |text| >= MAX_AT_RESPONSE && Good(strict, n, text + s)
    ensures Good(strict, m, s) && Lines("", text + s) == Lines("", s)
  {
    if text == "" {
      assert text + s == s;
      m := n;
    } else {
      assert "" + text == text;
      ThroughText(strict, n, "", text, s);
      OutgrownNeverEnds(strict, n + |text|, text, s);
      NoGreaterSuffix(text, s);
      NothingComes(s);
      NothingComes(text + s);
      m := 0;
    }
  }

  /** Reading some bytes and skipping the line ends in front keeps a stream good ... */
  lemma ReadGood(strict: bool, n: nat, text: string, taken: string, k: nat, more: string)
    requires Good(strict, n, text + (taken + more)) && k <= |text + taken| && AllEols((text + taken)[..k])
    ensures Good(strict, n + k, (text + taken)[k..] + more)
  {
    RegroupText(text, taken, more, k);
    DropGood(strict, n, (text + taken)[..k], (text + taken)[k..] + more);
  }

  /** ... and an outcome that is exact afterwards was exact before. */
  lemma ReadExact(strict: bool, text: string, taken: string, k: nat, more: string, o: Outcome)
    requires k <= |text + taken| && AllEols((text + taken)[..k])
    requires Exact(strict, (text + taken)[k..] + more, o)
    ensures Exact(strict, text + (taken + more), o)
  {
    RegroupText(text, taken, more, k);
    DropExact(strict, (text + taken)[..k], (text + taken)[k..] + more, o);
  }

  lemma {:induction false} ScanExact(strict: bool, n: nat, dead: nat, text: string, chunks: Batches)
    requires dead + |text| <= MAX_AT_RESPONSE && dead <= n && (text != "" ==> !IsEol(text[0]))
    requires Good(strict, n, text + Bytes(chunks))
    ensures Exact(strict, text + Bytes(chunks), Scan(dead, text, chunks))
    decreases |Bytes(chunks)|, |chunks|, 1
  {
    var e := FirstEol(text);
    if text == PROMPT {
      assert "" + text == text;
      ThroughText(strict, n, "", text, Bytes(chunks));
      assert false;
    } else if e < |text| {
      SplitAt(text, e);
      LineExact(strict, n, text[..e], text[e], text[e + 1..], chunks);
    } else if dead + |text| == MAX_AT_RESPONSE {
      var m := DitchExact(strict, n, text, Bytes(chunks));
      assert "" + Bytes(chunks) == Bytes(chunks);
      FillMoreExact(strict, m, 0, "", chunks);
    } else {
      FillMoreExact(strict, n, dead, text, chunks);
    }
  }

  lemma {:induction false} FillMoreExact(strict: bool, n: nat, dead: nat, text: string, chunks: Batches)
    requires dead + |text| < MAX_AT_RESPONSE && dead <= n && EolFree(text)
    requires Good(strict, n, text + Bytes(chunks))
    ensures Exact(strict, text + Bytes(chunks), FillMore(dead, text, chunks))
    decreases |Bytes(chunks)|, |chunks|, 0
  {
    if chunks == [] || chunks[0] == "" {
      var left := if chunks == [] then [] else chunks[1..];
      assert Bytes(chunks) == Bytes(left);
      EofExact(strict, n, text, left);
    } else {
      var count := Min(|chunks[0]|, MAX_AT_RESPONSE - dead - |text|);
      var taken, left := chunks[0][..count], Remaining(chunks, count);
      var k := LeadingEols(text + taken);
      var rest := (text + taken)[k..];
      var o := Scan(dead + k, rest, left);
      assert FillMore(dead, text, chunks) == o by {
        FillMoreScans(dead, text, chunks, count);
      }
      ReadGood(strict, n, text, taken, k, Bytes(left));
      ScanExact(strict, n + k, dead + k, rest, left);
      ReadExact(strict, text, taken, k, Bytes(left), o);
    }
  }

  lemma ReadLineExact(strict: bool, text: string, chunks: Batches)
    requires |text| <= MAX_AT_RESPONSE && Good(strict, 0, text + Bytes(chunks))
    ensures Exact(strict, text + Bytes(chunks), ReadLine(text, chunks))
  {
    if text == "" {
      FillMoreExact(strict, 0, 0, "", chunks);
    } else {
      var k := LeadingEols(text);
      Split(text, k);
      Assoc(text[..k], text[k..], Bytes(chunks));
      DropGood(strict, 0, text[..k], text[k..] + Bytes(chunks));
      ScanExact(strict, k, 0, text[k..], chunks);
      DropExact(strict, text[..k], text[k..] + Bytes(chunks), Scan(0, text[k..], chunks));
    }
  }

  /** Chunking does not matter: whatever the batches, a whole run of readline() returns the
  lines of the bytes. */
  lemma {:induction false} RunIsLines(strict: bool, text: string, chunks: Batches)
    requires |text| <= MAX_AT_RESPONSE && Good(strict, 0, text + Bytes(chunks))
    ensures Run(text, chunks) == Lines("", text + Bytes(chunks))
    decreases |text| + |Bytes(chunks)|, |chunks|
  {
    ReadLineShrinks(text, chunks);
    ReadLineConserves(text, chunks);
    ReadLineExact(strict, text, chunks);
    match ReadLine(text, chunks)
    case Line(line, rest, left) =>
      RunIsLines(strict, rest, left);
    case Eof(rest, left) =>
      if chunks == [] {
        assert rest + Bytes(left) == rest && rest + "" == rest;
        ThroughText(strict, 0, "", rest, "");
      } else {
        RunIsLines(strict, rest, left);
      }
  }

  // ---------------------------------------------------------------- overflow

  /** The lines are disjoint slices of the stream, in order, each ended by a line end. */
  ghost predicate InOrder(lines: seq<string>, s: string) {
    lines == [] ||
    exists skipped, t, after ::
      && Parts(s, skipped, lines[0], t, after)
      && lines[0] != "" && EolFree(lines[0])
      && InOrder(lines[1..], after)
  }

  lemma InOrderBehind(lines: seq<string>, skipped: string, s: string)
    requires InOrder(lines, s)
    ensures InOrder(lines, skipped + s)
  {
    if lines != [] {
      var k, t, after :| Parts(s, k, lines[0], t, after) && lines[0] != "" && EolFree(lines[0]) && InOrder(lines[1..], after);
      Assoc(skipped, k, lines[0] + ([t] + after));
      assert Parts(skipped + s, skipped + k, lines[0], t, after);
    }
  }

  /** Overflow included, for every stream and every way to cut it up: nothing is returned
  twice, out of order, or made up. */
  lemma {:induction false} RunInOrder(text: string, chunks: Batches)
    requires |text| <= MAX_AT_RESPONSE
    ensures InOrder(Run(text, chunks), text + Bytes(chunks))
    decreases |text| + |Bytes(chunks)|, |chunks|
  {
    var whole, o := text + Bytes(chunks), ReadLine(text, chunks);
    ReadLineShrinks(text, chunks);
    ReadLineConserves(text, chunks);
    match o
    case Line(line, rest, left) =>
      RunInOrder(rest, left);
      var skipped, t :| Parts(whole, skipped, line, t, After(o));
      var lines := Run(text, chunks);
      assert lines[0] == line && lines[1..] == Run(rest, left);
      assert Parts(whole, skipped, lines[0], t, After(o));
    case Eof(rest, left) =>
      if chunks != [] {
        RunInOrder(rest, left);
        var skipped :| Ends(whole, skipped, After(o));
        InOrderBehind(Run(rest, left), skipped, After(o));
      }
    case Prompted(_) =>
  }

  /** The piece that is still open at the end of a stream. */
  function Tail(acc: string, s: string): string
    decreases |s|
  {
    if s == "" then acc else Tail(Grow(acc, s[0]), s[1..])
  }

  lemma {:induction false} LinesAppend(acc: string, a: string, b: string)
    ensures Lines(acc, a + b) == Lines(acc, a) + Lines(Tail(acc, a), b)
    decreases |a|
  {
    if a == "" {
      assert a + b == b;
    } else {
      assert (a + b)[1..] == a[1..] + b;
      LinesAppend(Grow(acc, a[0]), a[1..], b);
    }
  }

  function Total(lines: seq<string>): nat {
    if lines == [] then 0 else |lines[0]| + Total(lines[1..])
  }

  lemma {:induction false} TotalAppend(a: seq<string>, b: seq<string>)
    ensures Total(a + b) == Total(a) + Total(b)
  {
    if a == [] {
      assert a + b == b;
    } else {
      assert (a + b)[1..] == a[1..] + b;
      TotalAppend(a[1..], b);
    }
  }

  lemma TotalCons(line: string, lines: seq<string>)
    ensures Total([line] + lines) == |line| + Total(lines)
  {
    assert ([line] + lines)[1..] == lines;
  }

  lemma {:induction false} LongerPiece(a: string, b: string, s: string)
    ensures Total(Lines(a + b, s)) >= Total(Lines(b, s))
    decreases |s|
  {
    if s != "" {
      var c, rest := s[0], s[1..];
      if IsEol(c) {
        assert Lines(b, s) == (if b == "" then [] else [b]) + Lines("", rest);
        assert Lines(a + b, s) == (if a + b == "" then [] else [a + b]) + Lines("", rest);
        TotalCons(b, Lines("", rest));
        TotalCons(a + b, Lines("", rest));
        assert [] + Lines("", rest) == Lines("", rest);
      } else {
        Assoc(a, b, [c]);
        assert forall x: seq<string> :: [] + x == x;
        LongerPiece(a, b + [c], rest);
      }
    }
  }

  lemma SkippedLoses(skipped: string, s: string)
    ensures Total(Lines("", skipped + s)) >= Total(Lines("", s))
  {
    LinesAppend("", skipped, s);
    TotalAppend(Lines("", skipped), Lines(Tail("", skipped), s));
    LongerPiece(Tail("", skipped), "", s);
    assert Tail("", skipped) + "" == Tail("", skipped);
  }

  /** A run never returns more text than the lines of its bytes hold. */
  lemma {:induction false} NoGain(text: string, chunks: Batches)
    requires |text| <= MAX_AT_RESPONSE
    ensures Total(Run(text, chunks)) <= Total(Lines("", text + Bytes(chunks)))
    decreases |text| + |Bytes(chunks)|, |chunks|
  {
    var whole, o := text + Bytes(chunks), ReadLine(text, chunks);
    ReadLineShrinks(text, chunks);
    ReadLineConserves(text, chunks);
    match o
    case Line(line, rest, left) =>
      NoGain(rest, left);
      var skipped, t :| Parts(whole, skipped, line, t, After(o));
      Assoc(line, [t], After(o));
      ThroughLine(false, 0, line, t, After(o));
      SkippedLoses(skipped, line + [t] + After(o));
      TotalCons(line, Lines("", After(o)));
      TotalCons(line, Run(rest, left));
    case Eof(rest, left) =>
      if chunks != [] {
        NoGain(rest, left);
        var skipped :| Ends(whole, skipped, After(o));
        SkippedLoses(skipped, After(o));
      }
    case Prompted(_) =>
  }
}
