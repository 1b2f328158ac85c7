/** When chunking matters: exactly which streams lose a line in some split. */
module LineBufferChunking {
  import opened Sequences
  import opened CText
  import opened LineBuffer
  import opened LineBufferRuns

  /** The same bytes in two different splits give the same lines. */
  lemma SplitsAgree(one: Batches, two: Batches)
    requires Bytes(one) == Bytes(two) && Good(true, 0, Bytes(one))
    ensures Run("", one) == Run("", two) == Lines("", Bytes(one))
  {
    assert "" + Bytes(one) == Bytes(one);
    RunIsLines(true, "", one);
    RunIsLines(true, "", two);
  }

  /** Every read() but the last one, which ends the run, brings bytes. */
  ghost predicate NonEmpty(chunks: Batches) {
    "" !in chunks
  }

  /** More batches behind the ones that are used change nothing but what is left. */
  ghost predicate Extends(o: Outcome, more: Batches, o': Outcome) {
    match o
    case Line(line, rest, left) => NonEmpty(left) && o' == Line(line, rest, left + more)
    case Eof(rest, left) => left == [] && more != [] && o' == Eof(rest, more[1..])
    case Prompted(_) => o'.Prompted?
  }

  lemma RemainingExtends(a: Batches, more: Batches, count: nat)
    requires a != [] && 0 < count <= |a[0]| && NonEmpty(a)
    ensures NonEmpty(Remaining(a, count))
    ensures Remaining(a + more, count) == Remaining(a, count) + more
  {
    if count == |a[0]| {
      assert (a + more)[1..] == a[1..] + more;
    } else {
      var part := [a[0][count..]];
      assert part[0] != "";
      assert part + (a + more)[1..] == part + a[1..] + more;
    }
  }

  lemma {:induction false} ScanExtends(dead: nat, text: string, a: Batches, more: Batches)
    requires dead + |text| <= MAX_AT_RESPONSE && NonEmpty(a) && more != [] && more[0] == ""
    ensures Extends(Scan(dead, text, a), more, Scan(dead, text, a + more))
    decreases |Bytes(a)|, |a|, 1
  {
    if text != PROMPT && FirstEol(text) == |text| {
      if dead + |text| == MAX_AT_RESPONSE {
        FillMoreExtends(0, "", a, more);
      } else {
        FillMoreExtends(dead, text, a, more);
      }
    }
  }

  lemma {:induction false} FillMoreExtends(dead: nat, text: string, a: Batches, more: Batches)
    requires dead + |text| < MAX_AT_RESPONSE && NonEmpty(a) && more != [] && more[0] == ""
    ensures Extends(FillMore(dead, text, a), more, FillMore(dead, text, a + more))
    decreases |Bytes(a)|, |a|, 0
  {
    if a == [] {
      assert a + more == more;
    } else {
      assert a[0] in a && (a + more)[0] == a[0];
      var count := Min(|a[0]|, MAX_AT_RESPONSE - dead - |text|);
      var got := text + a[0][..count];
      var k := LeadingEols(got);
      RemainingExtends(a, more, count);
      FillMoreScans(dead, text, a, count);
      FillMoreScans(dead, text, a + more, count);
      ScanExtends(dead + k, got[k..], Remaining(a, count), more);
    }
  }

  lemma ReadLineExtends(text: string, a: Batches, more: Batches)
    requires |text| <= MAX_AT_RESPONSE && NonEmpty(a) && more != [] && more[0] == ""
    ensures Extends(ReadLine(text, a), more, ReadLine(text, a + more))
  {
    if text == "" {
      FillMoreExtends(0, "", a, more);
    } else {
      ScanExtends(0, text[LeadingEols(text)..], a, more);
    }
  }

  // ---------------------------------------------------------------- the condition

  /* After a line has ended, at most `room` of the bytes behind it can have come with it; line ends
  among them do not stay in the buffer.  The others do, until they fill it.  So of the n line
  ends in front of the next line, between Least and Most take up room when it comes. */

  function Most(room: nat, n: nat): (d: nat)
    ensures n % MAX_AT_RESPONSE <= d < MAX_AT_RESPONSE
  {
    if n >= MAX_AT_RESPONSE && n % MAX_AT_RESPONSE < room then MAX_AT_RESPONSE - 1 else n % MAX_AT_RESPONSE
  }

  function Least(room: nat, n: nat): (d: nat)
    ensures d <= n % MAX_AT_RESPONSE
  {
    if n % MAX_AT_RESPONSE <= room then 0 else n % MAX_AT_RESPONSE - room
  }

  /** Every terminated line fits the buffer behind the most line ends that a split can leave there.
  n line ends and `acc` have come since the last line ended. */
  predicate Survives(room: nat, n: nat, acc: string, s: string)
    decreases |s|
  {
    if s == "" then true
    else if !IsEol(s[0]) then Survives(room, n, acc + [s[0]], s[1..])
    else if acc == "" then Survives(room, n + 1, "", s[1..])
    else
      Most(room, n) + |acc| < MAX_AT_RESPONSE &&
      Survives(MAX_AT_RESPONSE - 1 - |acc| - Least(room, n), 0, "", s[1..])
  }

  lemma {:induction false} SurvivesText(room: nat, n: nat, acc: string, text: string, s: string)
    requires EolFree(text)
    ensures Survives(room, n, acc, text + s) == Survives(room, n, acc + text, s)
    decreases |text|
  {
    if text == "" {
      assert text + s == s && acc + text == acc;
    } else {
      assert (text + s)[1..] == text[1..] + s;
      assert acc + [text[0]] + text[1..] == acc + text;
      SurvivesText(room, n, acc + [text[0]], text[1..], s);
    }
  }

  lemma {:induction false} SurvivesEols(room: nat, n: nat, eols: string, s: string)
    requires AllEols(eols)
    ensures Survives(room, n, "", eols + s) == Survives(room, n + |eols|, "", s)
    decreases |eols|
  {
    if eols == "" {
      assert eols + s == s;
    } else {
      assert (eols + s)[1..] == eols[1..] + s;
      SurvivesEols(room, n + 1, eols[1..], s);
    }
  }

  lemma SurvivesEnd(room: nat, n: nat, acc: string, s: string)
    requires acc != "" && s != "" && IsEol(s[0])
    ensures Survives(room, n, acc, s) ==
            (Most(room, n) + |acc| < MAX_AT_RESPONSE &&
             Survives(MAX_AT_RESPONSE - 1 - |acc| - Least(room, n), 0, "", s[1..]))
  {
  }

  lemma SurvivesLine(room: nat, n: nat, line: string, t: char, s: string)
    requires line != "" && EolFree(line) && IsEol(t)
    ensures Survives(room, n, "", line + ([t] + s)) ==
            (Most(room, n) + |line| < MAX_AT_RESPONSE &&
             Survives(MAX_AT_RESPONSE - 1 - |line| - Least(room, n), 0, "", s))
  {
    var ended := [t] + s;
    assert "" + line == line && ended[0] == t && ended[1..] == s;
    SurvivesText(room, n, "", line, ended);
    SurvivesEnd(room, n, line, ended);
  }

  /** A piece that does not fit survives only if it never ends. */
  lemma {:induction false} MisfitNeverEnds(room: nat, n: nat, acc: string, s: string)
    requires acc != "" && Most(room, n) + |acc| >= MAX_AT_RESPONSE && Survives(room, n, acc, s)
    ensures EolFree(s)
    decreases |s|
  {
    if s != "" {
      MisfitNeverEnds(room, n, acc + [s[0]], s[1..]);
    }
  }

  lemma {:induction false} EndlessSurvives(room: nat, n: nat, acc: string, s: string)
    requires EolFree(s)
    ensures Survives(room, n, acc, s) && Lines(acc, s) == []
    decreases |s|
  {
    if s != "" {
      EndlessSurvives(room, n, acc + [s[0]], s[1..]);
    }
  }

  // ---------------------------------------------------------------- what survives is read

  /** The stream is past n line ends, j of which did not stay, and `dead` of them are in the buffer. */
  predicate Placed(room: nat, n: nat, j: nat, dead: nat) {
    j <= room && j <= n && dead % MAX_AT_RESPONSE == (n - j) % MAX_AT_RESPONSE
  }

  lemma PlacedBetween(room: nat, n: nat, j: nat, dead: nat)
    requires Placed(room, n, j, dead) && dead < MAX_AT_RESPONSE
    ensures Least(room, n) <= dead <= Most(room, n)
  {
  }

  lemma PlacedOn(room: nat, n: nat, j: nat, dead: nat, k: nat)
    requires Placed(room, n, j, dead)
    ensures Placed(room, n + k, j, dead + k)
  {
  }

  ghost predicate Surviving(room: nat, n: nat, s: string) {
    Survives(room, n, "", s) && NoGreater(s)
  }

  /** The outcome is the next line, and what is left survives; end of file comes when no line is
  left. */
  ghost predicate Taken(whole: string, o: Outcome, room: nat) {
    match o
    case Line(line, rest, left) =>
      && NonEmpty(left) && |rest| <= room && Surviving(room, 0, After(o))
      && Lines("", whole) == [line] + Lines("", After(o))
    case Eof(rest, left) => left == [] && EolFree(rest) && NoGreater(rest) && Lines("", whole) == []
    case Prompted(_) => false
  }

  lemma NotPrompt(text: string, more: string)
    requires NoGreater(text + more)
    ensures text != PROMPT
  {
    assert PROMPT[0] == '>';
    assert forall c | c in text :: c in text + more;
  }

  lemma LineTaken(room: nat, n: nat, j: nat, dead: nat, line: string, t: char, rest: string, chunks: Batches) returns (room': nat)
    requires line != "" && EolFree(line) && IsEol(t) && dead + |line| + 1 + |rest| <= MAX_AT_RESPONSE
    requires NonEmpty(chunks) && Surviving(room, n, line + [t] + rest + Bytes(chunks)) && Placed(room, n, j, dead)
    ensures Taken(line + [t] + rest + Bytes(chunks), Line(line, rest, chunks), room')
  {
    var s := rest + Bytes(chunks);
    Assoc(line + [t], rest, Bytes(chunks));
    Assoc(line, [t], s);
    ThroughLine(false, 0, line, t, s);
    SurvivesLine(room, n, line, t, s);
    NoGreaterSuffix(line + [t], s);
    PlacedBetween(room, n, j, dead);
    room' := MAX_AT_RESPONSE - 1 - |line| - Least(room, n);
    assert After(Line(line, rest, chunks)) == s;
  }

  lemma EolsTaken(eols: string, s: string, o: Outcome, room: nat)
    requires AllEols(eols) && Taken(s, o, room)
    ensures Taken(eols + s, o, room)
  {
    ThroughEols(false, 0, eols, s);
  }

  /** Throwing a full buffer away is harmless in a stream that survives: the text in it never ends. */
  lemma DitchTaken(room: nat, n: nat, j: nat, dead: nat, text: string, s: string)
    requires text != "" && EolFree(text) && dead + |text| == MAX_AT_RESPONSE
    requires Surviving(room, n, text + s) && Placed(room, n, j, dead)
    ensures Surviving(0, 0, s) && Lines("", s) == [] && Lines("", text + s) == []
  {
    assert "" + text == text;
    PlacedBetween(room, n, j, dead);
    SurvivesText(room, n, "", text, s);
    MisfitNeverEnds(room, n, text, s);
    NoGreaterSuffix(text, s);
    EndlessSurvives(0, 0, "", s);
    EndlessSurvives(0, 0, "", text + s);
  }

  lemma {:induction false} ScanTakes(room: nat, n: nat, j: nat, dead: nat, text: string, chunks: Batches) returns (room': nat)
    requires dead + |text| <= MAX_AT_RESPONSE && (text != "" ==> !IsEol(text[0]))
    requires NonEmpty(chunks) && Surviving(room, n, text + Bytes(chunks)) && Placed(room, n, j, dead)
    ensures Taken(text + Bytes(chunks), Scan(dead, text, chunks), room')
    decreases |Bytes(chunks)|, |chunks|, 1
  {
    var e := FirstEol(text);
    NotPrompt(text, Bytes(chunks));
    if e < |text| {
      SplitAt(text, e);
      room' := LineTaken(room, n, j, dead, text[..e], text[e], text[e + 1..], chunks);
    } else if dead + |text| < MAX_AT_RESPONSE {
      room' := FillMoreTakes(room, n, j, dead, text, chunks);
    } else if text == "" {
      assert text + Bytes(chunks) == "" + Bytes(chunks);
      room' := FillMoreTakes(room, n, j, 0, "", chunks);
    } else {
      assert text[..|text|] == text && "" + Bytes(chunks) == Bytes(chunks);
      DitchTaken(room, n, j, dead, text, Bytes(chunks));
      room' := FillMoreTakes(0, 0, 0, 0, "", chunks);
    }
  }

  lemma {:induction false} FillMoreTakes(room: nat, n: nat, j: nat, dead: nat, text: string, chunks: Batches) returns (room': nat)
    requires dead + |text| < MAX_AT_RESPONSE && EolFree(text)
    requires NonEmpty(chunks) && Surviving(room, n, text + Bytes(chunks)) && Placed(room, n, j, dead)
    ensures Taken(text + Bytes(chunks), FillMore(dead, text, chunks), room')
    decreases |Bytes(chunks)|, |chunks|, 0
  {
    if chunks == [] {
      assert text + "" == text;
      EndlessSurvives(0, 0, "", text);
      room' := 0;
    } else {
      assert chunks[0] in chunks;
      var count := Min(|chunks[0]|, MAX_AT_RESPONSE - dead - |text|);
      var taken, left := chunks[0][..count], Remaining(chunks, count);
      var got := text + taken;
      var k := LeadingEols(got);
      var eols, rest := got[..k], got[k..];
      RegroupText(text, taken, Bytes(left), k);
      RemainingExtends(chunks, [], count);
      SurvivesEols(room, n, eols, rest + Bytes(left));
      NoGreaterSuffix(eols, rest + Bytes(left));
      PlacedOn(room, n, j, dead, k);
      FillMoreScans(dead, text, chunks, count);
      room' := ScanTakes(room, n + k, j, dead + k, rest, left);
      EolsTaken(eols, rest + Bytes(left), FillMore(dead, text, chunks), room');
    }
  }

  lemma ReadLineTakes(room: nat, text: string, chunks: Batches) returns (room': nat)
    requires |text| <= room && |text| <= MAX_AT_RESPONSE && NonEmpty(chunks) && Surviving(room, 0, text + Bytes(chunks))
    ensures Taken(text + Bytes(chunks), ReadLine(text, chunks), room')
  {
    if text == "" {
      room' := FillMoreTakes(room, 0, 0, 0, "", chunks);
    } else {
      var k := LeadingEols(text);
      var eols, rest := text[..k], text[k..];
      Split(text, k);
      Assoc(eols, rest, Bytes(chunks));
      SurvivesEols(room, 0, eols, rest + Bytes(chunks));
      NoGreaterSuffix(eols, rest + Bytes(chunks));
      room' := ScanTakes(room, k, k, 0, rest, chunks);
      EolsTaken(eols, rest + Bytes(chunks), ReadLine(text, chunks), room');
    }
  }

  /** Whatever the split, a stream that survives is read line by line. */
  lemma {:induction false} SurvivorsAreRead(room: nat, text: string, chunks: Batches)
    requires |text| <= room && |text| <= MAX_AT_RESPONSE && NonEmpty(chunks) && Surviving(room, 0, text + Bytes(chunks))
    ensures Run(text, chunks) == Lines("", text + Bytes(chunks))
    decreases |text| + |Bytes(chunks)|
  {
    ReadLineShrinks(text, chunks);
    var room' := ReadLineTakes(room, text, chunks);
    match ReadLine(text, chunks)
    case Line(line, rest, left) => SurvivorsAreRead(room', rest, left);
    case Eof(rest, left) =>
      if chunks != [] {
        EndlessRun(rest);
      }
  }

  lemma EndlessRun(text: string)
    requires |text| <= MAX_AT_RESPONSE && EolFree(text) && NoGreater(text)
    ensures Run(text, []) == []
  {
    assert text + "" == text;
    NotPrompt(text, "");
    LeadingEolsIs(text, 0);
    assert text[..|text|] == text;
    FirstEolIs(text, |text|);
  }

  /** The line ends that a stream starts with, its first line, and the rest. */
  lemma FirstSegment(s: string) returns (eols: string, line: string, t: char, rest: string)
    requires var text := s[LeadingEols(s)..]; FirstEol(text) < |text|
    ensures s == eols + (line + ([t] + rest))
    ensures AllEols(eols) && line != "" && EolFree(line) && IsEol(t) && |rest| < |s|
  {
    var k := LeadingEols(s);
    var text := s[k..];
    var e := FirstEol(text);
    eols, line, t, rest := s[..k], text[..e], text[e], text[e + 1..];
    Split(s, k);
    SplitAt(text, e);
    Assoc(line, [t], rest);
  }

  lemma TotalOfSegment(line: string, t: char, rest: string)
    requires EolFree(line) && IsEol(t)
    ensures Total(Lines("", line + ([t] + rest))) == |line| + Total(Lines("", rest))
  {
    if line == "" {
      assert line + ([t] + rest) == [t] + rest;
      ThroughEols(false, 0, [t], rest);
    } else {
      Assoc(line, [t], rest);
      ThroughLine(false, 0, line, t, rest);
      TotalCons(line, Lines("", rest));
    }
  }

  // ---------------------------------------------------------------- what does not survive is lost in some split

  /** A stream that does not survive has a terminated line. */
  lemma HasLine(room: nat, s: string)
    requires !Survives(room, 0, "", s)
    ensures var text := s[LeadingEols(s)..]; FirstEol(text) < |text|
  {
    var k := LeadingEols(s);
    var eols, text := s[..k], s[k..];
    Split(s, k);
    SurvivesEols(room, 0, eols, text);
    if FirstEol(text) == |text| {
      assert EolFree(text) by {
        assert text[..|text|] == text;
      }
      EndlessSurvives(room, k, "", text);
    }
  }

  /** Line ends that came with the line before are dropped before anything is read. */
  lemma FreshStart(eols: string, chunks: Batches)
    requires AllEols(eols) && |eols| <= MAX_AT_RESPONSE
    ensures ReadLine(eols, chunks) == FillMore(0, "", chunks)
  {
    assert eols[..|eols|] == eols;
    LeadingEolsIs(eols, |eols|);
    assert eols[|eols|..] == "" != PROMPT;
    assert Scan(0, "", chunks) == Fill(0, "", chunks);
  }

  /** A batch, or the part of one that fills the buffer, is scanned behind the line ends in front of it. */
  lemma BatchComes(eols: string, text: string, tail: string, more: Batches)
    requires AllEols(eols) && (text != "" ==> !IsEol(text[0])) && eols + text != ""
    requires if tail == "" then |eols| + |text| <= MAX_AT_RESPONSE else |eols| + |text| == MAX_AT_RESPONSE
    ensures FillMore(0, "", [eols + text + tail] + more) ==
            Scan(|eols|, text, if tail == "" then more else [tail] + more)
  {
    var batch := eols + text;
    var chunks := [batch + tail] + more;
    var count := Min(|chunks[0]|, MAX_AT_RESPONSE);
    assert chunks[0][..count] == batch && chunks[0][count..] == tail && chunks[1..] == more;
    assert "" + batch == batch && batch[..|eols|] == eols && batch[|eols|..] == text;
    LeadingEolsIs(batch, |eols|);
    FillMoreScans(0, "", chunks, count);
  }

  /** Line ends that fill the buffer leave no trace. */
  lemma BufferOfEols(eols: string, s: string, more: Batches)
    requires AllEols(eols) && |eols| == MAX_AT_RESPONSE && s != ""
    ensures FillMore(0, "", [eols + s] + more) == FillMore(0, "", [s] + more)
  {
    assert eols + "" + s == eols + s;
    BatchComes(eols, "", s, more);
    assert "" != PROMPT;
  }

  lemma OneBufferLess(n: nat)
    requires n >= MAX_AT_RESPONSE
    ensures (n - MAX_AT_RESPONSE) % MAX_AT_RESPONSE == n % MAX_AT_RESPONSE
  {
  }

  /** Only what is left over of many line ends is in the buffer when the text behind them comes. */
  lemma {:induction false} EolsWrap(eols: string, s: string, more: Batches) returns (left: string)
    requires AllEols(eols) && s != ""
    ensures AllEols(left) && |left| == |eols| % MAX_AT_RESPONSE
    ensures FillMore(0, "", [eols + s] + more) == FillMore(0, "", [left + s] + more)
    decreases |eols|
  {
    if |eols| < MAX_AT_RESPONSE {
      left := eols;
    } else {
      var full, rest := eols[..MAX_AT_RESPONSE], eols[MAX_AT_RESPONSE..];
      Split(eols, MAX_AT_RESPONSE);
      Assoc(full, rest, s);
      BufferOfEols(full, rest + s, more);
      OneBufferLess(|eols|);
      left := EolsWrap(rest, s, more);
    }
  }

  lemma ScanFinds(dead: nat, line: string, t: char, behind: string, more: Batches)
    requires EolFree(line) && IsEol(t) && dead + |line| + 1 + |behind| <= MAX_AT_RESPONSE
    ensures Scan(dead, line + ([t] + behind), more) == Line(line, behind, more)
  {
    var text := line + ([t] + behind);
    assert text[..|line|] == line && text[|line|] == t && text[|line| + 1..] == behind;
    FirstEolIs(text, |line|);
    assert !IsEol(PROMPT[0]) && !IsEol(PROMPT[1]);
  }

  /** A line that fits is read, with the line ends behind it that fit, too. */
  lemma LineComes(eols: string, line: string, t: char, behind: string, more: Batches)
    requires AllEols(eols) && line != "" && EolFree(line) && IsEol(t)
    requires |eols| + |line| + 1 + |behind| <= MAX_AT_RESPONSE
    ensures FillMore(0, "", [eols + (line + ([t] + behind))] + more) == Line(line, behind, more)
  {
    var text := line + ([t] + behind);
    assert text[0] == line[0] && eols + text + "" == eols + text;
    BatchComes(eols, text, "", more);
    ScanFinds(|eols|, line, t, behind, more);
  }

  /** A line that does not fit loses what is in the buffer when that is full. */
  lemma LineSpoils(eols: string, line: string, t: char, after: string, more: Batches) returns (kept: string)
    requires AllEols(eols) && |eols| < MAX_AT_RESPONSE && line != "" && EolFree(line) && IsEol(t)
    requires |eols| + |line| >= MAX_AT_RESPONSE && NoGreater(line)
    ensures EolFree(kept) && |kept| < |line|
    ensures FillMore(0, "", [eols + (line + ([t] + after))] + more) == FillMore(0, "", [kept + ([t] + after)] + more)
  {
    var used := MAX_AT_RESPONSE - |eols|;
    var lost := line[..used];
    kept := line[used..];
    var tail := kept + ([t] + after);
    Split(line, used);
    Assoc(lost, kept, [t] + after);
    Assoc(eols, lost, tail);
    BatchComes(eols, lost, tail, more);
    assert lost[..|lost|] == lost;
    FirstEolIs(lost, |lost|);
    NotPrompt(lost, kept);
  }

  /** One more segment in front of a bad split. */
  lemma SplitRuns(head: string, line: string, behind: string, chunks: Batches, more: Batches)
    requires |head| <= MAX_AT_RESPONSE && |behind| <= MAX_AT_RESPONSE
    requires ReadLine(head, chunks) == Line(line, behind, more)
    ensures Total(Run(head, chunks)) == |line| + Total(Run(behind, more))
  {
    TotalCons(line, Run(behind, more));
  }

  lemma TotalOfStream(eols: string, line: string, t: char, rest: string)
    requires AllEols(eols) && EolFree(line) && IsEol(t)
    ensures Total(Lines("", eols + (line + ([t] + rest)))) == |line| + Total(Lines("", rest))
  {
    ThroughEols(false, 0, eols, line + ([t] + rest));
    TotalOfSegment(line, t, rest);
  }

  /** How many of the line ends come with the line before: to leave the fewest, or the most, in the
  buffer for the next line. */
  function Ahead(room: nat, n: nat, most: bool): (j: nat)
    ensures j <= room && j <= n && (n - j) % MAX_AT_RESPONSE == if most then Most(room, n) else Least(room, n)
  {
    var m := n % MAX_AT_RESPONSE;
    if most then (if n >= MAX_AT_RESPONSE && m < room then m + 1 else 0) else Min(m, room)
  }

  /** A split of a stream that does not survive, with non-empty batches, in which text of its lines is
  lost.  `head` came with the line before. */
  lemma {:induction false} Spoil(room: nat, s: string) returns (head: string, chunks: Batches)
    requires room < MAX_AT_RESPONSE && !Survives(room, 0, "", s) && NoGreater(s)
    ensures s == head + Bytes(chunks) && AllEols(head) && |head| <= room && NonEmpty(chunks)
    ensures Total(Run(head, chunks)) < Total(Lines("", s))
    decreases |s|
  {
    HasLine(room, s);
    var eols, line, t, rest := FirstSegment(s);
    SurvivesEols(room, 0, eols, line + ([t] + rest));
    SurvivesLine(room, |eols|, line, t, rest);
    if Most(room, |eols|) + |line| >= MAX_AT_RESPONSE {
      head, chunks := SpoilHere(room, eols, line, t, rest);
    } else {
      NoGreaterSuffix(eols + line + [t], rest);
      var behind, more := Spoil(MAX_AT_RESPONSE - 1 - |line| - Least(room, |eols|), rest);
      head, chunks := SpoilLater(room, eols, line, t, behind, more);
    }
  }

  /** The line ends of a segment, cut so that `most` of them, or the fewest, are in the buffer when
  the text comes. */
  lemma CutEols(room: nat, eols: string, most: bool, s: string, more: Batches) returns (head: string, tail: string, left: string)
    requires room < MAX_AT_RESPONSE && AllEols(eols) && s != ""
    ensures eols == head + tail && AllEols(left) && AllEols(head) && |head| <= room
    ensures |left| == if most then Most(room, |eols|) else Least(room, |eols|)
    ensures ReadLine(head, [tail + s] + more) == FillMore(0, "", [left + s] + more)
  {
    var j := Ahead(room, |eols|, most);
    head, tail := eols[..j], eols[j..];
    Split(eols, j);
    left := EolsWrap(tail, s, more);
    FreshStart(head, [tail + s] + more);
  }

  lemma SpoilHere(room: nat, eols: string, line: string, t: char, rest: string) returns (head: string, chunks: Batches)
    requires room < MAX_AT_RESPONSE && AllEols(eols) && line != "" && EolFree(line) && IsEol(t) && NoGreater(line)
    requires Most(room, |eols|) + |line| >= MAX_AT_RESPONSE
    ensures var s := eols + (line + ([t] + rest));
      && s == head + Bytes(chunks) && AllEols(head) && |head| <= room && NonEmpty(chunks)
      && Total(Run(head, chunks)) < Total(Lines("", s))
  {
    var s := line + ([t] + rest);
    var tail, left;
    head, tail, left := CutEols(room, eols, true, s, []);
    chunks := [tail + s];
    assert chunks + [] == chunks;
    Assoc(head, tail, s);
    OneBatch(tail + s);
    var kept := LineSpoils(left, line, t, rest, []);
    var after := kept + ([t] + rest);
    assert [after] + [] == [after];
    SameRun(head, chunks, after);
    NoGain("", [after]);
    OneBatch(after);
    assert "" + after == after;
    TotalOfStream(eols, line, t, rest);
    TotalOfSegment(kept, t, rest);
  }

  lemma OneBatch(s: string)
    ensures Bytes([s]) == s
  {
    assert [s][1..] == [] && s + "" == s;
  }

  lemma SameRun(head: string, chunks: Batches, after: string)
    requires |head| <= MAX_AT_RESPONSE && chunks != [] && ReadLine(head, chunks) == FillMore(0, "", [after])
    ensures Run(head, chunks) == Run("", [after])
  {
    assert ReadLine("", [after]) == FillMore(0, "", [after]);
  }

  lemma SpoilLater(room: nat, eols: string, line: string, t: char, behind: string, more: Batches)
    returns (head: string, chunks: Batches)
    requires room < MAX_AT_RESPONSE && AllEols(eols) && line != "" && EolFree(line) && IsEol(t)
    requires Least(room, |eols|) + |line| + 1 + |behind| <= MAX_AT_RESPONSE && NonEmpty(more)
    ensures var s := eols + (line + ([t] + (behind + Bytes(more))));
      && s == head + Bytes(chunks) && AllEols(head) && |head| <= room && NonEmpty(chunks)
      && Total(Run(head, chunks)) == |line| + Total(Run(behind, more))
      && Total(Lines("", s)) == |line| + Total(Lines("", behind + Bytes(more)))
  {
    var batch, rest := line + ([t] + behind), behind + Bytes(more);
    var tail, left;
    head, tail, left := CutEols(room, eols, false, batch, more);
    chunks := [tail + batch] + more;
    LineComes(left, line, t, behind, more);
    SplitRuns(head, line, behind, chunks, more);
    TotalOfStream(eols, line, t, rest);
    assert chunks[1..] == more;
    Assoc([t], behind, Bytes(more));
    Assoc(line, [t] + behind, Bytes(more));
    Assoc(tail, batch, Bytes(more));
    Assoc(head, tail, batch + Bytes(more));
  }

  // ---------------------------------------------------------------- both together

  /** For a stream without '>', readline() returns the lines of the stream in every split into non-empty
  batches if and only if the stream survives. */
  lemma ExactInEverySplitIff(s: string)
    requires NoGreater(s)
    ensures (forall chunks | NonEmpty(chunks) && Bytes(chunks) == s :: Run("", chunks) == Lines("", s)) <==>
            Survives(0, 0, "", s)
  {
    assert "" + s == s;
    if Survives(0, 0, "", s) {
      forall chunks | NonEmpty(chunks) && Bytes(chunks) == s
        ensures Run("", chunks) == Lines("", s)
      {
        SurvivorsAreRead(0, "", chunks);
      }
    } else {
      var head, chunks := Spoil(0, s);
      assert head == "" && Bytes(chunks) == s && Run("", chunks) != Lines("", s);
    }
  }

  /** No 8192 line ends in a row; n have come. */
  predicate ShortGaps(n: nat, s: string)
    decreases |s|
  {
    n < MAX_AT_RESPONSE && (s == "" || ShortGaps(if IsEol(s[0]) then n + 1 else 0, s[1..]))
  }

  /** Without so many line ends in a row, a stream survives if and only if every terminated line, with
  the line ends in front of it, is shorter than the buffer. */
  lemma {:induction false} SurvivesIsFits(room: nat, gap: nat, n: nat, acc: string, s: string)
    requires ShortGaps(gap, s) && n < MAX_AT_RESPONSE && (acc == "" ==> n <= gap)
    ensures Survives(room, n, acc, s) == Fits(false, n + |acc|, acc, s)
    decreases |s|
  {
    if s != "" {
      var c, rest := s[0], s[1..];
      if !IsEol(c) {
        SurvivesIsFits(room, 0, n, acc + [c], rest);
      } else if acc == "" {
        assert ShortGaps(gap + 1, rest);
        SurvivesIsFits(room, gap + 1, n + 1, "", rest);
      } else if n + |acc| < MAX_AT_RESPONSE {
        SurvivesIsFits(MAX_AT_RESPONSE - 1 - |acc| - Least(room, n), gap + 1, 0, "", rest);
      }
    }
  }

  lemma FitsInEverySplitIff(s: string)
    requires NoGreater(s) && ShortGaps(0, s)
    ensures (forall chunks | NonEmpty(chunks) && Bytes(chunks) == s :: Run("", chunks) == Lines("", s)) <==>
            Fits(false, 0, "", s)
  {
    ExactInEverySplitIff(s);
    SurvivesIsFits(0, 0, 0, "", s);
  }

  /** For example: one line, ended by CR or LF, with CRs and LFs in front. */
  lemma OneLineIff(eols: string, line: string, t: char)
    requires (forall i | 0 <= i < |eols| :: eols[i] == '\r' || eols[i] == '\n') && (t == '\r' || t == '\n')
    requires line != "" && '\r' !in line && '\n' !in line && '>' !in line && |eols| < 8192
    ensures (forall chunks | NonEmpty(chunks) && Bytes(chunks) == eols + (line + [t]) :: Run("", chunks) == [line]) <==>
            |eols| + |line| < 8192
  {
    var s := eols + (line + [t]);
    assert EolFree(line) && NoGreater(s);
    assert line + [t] == line + ([t] + "") == line + [t] + "";
    SurvivesEols(0, 0, eols, line + [t]);
    SurvivesLine(0, |eols|, line, t, "");
    ThroughEols(false, 0, eols, line + [t]);
    ThroughLine(false, 0, line, t, "");
    assert [line] + Lines("", "") == [line];
    ExactInEverySplitIff(s);
  }
}
