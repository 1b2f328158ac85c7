/** How huawei_tgm/atchannel.c classifies and routes the lines of the modem.

Route is processLine() on values.  Expected says, without state, what a command should be
answered with, given the lines that came while it was pending. */
module AtLines {
  import opened CText

  // Result codes: Annex B of 3GPP TS 27.007.
  const FINAL_ERRORS := [
    "ERROR", "+CMS ERROR:", "+CME ERROR:", "NO CARRIER", "NO ANSWER", "NO DIALTONE", "COMMAND NOT SUPPORT"]
  const FINAL_SUCCESSES := ["OK", "CONNECT"]
  const SMS_UNSOLICITEDS := ["+CMT:", "+CDS:", "+CBM:"]

  predicate StartsWithOne(line: string, prefixes: seq<string>) {
    exists i | 0 <= i < |prefixes| :: StartsWith(line, prefixes[i])
  }

  predicate IsFinalSuccess(line: string) {
    StartsWithOne(line, FINAL_SUCCESSES)
  }

  predicate IsFinalError(line: string) {
    StartsWithOne(line, FINAL_ERRORS)
  }

  predicate IsFinal(line: string) {
    IsFinalSuccess(line) || IsFinalError(line)
  }

  predicate IsSmsHeader(line: string) {
    StartsWithOne(line, SMS_UNSOLICITEDS)
  }

  predicate StartsWithDigit(line: string) {
    line != "" && '0' <= line[0] <= '9'
  }

  datatype CommandType = NoResult | Numeric | SingleLine | MultiLine

  /** sp_response.  The intermediate lines stand newest first, as the linked list has them. */
  datatype Response = Response(success: bool, final: Option<string>, intermediates: seq<string>)

  const EMPTY := Response(false, None, [])

  /** The state that s_commandmutex protects. */
  datatype Slot = Slot(kind: CommandType, prefix: Option<string>, pdu: Option<string>, response: Option<Response>)

  /** What clearPendingCommand() leaves. */
  predicate Cleared(s: Slot) {
    s.response == None && s.prefix == None && s.pdu == None
  }

  datatype Destination = Final | Intermediate | PromptReply(pdu: string) | Unsolicited

  predicate HasPrefix(line: string, prefix: Option<string>) {
    prefix.Some? && StartsWith(line, prefix.value)
  }

  /** Would a command of this kind take the line as an intermediate response? */
  predicate Matches(kind: CommandType, prefix: Option<string>, line: string) {
    match kind
    case NoResult => false
    case Numeric => StartsWithDigit(line)
    case SingleLine => HasPrefix(line, prefix)
    case MultiLine => HasPrefix(line, prefix)
  }

  /** Does one intermediate response close the slot for further ones? */
  predicate TakesOne(kind: CommandType) {
    kind == Numeric || kind == SingleLine
  }

  function AddIntermediate(s: Slot, line: string): Slot
    requires s.response.Some?
  {
    var r := s.response.value;
    s.(response := Some(r.(intermediates := [line] + r.intermediates)))
  }

  /** processLine(): the new state and where the line went. */
  function Route(s: Slot, line: string): (Slot, Destination) {
    if s.response == None then
      (s, Unsolicited)
    else
      var r := s.response.value;
      if IsFinalSuccess(line) then
        (s.(response := Some(r.(success := true, final := Some(line)))), Final)
      else if IsFinalError(line) then
        (s.(response := Some(r.(success := false, final := Some(line)))), Final)
      else if s.pdu.Some? && line == PROMPT then
        (s.(pdu := None), PromptReply(s.pdu.value))
      else match s.kind
        case NoResult => (s, Unsolicited)
        case Numeric =>
          if r.intermediates == [] && StartsWithDigit(line) then (AddIntermediate(s, line), Intermediate)
          else (s, Unsolicited)
        case SingleLine =>
          if r.intermediates == [] && HasPrefix(line, s.prefix) then (AddIntermediate(s, line), Intermediate)
          else (s, Unsolicited)
        case MultiLine =>
          if HasPrefix(line, s.prefix) then (AddIntermediate(s, line), Intermediate)
          else (s, Unsolicited)
  }

  function RouteAll(s: Slot, lines: seq<string>): Slot {
    if lines == [] then s
    else Route(RouteAll(s, lines[..|lines| - 1]), lines[|lines| - 1]).0
  }

  /** reverseIntermediates(), and the order the caller sees. */
  function Reversed(lines: seq<string>): (r: seq<string>)
    ensures |r| == |lines|
  {
    if lines == [] then [] else Reversed(lines[1..]) + [lines[0]]
  }

  // ---------------------------------------------------------------- the declarative answer

  /** The last final line, if there is one. */
  function LastFinal(lines: seq<string>): Option<string> {
    if lines == [] then None
    else if IsFinal(lines[|lines| - 1]) then Some(lines[|lines| - 1])
    else LastFinal(lines[..|lines| - 1])
  }

  /** The lines that are neither final nor the prompt that the PDU answers: every other line
  is offered to the command as an intermediate response. */
  function Offered(pdu: bool, lines: seq<string>): seq<string> {
    if lines == [] then []
    else if IsFinal(lines[0]) then Offered(pdu, lines[1..])
    else if pdu && lines[0] == PROMPT then Offered(false, lines[1..])
    else [lines[0]] + Offered(pdu, lines[1..])
  }

  function Matching(kind: CommandType, prefix: Option<string>, lines: seq<string>): seq<string> {
    if lines == [] then []
    else (if Matches(kind, prefix, lines[0]) then [lines[0]] else []) + Matching(kind, prefix, lines[1..])
  }

  /** The intermediate responses in order of arrival: all that match, or only the first. */
  function Wanted(kind: CommandType, prefix: Option<string>, pdu: bool, lines: seq<string>): seq<string> {
    var all := Matching(kind, prefix, Offered(pdu, lines));
    if TakesOne(kind) && all != [] then all[..1] else all
  }

  /** Does the PDU get its prompt among these lines? */
  predicate PromptCame(lines: seq<string>) {
    PROMPT in lines
  }

  /** A slot as at_send_command_full_nolock() sets it up. */
  function Fresh(kind: CommandType, prefix: Option<string>, pdu: Option<string>): Slot {
    Slot(kind, prefix, pdu, Some(EMPTY))
  }

  // ---------------------------------------------------------------- lemmas

  /** The result codes, one by one: a line is what it starts with, whatever comes behind. */
  lemma FinalSuccessIff(line: string)
    ensures IsFinalSuccess(line) <==> "OK" <= line || "CONNECT" <= line
  {
    assert FINAL_SUCCESSES[0] == "OK" && FINAL_SUCCESSES[1] == "CONNECT";
    assert StartsWith(line, FINAL_SUCCESSES[0]) <==> "OK" <= line;
    assert StartsWith(line, FINAL_SUCCESSES[1]) <==> "CONNECT" <= line;
  }

  lemma FinalErrorIff(line: string)
    ensures IsFinalError(line) <==>
            || "ERROR" <= line || "+CMS ERROR:" <= line || "+CME ERROR:" <= line || "NO CARRIER" <= line
            || "NO ANSWER" <= line || "NO DIALTONE" <= line || "COMMAND NOT SUPPORT" <= line
  {
    var all := FINAL_ERRORS;
    assert all[0] == "ERROR" && all[1] == "+CMS ERROR:" && all[2] == "+CME ERROR:" && all[3] == "NO CARRIER";
    assert all[4] == "NO ANSWER" && all[5] == "NO DIALTONE" && all[6] == "COMMAND NOT SUPPORT";
    assert StartsWith(line, all[0]) ==> IsFinalError(line);
    assert StartsWith(line, all[1]) ==> IsFinalError(line);
    assert StartsWith(line, all[2]) ==> IsFinalError(line);
    assert StartsWith(line, all[3]) ==> IsFinalError(line);
    assert StartsWith(line, all[4]) ==> IsFinalError(line);
    assert StartsWith(line, all[5]) ==> IsFinalError(line);
    assert StartsWith(line, all[6]) ==> IsFinalError(line);
  }

  lemma SmsHeaderIff(line: string)
    ensures IsSmsHeader(line) <==> "+CMT:" <= line || "+CDS:" <= line || "+CBM:" <= line
  {
    var all := SMS_UNSOLICITEDS;
    assert all[0] == "+CMT:" && all[1] == "+CDS:" && all[2] == "+CBM:";
    assert StartsWith(line, all[0]) ==> IsSmsHeader(line);
    assert StartsWith(line, all[1]) ==> IsSmsHeader(line);
    assert StartsWith(line, all[2]) ==> IsSmsHeader(line);
  }

  lemma DigitIff(line: string)
    ensures StartsWithDigit(line) <==> line != "" && line[0] in "0123456789"
  {
  }

  /** A line with the prefix of the command, whatever comes behind it, is its first answer; so is, for a numeric
  command, a line that starts with a digit. */
  lemma AnswerGoes(prefix: string, pdu: Option<string>, tail: string)
    requires var line := prefix + tail; !IsFinal(line) && line != "> "
    ensures Route(Fresh(SingleLine, Some(prefix), pdu), prefix + tail).1 == Intermediate
    ensures Route(Fresh(MultiLine, Some(prefix), pdu), prefix + tail).1 == Intermediate
    ensures Route(Fresh(Numeric, None, pdu), prefix + tail).1 ==
            if prefix + tail != "" && (prefix + tail)[0] in "0123456789" then Intermediate else Unsolicited
    ensures Route(Fresh(NoResult, None, pdu), prefix + tail).1 == Unsolicited
  {
    DigitIff(prefix + tail);
    assert StartsWith(prefix + tail, prefix);
  }

  /** For example. */
  lemma CsqGoes(pdu: Option<string>, tail: string)
    ensures Route(Fresh(SingleLine, Some("+CSQ:"), pdu), "+CSQ:" + tail).1 == Intermediate
    ensures Route(Fresh(SingleLine, Some("+CSQ:"), pdu), "+CME ERROR:" + tail).1 == Final
    ensures Route(Fresh(SingleLine, Some("+CSQ:"), pdu), "CONNECT" + tail).1 == Final
    ensures !Route(Fresh(SingleLine, Some("+CSQ:"), pdu), "+CME ERROR:" + tail).0.response.value.success
    ensures Route(Fresh(SingleLine, Some("+CSQ:"), pdu), "CONNECT" + tail).0.response.value.success
  {
    var line := "+CSQ:" + tail;
    assert line[0] == '+' && line[1] == 'C' && line[2] == 'S';
    FinalSuccessIff(line);
    FinalErrorIff(line);
    AnswerGoes("+CSQ:", pdu, tail);
    var failed := "+CME ERROR:" + tail;
    assert failed[0] == '+';
    FinalErrorIff(failed);
    FinalSuccessIff(failed);
    FinalSuccessIff("CONNECT" + tail);
  }

  lemma PromptIsNotFinal()
    ensures !IsFinal(PROMPT)
  {
    assert PROMPT[0] == '>';
    forall i | 0 <= i < |FINAL_ERRORS|
      ensures !StartsWith(PROMPT, FINAL_ERRORS[i])
    {
      assert FINAL_ERRORS[i] != "" && FINAL_ERRORS[i][0] != '>';
    }
    forall i | 0 <= i < |FINAL_SUCCESSES|
      ensures !StartsWith(PROMPT, FINAL_SUCCESSES[i])
    {
      assert FINAL_SUCCESSES[i] != "" && FINAL_SUCCESSES[i][0] != '>';
    }
  }

  lemma {:induction false} OfferedAppend(pdu: bool, a: seq<string>, b: seq<string>)
    ensures Offered(pdu, a + b) == Offered(pdu, a) + Offered(pdu && !PromptCame(a), b)
  {
    if a == [] {
      assert a + b == b;
    } else {
      assert (a + b)[1..] == a[1..] + b;
      PromptIsNotFinal();
      OfferedAppend(if a[0] == PROMPT then false else pdu, a[1..], b);
    }
  }

  lemma {:induction false} MatchingAppend(kind: CommandType, prefix: Option<string>, a: seq<string>, b: seq<string>)
    ensures Matching(kind, prefix, a + b) == Matching(kind, prefix, a) + Matching(kind, prefix, b)
  {
    if a == [] {
      assert a + b == b;
    } else {
      assert (a + b)[1..] == a[1..] + b;
      MatchingAppend(kind, prefix, a[1..], b);
    }
  }

  lemma OneLine(kind: CommandType, prefix: Option<string>, pdu: bool, line: string)
    ensures Offered(pdu, [line]) == if IsFinal(line) || (pdu && line == PROMPT) then [] else [line]
    ensures Matching(kind, prefix, [line]) == if Matches(kind, prefix, line) then [line] else []
  {
    assert [line][1..] == [];
  }

  /** One more line, on the declarative side. */
  lemma WantedStep(kind: CommandType, prefix: Option<string>, pdu: bool, lines: seq<string>, line: string)
    ensures var before := Wanted(kind, prefix, pdu, lines);
      Wanted(kind, prefix, pdu, lines + [line]) ==
      if IsFinal(line) || (pdu && !PromptCame(lines) && line == PROMPT) then before
      else if Matches(kind, prefix, line) && !(TakesOne(kind) && before != []) then before + [line]
      else before
  {
    var left := pdu && !PromptCame(lines);
    OfferedAppend(pdu, lines, [line]);
    MatchingAppend(kind, prefix, Offered(pdu, lines), Offered(left, [line]));
    OneLine(kind, prefix, left, line);
  }

  lemma ReversedFront(line: string, lines: seq<string>)
    ensures Reversed([line] + lines) == Reversed(lines) + [line]
  {
    assert ([line] + lines)[1..] == lines;
  }

  /** The slot of a pending command holds what the declarative side says about its lines: the
  final response is the last final line, `success` is its class, the intermediates, once put
  back in order, are the wanted ones, and the PDU is gone exactly if a prompt came. */
  ghost predicate Folded(s: Slot, kind: CommandType, prefix: Option<string>, pdu: Option<string>, lines: seq<string>) {
    && s.kind == kind && s.prefix == prefix && s.response.Some?
    && s.response.value.final == LastFinal(lines)
    && s.response.value.success == (LastFinal(lines).Some? && IsFinalSuccess(LastFinal(lines).value))
    && Reversed(s.response.value.intermediates) == Wanted(kind, prefix, pdu.Some?, lines)
    && s.pdu == if PromptCame(lines) then None else pdu
  }

  lemma LastFinalStep(lines: seq<string>, line: string)
    ensures LastFinal(lines + [line]) == if IsFinal(line) then Some(line) else LastFinal(lines)
  {
    var more := lines + [line];
    assert more[..|more| - 1] == lines && more[|more| - 1] == line;
  }

  lemma PromptCameStep(lines: seq<string>, line: string)
    ensures PromptCame(lines + [line]) == (PromptCame(lines) || line == PROMPT)
  {
  }

  lemma FinalFolds(s: Slot, kind: CommandType, prefix: Option<string>, pdu: Option<string>, lines: seq<string>, line: string)
    requires Folded(s, kind, prefix, pdu, lines) && IsFinal(line)
    ensures Folded(Route(s, line).0, kind, prefix, pdu, lines + [line])
  {
    LastFinalStep(lines, line);
    PromptCameStep(lines, line);
    PromptIsNotFinal();
    WantedStep(kind, prefix, pdu.Some?, lines, line);
  }

  lemma PromptFolds(s: Slot, kind: CommandType, prefix: Option<string>, pdu: Option<string>, lines: seq<string>)
    requires Folded(s, kind, prefix, pdu, lines) && s.pdu.Some?
    ensures Folded(Route(s, PROMPT).0, kind, prefix, pdu, lines + [PROMPT])
  {
    LastFinalStep(lines, PROMPT);
    PromptCameStep(lines, PROMPT);
    PromptIsNotFinal();
    WantedStep(kind, prefix, pdu.Some?, lines, PROMPT);
  }

  lemma OfferedFolds(s: Slot, kind: CommandType, prefix: Option<string>, pdu: Option<string>, lines: seq<string>, line: string)
    requires Folded(s, kind, prefix, pdu, lines) && !IsFinal(line) && !(s.pdu.Some? && line == PROMPT)
    ensures Folded(Route(s, line).0, kind, prefix, pdu, lines + [line])
  {
    var r := s.response.value;
    LastFinalStep(lines, line);
    PromptCameStep(lines, line);
    WantedStep(kind, prefix, pdu.Some?, lines, line);
    ReversedFront(line, r.intermediates);
    assert |Reversed(r.intermediates)| == |r.intermediates|;
    var takes := Matches(kind, prefix, line) && !(TakesOne(kind) && r.intermediates != []);
    assert Route(s, line).0 == if takes then AddIntermediate(s, line) else s;
  }

  lemma StepFolds(s: Slot, kind: CommandType, prefix: Option<string>, pdu: Option<string>, lines: seq<string>, line: string)
    requires Folded(s, kind, prefix, pdu, lines)
    ensures Folded(Route(s, line).0, kind, prefix, pdu, lines + [line])
  {
    if IsFinal(line) {
      FinalFolds(s, kind, prefix, pdu, lines, line);
    } else if s.pdu.Some? && line == PROMPT {
      PromptFolds(s, kind, prefix, pdu, lines);
    } else {
      OfferedFolds(s, kind, prefix, pdu, lines, line);
    }
  }

  /** Line routing is a declarative fold, however many lines come while the command is pending. */
  lemma {:induction false} RoutingIsFold(kind: CommandType, prefix: Option<string>, pdu: Option<string>, lines: seq<string>)
    ensures Folded(RouteAll(Fresh(kind, prefix, pdu), lines), kind, prefix, pdu, lines)
  {
    if lines != [] {
      var before, line := lines[..|lines| - 1], lines[|lines| - 1];
      RoutingIsFold(kind, prefix, pdu, before);
      StepFolds(RouteAll(Fresh(kind, prefix, pdu), before), kind, prefix, pdu, before, line);
      assert lines == before + [line];
    }
  }

  /** Where the line went, told from the lines before it alone: every line has exactly one
  destination, and the PDU is written at most once, for an exact prompt. */
  function Expected(kind: CommandType, prefix: Option<string>, pdu: Option<string>, before: seq<string>, line: string)
    : Destination
  {
    if IsFinal(line) then Final
    else if pdu.Some? && line == PROMPT && !PromptCame(before) then PromptReply(pdu.value)
    else if Matches(kind, prefix, line) && !(TakesOne(kind) && Wanted(kind, prefix, pdu.Some?, before) != []) then Intermediate
    else Unsolicited
  }

  lemma DestinationExpected(kind: CommandType, prefix: Option<string>, pdu: Option<string>, before: seq<string>, line: string)
    ensures Route(RouteAll(Fresh(kind, prefix, pdu), before), line).1 == Expected(kind, prefix, pdu, before, line)
  {
    RoutingIsFold(kind, prefix, pdu, before);
    var r := RouteAll(Fresh(kind, prefix, pdu), before).response.value;
    assert |Reversed(r.intermediates)| == |r.intermediates|;
  }

  /** A response has a final line exactly if one of the lines was final. */
  lemma {:induction false} LastFinalIs(lines: seq<string>)
    ensures LastFinal(lines).Some? ==> LastFinal(lines).value in lines && IsFinal(LastFinal(lines).value)
    ensures LastFinal(lines) == None <==> forall line | line in lines :: !IsFinal(line)
  {
    if lines != [] {
      var before, last := lines[..|lines| - 1], lines[|lines| - 1];
      assert forall line :: line in lines <==> line in before || line == last;
      LastFinalIs(before);
    }
  }

  /** What a numeric or single-line command gets is at most one line, of the right shape. */
  lemma {:induction false} MatchingFits(kind: CommandType, prefix: Option<string>, lines: seq<string>)
    ensures forall line | line in Matching(kind, prefix, lines) :: Matches(kind, prefix, line) && line in lines
  {
    if lines != [] {
      MatchingFits(kind, prefix, lines[1..]);
    }
  }
}
