/** That plays of AtCrossTalk get somewhere: every script can be played to its end. */
module AtPlayThrough {
  import opened CText
  import opened AtLines
  import opened AtProtocol
  import opened AtCrossTalk

  /** Nothing is going on. */
  ghost predicate Resting(t: Talk) {
    t.phase == Idle && t.wire == [] && t.held == None
  }

  /** The command waits, and what the modem has sent has been read. */
  ghost predicate Answering(t: Talk, n: nat) {
    t.phase == Waiting && t.wire == [] && t.held == None && t.next == n
  }

  lemma PlayStep(script: seq<Exchange>, hs: seq<Happening>, h: Happening)
    requires Polite(script, hs) && PoliteStep(Play(script, hs), h)
    ensures Play(script, hs + [h]) == Happen(script, Play(script, hs), h) && Polite(script, hs + [h])
  {
    assert (hs + [h])[..|hs|] == hs;
  }

  /** The command is written and its response installed. */
  lemma Starts(script: seq<Exchange>, hs: seq<Happening>) returns (more: seq<Happening>)
    requires Polite(script, hs) && Resting(Play(script, hs)) && Play(script, hs).next < |script|
    ensures Polite(script, more) && Answering(Play(script, more), Play(script, hs).next)
    ensures Play(script, more).todo == script[Play(script, hs).next].block
  {
    PlayStep(script, hs, Write);
    PlayStep(script, hs + [Write], Install);
    more := hs + [Write] + [Install];
  }

  /** The modem sends its next line, and it is read. */
  lemma OneLine(script: seq<Exchange>, hs: seq<Happening>, n: nat) returns (more: seq<Happening>)
    requires Polite(script, hs) && Answering(Play(script, hs), n) && Play(script, hs).todo != []
    requires !IsSmsHeader(Play(script, hs).todo[0])
    ensures Polite(script, more) && Answering(Play(script, more), n)
    ensures Play(script, more).todo == Play(script, hs).todo[1..]
  {
    var t := Play(script, hs);
    PlayStep(script, hs, Sends);
    var sent := Play(script, hs + [Sends]);
    assert sent == t.(wire := [Reply(t.todo[0])], todo := t.todo[1..]);
    assert MayRead(sent);
    PlayStep(script, hs + [Sends], Reads);
    assert [Reply(t.todo[0])][1..] == [];
    more := hs + [Sends] + [Reads];
  }

  lemma {:induction false} AllLines(script: seq<Exchange>, hs: seq<Happening>, n: nat, todo: seq<string>)
    returns (more: seq<Happening>)
    requires Polite(script, hs) && Answering(Play(script, hs), n) && todo == Play(script, hs).todo
    requires forall i | 0 <= i < |todo| :: !IsSmsHeader(todo[i])
    ensures Polite(script, more) && Answering(Play(script, more), n) && Play(script, more).todo == []
    decreases |todo|
  {
    if todo == [] {
      more := hs;
    } else {
      more := OneLine(script, hs, n);
      more := AllLines(script, more, n, todo[1..]);
    }
  }

  lemma WakesUp(script: seq<Exchange>, t: Talk, n: nat)
    requires ProperScript(script) && AtCrossTalk.Inv(script, t) && n < |script| && Answering(t, n) && t.todo == []
    ensures var t' := Happen(script, t, Wakes); Resting(t') && t'.next == n + 1
  {
    var x := script[n];
    assert t.got + (Replies([]) + []) == t.got == x.block;
    assert Proper(x) && LastFinal(x.block).Some?;
  }

  /** The issuer wakes up. */
  lemma Finishes(script: seq<Exchange>, hs: seq<Happening>, n: nat)
    requires ProperScript(script) && Polite(script, hs) && n < |script|
    requires Answering(Play(script, hs), n) && Play(script, hs).todo == []
    ensures Polite(script, hs + [Wakes]) && Resting(Play(script, hs + [Wakes])) && Play(script, hs + [Wakes]).next == n + 1
  {
    PlayKeepsInv(script, hs);
    PlayStep(script, hs, Wakes);
    WakesUp(script, Play(script, hs), n);
  }

  lemma OneExchange(script: seq<Exchange>, hs: seq<Happening>) returns (more: seq<Happening>)
    requires ProperScript(script) && Polite(script, hs) && Resting(Play(script, hs)) && Play(script, hs).next < |script|
    ensures Polite(script, more) && Resting(Play(script, more)) && Play(script, more).next == Play(script, hs).next + 1
  {
    var n := Play(script, hs).next;
    assert Proper(script[n]);
    more := Starts(script, hs);
    more := AllLines(script, more, n, script[n].block);
    Finishes(script, more, n);
    more := more + [Wakes];
  }

  /** Every script can be played until all its commands have been answered, each from its own block. */
  lemma {:induction false} PlaysThrough(script: seq<Exchange>, n: nat) returns (hs: seq<Happening>)
    requires ProperScript(script) && n <= |script|
    ensures Polite(script, hs) && Resting(Play(script, hs))
    ensures var calls := Play(script, hs).state.calls;
      |calls| == n && forall k | 0 <= k < n :: Right(script[k], calls[k])
  {
    if n == 0 {
      hs := [];
    } else {
      hs := PlaysThrough(script, n - 1);
      PlayKeepsInv(script, hs);
      hs := OneExchange(script, hs);
    }
    PlayKeepsInv(script, hs);
  }

  // ---------------------------------------------------------------- for example

  /** at_send_command_singleline("AT+CSQ", "+CSQ:", ...), and what the modem answers it with. */
  function Csq(block: seq<string>): Exchange {
    Exchange(Command(SingleLine, Some("+CSQ:"), None, true, true), block)
  }

  lemma CsqLines(tail: string)
    ensures var line := "+CSQ:" + tail; !IsFinal(line) && !IsSmsHeader(line) && Matches(SingleLine, Some("+CSQ:"), line)
    ensures var line := "+CME ERROR:" + tail; IsFinal(line) && !IsFinalSuccess(line) && !IsSmsHeader(line)
    ensures IsFinal("OK") && IsFinalSuccess("OK") && !IsSmsHeader("OK")
  {
    var line, failed := "+CSQ:" + tail, "+CME ERROR:" + tail;
    assert line[..3] == "+CS" && line[..2] == "+C";
    assert line[2] == 'S' && failed[2] == 'M' && failed[3] == 'E' && failed[0] == '+';
    FinalSuccessIff(line);
    FinalErrorIff(line);
    SmsHeaderIff(line);
    FinalSuccessIff(failed);
    FinalErrorIff(failed);
    SmsHeaderIff(failed);
    FinalSuccessIff("OK");
    SmsHeaderIff("OK");
  }

  lemma CsqAnswer(tail: string)
    ensures Proper(Csq(["+CSQ:" + tail, "OK"])) && Proper(Csq(["+CME ERROR:" + tail]))
    ensures Answer(Csq([]).command, ["+CSQ:" + tail, "OK"]) == Response(true, Some("OK"), ["+CSQ:" + tail])
    ensures Answer(Csq([]).command, ["+CME ERROR:" + tail]) == Response(false, Some("+CME ERROR:" + tail), [])
  {
    CsqLines(tail);
    var line, failed := "+CSQ:" + tail, "+CME ERROR:" + tail;
    assert [line, "OK"][1..] == ["OK"] && [line] + [] == [line] && ["OK"][1..] == [] && [failed][1..] == [];
    assert Offered(false, [line, "OK"]) == [line] + Offered(false, ["OK"]) == [line];
    assert Matching(SingleLine, Some("+CSQ:"), [line]) == [line];
  }

  /** The signal quality is asked for twice; the first time the modem knows it, the second time it does not. */
  lemma CsqIsAnswered(tail: string, code: string) returns (hs: seq<Happening>)
    ensures Polite([Csq(["+CSQ:" + tail, "OK"]), Csq(["+CME ERROR:" + code])], hs)
    ensures var calls := Play([Csq(["+CSQ:" + tail, "OK"]), Csq(["+CME ERROR:" + code])], hs).state.calls;
      && |calls| == 2 && calls[0].error == Ok && calls[1].error == Ok
      && calls[0].out == Some(Response(true, Some("OK"), ["+CSQ:" + tail]))
      && calls[1].out == Some(Response(false, Some("+CME ERROR:" + code), []))
  {
    var script := [Csq(["+CSQ:" + tail, "OK"]), Csq(["+CME ERROR:" + code])];
    CsqAnswer(tail);
    CsqAnswer(code);
    hs := PlaysThrough(script, 2);
    var calls := Play(script, hs).state.calls;
    assert Right(script[0], calls[0]) && Right(script[1], calls[1]);
  }
}
