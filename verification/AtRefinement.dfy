/** at_send_command_full_nolock() of huawei_tgm/atchannel.c on the state it shares with the reader,
section by section: each section does in place what one event of AtProtocol does on values. */
module AtRefinement {
  import opened CText
  import opened AtLines
  import opened AtChannels
  import opened AtProtocol

  /** The channel is in the state of the protocol. */
  ghost predicate Tied(c: ATChannel, s: State)
    reads c, c.response, if c.response != null then c.response.nodes else []
  {
    c.Valid() && c.Value() == s.slot && c.unsolicited == s.unsolicited && c.closed == s.closed
  }

  /** What a call came back with last. */
  ghost predicate CameBack(s: State, s': State, error: Error) {
    |s'.calls| == |s.calls| + 1 && s'.calls[|s.calls|].error == error && s'.waiting == None
  }

  /** The reader's section for one line. */
  method OnLine(c: ATChannel, line: string, ghost s: State)
    requires Tied(c, s)
    modifies c, c.response
    ensures Tied(c, Step(s, Line(line)))
  {
    c.ProcessLine(line);
  }

  /** The issuer's first section: refuse, or write and install.  None: it waits now. */
  method Issues(c: ATChannel, command: Command, open: bool, written: bool, ghost s: State)
    returns (error: Option<Error>)
    requires Tied(c, s) && s.waiting == None
    modifies c
    ensures Tied(c, Step(s, Issue(command, open, written)))
    ensures error == None ==> Step(s, Issue(command, open, written)).waiting == Some(command)
    ensures error.Some? ==> CameBack(s, Step(s, Issue(command, open, written)), error.value)
  {
    if c.response != null {
      error := Some(CommandPending);
    } else if !open || c.closed {
      error := Some(ChannelClosed);
    } else if !written {
      error := Some(Generic);
    } else {
      c.Install(command.kind, command.prefix, command.pdu);
      return None;
    }
    c.ClearPendingCommand();
  }

  /** The issuer gives up. */
  method TimesOut(c: ATChannel, ghost s: State)
    requires Tied(c, s) && s.waiting.Some? && s.waiting.value.timed
    modifies c
    ensures Tied(c, Step(s, Timeout)) && CameBack(s, Step(s, Timeout), TimedOut)
  {
    c.ClearPendingCommand();
  }

  /** The issuer's section behind the wait, and the wrapper's check. */
  method ComesBack(c: ATChannel, command: Command, ghost s: State) returns (error: Error, out: ATResponse?)
    requires Tied(c, s) && s.waiting == Some(command)
    requires c.response != null && (c.response.finalResponse.Some? || c.closed)
    modifies c, c.response, c.response.nodes
    ensures Tied(c, Step(s, Wake)) && CameBack(s, Step(s, Wake), error)
    ensures var r := Step(s, Wake).calls[|s.calls|];
      if out == null then r.out == None else out.Valid() && r.out == Some(out.Value())
  {
    out := c.HandOver(command.want);
    error := if c.closed then ChannelClosed else Ok;
    if TakesOne(command.kind) && error == Ok && out != null && out.success && out.intermediates == null {
      error, out := InvalidResponse, null;
    }
  }

  /** at_close(): the section under the lock.  The issuer, if it waits, is woken. */
  method Closes(c: ATChannel, ghost s: State)
    requires Tied(c, s)
    modifies c`closed, c`signalled
    ensures Tied(c, Step(s, Close)) && c.signalled
  {
    c.Close();
  }

  /** at_open() */
  method Opens(c: ATChannel, ghost s: State)
    requires Tied(c, s)
    modifies c`closed, c`response, c`prefix, c`pdu
    ensures Tied(c, Step(s, Open))
  {
    c.Open();
  }

  /** The condition of the wait, looked at after a wake-up; `done` ends it. */
  method Looks(c: ATChannel, ghost s: State) returns (done: bool)
    requires Tied(c, s) && s.waiting.Some? && c.response != null
    ensures done <==> |Step(s, Wake).calls| == |s.calls| + 1
  {
    done := c.response.finalResponse.Some? || c.closed;
  }
}
