/** The radio state of huawei_tgm/huawei-tgm.c and who changes it: the main loop, the callbacks and
requests of the event loop thread, and the AT reader when the channel closes.

A callback's AT result and the state update that follows from it are one event, and so is each
notification of the client; dialling has two updates and is two events.  An AT command can
succeed only while the channel is open. */
module RadioMachine {
  import opened CText

  datatype RadioState = Off | Unavailable | SimNotReady | SimLockedOrAbsent | SimReady | Pppd | PppdReady

  const MAX_PPP_FAIL_LIMIT := 20

  /** Where mainLoop() is. */
  datatype Pc =
    | Top
    | Opening               // while (fd < 0)
    | Opened                // s_closed = 0 is done, at_open() is not
    | Waiting               // waitForClose()
    | Dead                  // at_open() failed
    | Checking              // the head of the check loop, with pppd forked
    | Judged(success: bool) // checkPPPConnection() has returned
    | Tested                // the failure is counted
    | Ended                 // behind the check loop
    | Reaping               // waits until pppd is gone
    | Leaving               // behind the DISCONNECTED message

  datatype What = Connected | Failed | Disconnected

  /** An unsolicited message about pppd, and the session that sent it. */
  datatype Note = Note(session: nat, what: What)

  /** The connection of the client, and every radio state that was sent on it. */
  datatype Client = NoClient | Client(greeted: bool, sent: seq<RadioState>)

  datatype State = State(
    radio: RadioState,   // sState
    closed: bool,        // s_closed
    dialling: Option<bool>,  // requestDialDataNetwork() between s_closed = 1 and setRadioState(): is it PPPD?
    dials: nat,          // how often dialling has set the state to PPPD
    fd: bool,            // fd >= 0
    chan: bool,          // the AT channel is open
    pc: Pc,
    session: nat,        // how many sessions of pppd have begun
    child: bool,         // pppd_process_id >= 0
    fails: nat,          // pppd_fail_times
    checks: nat,         // checks so far in this session
    notes: seq<Note>,
    client: Client)

  const INITIAL := State(Unavailable, false, None, 0, false, false, Top, 0, false, 0, 0, [], NoClient)

  datatype Event =
    // the event loop thread
    | Initialize                     // the start of initializeCallback()
    | RadioOn                        // isRadioOn() > 0 in initializeCallback() or getSIMStatus()
    | Polled(ready: bool)            // pollSIMState() with an answer
    | Dial(ok: bool)                 // requestDialDataNetwork() up to s_closed = 1; ok is err >= 0
    | DialSet                        // ... and its setRadioState()
    | Reset                          // requestResetStack()
    | Connect | Greet | QueryState | HangUp
    // the AT reader
    | ReaderClosed                   // onATReaderClosed()
    // the main loop
    | Begin(forked: bool)
    | OpenDevice(ok: bool)
    | AtOpen(ok: bool)
    | WaitOver
    | Check(content: Option<string>) // of the state file of ppp0; None: it cannot be opened
    | Judge | Again | Finish | Reaped | Leave
    // pppd
    | ChildDies

  function Tell(c: Client, radio: RadioState): Client {
    if c.NoClient? then c else c.(sent := c.sent + [radio])
  }

  /** setRadioState(); the notification carries the new state. */
  function SetRadio(s: State, wanted: RadioState): State {
    var radio := if s.closed && wanted != Pppd && wanted != Off && wanted != PppdReady then Unavailable else wanted;
    s.(radio := radio, client := if radio != s.radio then Tell(s.client, radio) else s.client)
  }

  function Notify(s: State, what: What): State {
    s.(notes := s.notes + [Note(s.session, what)])
  }

  /** The second half of dialling. */
  function OnDialSet(s: State, ok: bool): State {
    SetRadio(s, if ok then Pppd else Unavailable).(dialling := None, dials := if ok then s.dials + 1 else s.dials)
  }

  function OnReaderClosed(s: State): State {
    var s := s.(closed := true, chan := false, fd := false);
    if s.radio != Pppd && s.radio != PppdReady then SetRadio(s, Unavailable) else s
  }

  /** The top of the main loop. */
  function OnBegin(s: State, forked: bool): State {
    if s.radio == Pppd then
      s.(pc := Checking, session := s.session + 1, child := forked, fails := 0, checks := 0)
    else
      s.(pc := Opening, fd := false)
  }

  function OnOpenDevice(s: State, ok: bool): State {
    if ok then s.(fd := true, closed := false, pc := Opened) else SetRadio(s, Off)
  }

  /** Does the state file say that the interface is up? */
  predicate SaysUp(content: Option<string>) {
    content.Some? && (StartsWith(content.value, "unknown") || StartsWith(content.value, "up"))
  }

  /** checkPPPConnection() */
  function OnCheck(s: State, content: Option<string>): State {
    var s := s.(checks := s.checks + 1);
    if !s.child then s.(fails := MAX_PPP_FAIL_LIMIT, pc := Judged(false))
    else if content == Some("") then s.(fails := s.fails + 1, pc := Judged(false))
    else s.(pc := Judged(SaysUp(content)))
  }

  function OnJudge(s: State, success: bool): State {
    if success then SetRadio(Notify(s, Connected), PppdReady).(fails := 0, pc := Ended)
    else s.(fails := s.fails + 1, pc := Tested)
  }

  /** pppd is gone, or the limit is reached, or there is another check. */
  function OnAgain(s: State): State {
    s.(pc := if s.child && s.fails < MAX_PPP_FAIL_LIMIT then Checking else Ended)
  }

  function OnFinish(s: State): State {
    (if s.fails >= MAX_PPP_FAIL_LIMIT then Notify(s, Failed) else s).(pc := Reaping)
  }

  function OnReaped(s: State): State {
    (if s.radio == PppdReady then Notify(s, Disconnected) else s).(pc := Leaving)
  }

  /** What the event loop thread does; while it dials it does nothing else. */
  function LoopStep(s: State, e: Event): State {
    if s.dialling.Some? then
      if e == DialSet then OnDialSet(s, s.dialling.value) else s
    else
      match e
      case Initialize => SetRadio(s, Unavailable)
      case RadioOn => if s.chan then SetRadio(s, SimNotReady) else s
      case Polled(ready) =>
        if s.chan && s.radio == SimNotReady then SetRadio(s, if ready then SimReady else SimLockedOrAbsent) else s
      case Dial(ok) =>
        if s.radio == SimReady && (ok ==> s.chan) then s.(closed := true, dialling := Some(ok)) else s
      case Reset => SetRadio(s, Unavailable)
      case Connect => if s.client.NoClient? then s.(client := Client(false, [])) else s
      case Greet =>
        if s.client.Client? then s.(client := Tell(s.client, s.radio).(greeted := true)) else s
      case QueryState => s.(client := Tell(s.client, s.radio))
      case HangUp => s.(client := NoClient)
      case _ => s
  }

  /** What the AT reader and pppd do. */
  function OutsideStep(s: State, e: Event): State {
    match e
    case ReaderClosed => OnReaderClosed(s)
    case ChildDies => s.(child := false)
    case _ => s
  }

  /** What the main loop does. */
  function MainStep(s: State, e: Event): State {
    match e
    case Begin(forked) => if s.pc == Top then OnBegin(s, forked) else s
    case OpenDevice(ok) => if s.pc == Opening then OnOpenDevice(s, ok) else s
    case AtOpen(ok) => if s.pc == Opened then s.(chan := s.fd, pc := if ok then Waiting else Dead) else s
    case WaitOver => if s.pc == Waiting && s.closed then s.(pc := Top) else s
    case Check(content) => if s.pc == Checking then OnCheck(s, content) else s
    case Judge => if s.pc.Judged? then OnJudge(s, s.pc.success) else s
    case Again => if s.pc == Tested then OnAgain(s) else s
    case Finish => if s.pc == Ended then OnFinish(s) else s
    case Reaped => if s.pc == Reaping && !s.child then OnReaped(s) else s
    case Leave => if s.pc == Leaving then SetRadio(s, Unavailable).(pc := Top) else s
    case _ => s
  }

  /** An event that cannot happen in a state leaves it alone. */
  function Step(s: State, e: Event): State {
    MainStep(OutsideStep(LoopStep(s, e), e), e)
  }

  function Run(events: seq<Event>): State {
    if events == [] then INITIAL else Step(Run(events[..|events| - 1]), events[|events| - 1])
  }
}
