/** What every event makes of the radio state, and what the client of huawei_tgm/huawei-tgm.c is told. */
module RadioTold {
  import opened CText
  import opened RadioMachine
  import opened RadioInvariant
  import Sessions = RadioSessions

  lemma RunStep(events: seq<Event>, e: Event)
    ensures Run(events + [e]) == Step(Run(events), e)
  {
    assert (events + [e])[..|events|] == events;
  }

  // ---------------------------------------------------------------- told from the events

  /** The channel is marked closed: by its reader, or to dial, with no opening of the device since. */
  predicate Marked(events: seq<Event>) {
    events != [] &&
    var init, e := events[..|events| - 1], events[|events| - 1];
    var s := Run(init);
    if e == ReaderClosed || (e.Dial? && MayDialNow(s, e)) then true
    else !(e == OpenDevice(true) && s.pc == Opening) && Marked(init)
  }

  /** A dial is asked for with the SIM ready; it can succeed only on an open channel. */
  predicate MayDialNow(s: State, e: Event)
    requires e.Dial?
  {
    s.dialling == None && s.radio == SimReady && (e.ok ==> s.chan)
  }

  /** The device is open. */
  predicate DeviceOpen(events: seq<Event>) {
    events != [] &&
    var init, e := events[..|events| - 1], events[|events| - 1];
    var s := Run(init);
    if e == OpenDevice(true) && s.pc == Opening then true
    else e != ReaderClosed && !(e.Begin? && s.pc == Top && s.radio != Pppd) && DeviceOpen(init)
  }

  /** The AT channel is open. */
  predicate ChannelOpen(events: seq<Event>) {
    events != [] &&
    var init, e := events[..|events| - 1], events[|events| - 1];
    if e.AtOpen? && Run(init).pc == Opened then DeviceOpen(init) else e != ReaderClosed && ChannelOpen(init)
  }

  /** The dial that is half done. */
  function Dialling(events: seq<Event>): Option<bool> {
    if events == [] then None
    else
      var init, e := events[..|events| - 1], events[|events| - 1];
      if e.Dial? && MayDialNow(Run(init), e) then Some(e.ok) else if e == DialSet then None else Dialling(init)
  }

  predicate FlagsAfter(s: State, e: Event, s': State) {
    && (s'.closed <==>
          e == ReaderClosed || (e.Dial? && MayDialNow(s, e)) || (!(e == OpenDevice(true) && s.pc == Opening) && s.closed))
    && (s'.fd <==>
          (e == OpenDevice(true) && s.pc == Opening)
          || (e != ReaderClosed && !(e.Begin? && s.pc == Top && s.radio != Pppd) && s.fd))
    && (s'.chan <==> if e.AtOpen? && s.pc == Opened then s.fd else e != ReaderClosed && s.chan)
    && s'.dialling == if e.Dial? && MayDialNow(s, e) then Some(e.ok) else if e == DialSet then None else s.dialling
  }

  lemma OpenFlags(s: State, ok: bool)
    ensures FlagsAfter(s, OpenDevice(ok), MainStep(s, OpenDevice(ok)))
  {
  }

  lemma PlacesFlags(s: State, e: Event)
    requires e.Begin? || e.AtOpen? || e == WaitOver || e == Leave
    ensures FlagsAfter(s, e, MainStep(s, e))
  {
  }

  lemma SessionFlags(s: State, e: Event)
    requires e.Check? || e == Judge || e == Again || e == Finish || e == Reaped
    ensures FlagsAfter(s, e, MainStep(s, e))
  {
  }

  lemma MainFlags(s: State, e: Event)
    requires Sessions.OfMainLoop(e)
    ensures FlagsAfter(s, e, MainStep(s, e))
  {
    if e.OpenDevice? {
      OpenFlags(s, e.ok);
    } else if e.Begin? || e.AtOpen? || e == WaitOver || e == Leave {
      PlacesFlags(s, e);
    } else {
      SessionFlags(s, e);
    }
  }

  lemma OutsideFlags(s: State, e: Event)
    requires e == ReaderClosed || e == ChildDies
    ensures FlagsAfter(s, e, OutsideStep(LoopStep(s, e), e))
  {
  }

  lemma LoopFlags(s: State, e: Event)
    requires !Sessions.OfMainLoop(e) && e != ReaderClosed && e != ChildDies
    ensures OutsideStep(LoopStep(s, e), e) == LoopStep(s, e) && FlagsAfter(s, e, LoopStep(s, e))
  {
  }

  lemma OtherFlags(s: State, e: Event)
    requires !Sessions.OfMainLoop(e)
    ensures FlagsAfter(s, e, OutsideStep(LoopStep(s, e), e))
  {
    if e == ReaderClosed || e == ChildDies {
      OutsideFlags(s, e);
    } else {
      LoopFlags(s, e);
    }
  }

  lemma FlagsStep(s: State, e: Event)
    ensures FlagsAfter(s, e, Step(s, e))
  {
    if Sessions.OfMainLoop(e) {
      Sessions.MainAlone(s, e);
      MainFlags(s, e);
    } else {
      OthersAlone(s, e);
      OtherFlags(s, e);
    }
  }

  lemma OthersAlone(s: State, e: Event)
    requires !Sessions.OfMainLoop(e)
    ensures Step(s, e) == OutsideStep(LoopStep(s, e), e)
  {
  }

  /** In every run the flags are what the events say. */
  lemma {:induction false} FlagsAreTold(events: seq<Event>)
    ensures var s := Run(events);
      && (s.closed <==> Marked(events)) && (s.fd <==> DeviceOpen(events)) && (s.chan <==> ChannelOpen(events))
      && s.dialling == Dialling(events)
  {
    if events != [] {
      FlagsAreTold(events[..|events| - 1]);
      FlagsStep(Run(events[..|events| - 1]), events[|events| - 1]);
    }
  }

  // ---------------------------------------------------------------- the radio state

  /** setRadioState() while the channel is marked closed lets nothing in but off and the states of pppd. */
  function Clamped(marked: bool, wanted: RadioState): RadioState {
    if marked && (wanted == SimNotReady || wanted == SimLockedOrAbsent || wanted == SimReady) then Unavailable else wanted
  }

  /** What an event asks for, if it asks for a radio state. */
  function Asked(s: State, e: Event): Option<RadioState> {
    match e
    case Initialize => if s.dialling == None then Some(Unavailable) else None
    case Reset => if s.dialling == None then Some(Unavailable) else None
    case RadioOn => if s.dialling == None && s.chan then Some(SimNotReady) else None
    case Polled(ready) =>
      if s.dialling == None && s.chan && s.radio == SimNotReady then Some(if ready then SimReady else SimLockedOrAbsent)
      else None
    case DialSet => if s.dialling == None then None else if s.dialling.value then Some(Pppd) else Some(Unavailable)
    case ReaderClosed => if s.radio == Pppd || s.radio == PppdReady then None else Some(Unavailable)
    case OpenDevice(ok) => if s.pc == Opening && !ok then Some(Off) else None
    case Judge => if s.pc.Judged? && s.pc.success then Some(PppdReady) else None
    case Leave => if s.pc == Leaving then Some(Unavailable) else None
    case _ => None
  }

  predicate RadioAfter(s: State, e: Event, radio: RadioState) {
    radio == match Asked(s, e) case None => s.radio case Some(wanted) => Clamped(s.closed, wanted)
  }

  lemma MainRadio(s: State, e: Event)
    requires Sessions.OfMainLoop(e)
    ensures RadioAfter(s, e, MainStep(s, e).radio)
  {
  }

  lemma OtherRadio(s: State, e: Event)
    requires !Sessions.OfMainLoop(e)
    ensures RadioAfter(s, e, OutsideStep(LoopStep(s, e), e).radio)
  {
  }

  lemma RadioStep(s: State, e: Event)
    ensures RadioAfter(s, e, Step(s, e).radio)
  {
    if Sessions.OfMainLoop(e) {
      Sessions.MainAlone(s, e);
      MainRadio(s, e);
    } else {
      OthersAlone(s, e);
      OtherRadio(s, e);
    }
  }

  /** What the events make of the radio state, from unavailable at the start. */
  function RadioOf(events: seq<Event>): RadioState {
    if events == [] then Unavailable
    else
      var init := events[..|events| - 1];
      match Asked(Run(init), events[|events| - 1])
      case None => RadioOf(init)
      case Some(wanted) => Clamped(Marked(init), wanted)
  }

  /** In every run the radio state is the last one that was asked for, or unavailable if that was a state of the SIM and the
  channel marked closed. */
  lemma {:induction false} RadioIsAsked(events: seq<Event>)
    ensures Run(events).radio == RadioOf(events)
  {
    if events != [] {
      var init := events[..|events| - 1];
      RadioIsAsked(init);
      FlagsAreTold(init);
      RadioStep(Run(init), events[|events| - 1]);
    }
  }

  // ---------------------------------------------------------------- the place of the main loop

  /** Where an event takes the main loop, if it takes it anywhere. */
  function Taken(s: State, e: Event): Option<Pc> {
    match (s.pc, e)
    case (Top, Begin(_)) => Some(if s.radio == Pppd then Checking else Opening)
    case (Opening, OpenDevice(ok)) => if ok then Some(Opened) else None
    case (Opened, AtOpen(ok)) => Some(if ok then Waiting else Dead)
    case (Waiting, WaitOver) => if s.closed then Some(Top) else None
    case (Checking, Check(content)) => Some(Judged(s.child && Sessions.Up(content)))
    case (Judged(success), Judge) => Some(if success then Ended else Tested)
    case (Tested, Again) => Some(if !s.child || s.fails >= 20 then Ended else Checking)
    case (Ended, Finish) => Some(Reaping)
    case (Reaping, Reaped) => if s.child then None else Some(Leaving)
    case (Leaving, Leave) => Some(Top)
    case _ => None
  }

  predicate PlaceAfter(s: State, e: Event, pc: Pc) {
    pc == match Taken(s, e) case None => s.pc case Some(place) => place
  }

  lemma MainPlace(s: State, e: Event)
    requires Sessions.OfMainLoop(e)
    ensures PlaceAfter(s, e, MainStep(s, e).pc)
  {
  }

  lemma OtherPlace(s: State, e: Event)
    requires !Sessions.OfMainLoop(e)
    ensures OutsideStep(LoopStep(s, e), e).pc == s.pc
  {
  }

  lemma PlaceStep(s: State, e: Event)
    ensures PlaceAfter(s, e, Step(s, e).pc)
  {
    if Sessions.OfMainLoop(e) {
      Sessions.MainAlone(s, e);
      MainPlace(s, e);
    } else {
      OthersAlone(s, e);
      OtherPlace(s, e);
    }
  }

  /** In every run the main loop goes where the events take it, and only there. */
  lemma PlaceIsTaken(events: seq<Event>, e: Event)
    ensures Run([]).pc == Top && PlaceAfter(Run(events), e, Run(events + [e]).pc)
  {
    RunStep(events, e);
    PlaceStep(Run(events), e);
  }

  // ---------------------------------------------------------------- the client

  /** Everything that has been sent to the client on the present connection: the state when it is greeted or asks for it, and
  every change. */
  function Told(events: seq<Event>): seq<RadioState> {
    if events == [] then []
    else
      var init, e := events[..|events| - 1], events[|events| - 1];
      var s, radio := Run(init), Run(events).radio;
      if s.dialling == None && (e == Connect || e == HangUp) then (if e == Connect && s.client.Client? then Told(init) else [])
      else if s.dialling == None && (e == Greet || e == QueryState) then
        (if s.client.Client? then Told(init) + [s.radio] else [])
      else if radio != s.radio && s.client.Client? then Told(init) + [radio]
      else Told(init)
  }

  predicate ClientAfter(s: State, e: Event, s': State) {
    if s.dialling == None && e == HangUp then s'.client.NoClient?
    else if s.dialling == None && e == Connect && s.client.NoClient? then s'.client == Client(false, [])
    else
      && s'.client.Client? == s.client.Client?
      && (s.client.Client? ==>
            && s'.client.greeted == (s.client.greeted || (e == Greet && s.dialling == None))
            && s'.client.sent ==
               if s.dialling == None && (e == Greet || e == QueryState) then s.client.sent + [s.radio]
               else if s'.radio != s.radio then s.client.sent + [s'.radio]
               else s.client.sent)
  }

  /** setRadioState() tells of a change and of nothing else. */
  lemma SetRadioTells(s: State, wanted: RadioState)
    ensures var s' := SetRadio(s, wanted);
      s'.client == if s'.radio == s.radio then s.client else Tell(s.client, s'.radio)
  {
  }

  /** Only changes are told. */
  lemma ChangeTold(s: State, e: Event, s': State)
    requires !(e == Connect || e == HangUp || e == Greet || e == QueryState)
    requires s'.client == if s'.radio == s.radio then s.client else Tell(s.client, s'.radio)
    ensures ClientAfter(s, e, s')
  {
  }

  lemma MainClient(s: State, e: Event)
    requires Sessions.OfMainLoop(e)
    ensures var s' := MainStep(s, e); s'.client == if s'.radio == s.radio then s.client else Tell(s.client, s'.radio)
  {
    if e.OpenDevice? {
      SetRadioTells(s, Off);
    } else if e == Judge {
      SetRadioTells(Notify(s, Connected), PppdReady);
    } else if e == Leave {
      SetRadioTells(s, Unavailable);
    } else {
      MainStepKeepsClient(s, e);
    }
  }

  lemma OutsideClient(s: State, e: Event)
    requires e == ReaderClosed || e == ChildDies
    ensures ClientAfter(s, e, OutsideStep(LoopStep(s, e), e))
  {
  }

  lemma TalkClient(s: State, e: Event)
    requires e == Connect || e == HangUp || e == Greet || e == QueryState
    ensures OutsideStep(LoopStep(s, e), e) == LoopStep(s, e) && ClientAfter(s, e, LoopStep(s, e))
  {
  }

  lemma LoopClient(s: State, e: Event)
    requires !Sessions.OfMainLoop(e) && e != ReaderClosed && e != ChildDies
    requires !(e == Connect || e == HangUp || e == Greet || e == QueryState)
    ensures OutsideStep(LoopStep(s, e), e) == LoopStep(s, e)
    ensures var s' := LoopStep(s, e); s'.client == if s'.radio == s.radio then s.client else Tell(s.client, s'.radio)
  {
  }

  lemma ClientStep(s: State, e: Event)
    ensures ClientAfter(s, e, Step(s, e))
  {
    if Sessions.OfMainLoop(e) {
      Sessions.MainAlone(s, e);
      MainClient(s, e);
      ChangeTold(s, e, Step(s, e));
    } else {
      OthersAlone(s, e);
      if e == ReaderClosed || e == ChildDies {
        OutsideClient(s, e);
      } else if e == Connect || e == HangUp || e == Greet || e == QueryState {
        TalkClient(s, e);
      } else {
        LoopClient(s, e);
        ChangeTold(s, e, Step(s, e));
      }
    }
  }

  /** In every run a connected client has been told exactly that. */
  lemma {:induction false} ClientIsTold(events: seq<Event>)
    ensures Run(events).client.Client? ==> Run(events).client.sent == Told(events)
    ensures Run(events).client.NoClient? ==> Told(events) == []
  {
    if events != [] {
      ClientIsTold(events[..|events| - 1]);
      ClientStep(Run(events[..|events| - 1]), events[|events| - 1]);
    }
  }

  /** The states that a start, a reset, a locked SIM and a closing reader lead to, and what the client is told of them. */
  lemma ToldAfter(events: seq<Event>, e: Event)
    requires Run(events).client.Client? && Run(events).dialling == None
    requires e == Initialize || e == Reset || e == Polled(false) || e == ReaderClosed
    ensures var s, s' := Run(events), Run(events + [e]);
      && s'.client.Client?
      && s'.client.sent == (if s'.radio == s.radio then s.client.sent else s.client.sent + [s'.radio])
      && (e == Initialize || e == Reset ==> s'.radio == Unavailable)
      && (e == ReaderClosed ==> s'.radio == if s.radio == Pppd || s.radio == PppdReady then s.radio else Unavailable)
      && (e == Polled(false) ==>
            s'.radio == if s.chan && s.radio == SimNotReady then (if s.closed then Unavailable else SimLockedOrAbsent) else s.radio)
  {
    RunStep(events, e);
    ClientStep(Run(events), e);
    RadioStep(Run(events), e);
  }
}
