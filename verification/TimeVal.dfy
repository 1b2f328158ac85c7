/** struct timeval and the macros of libtgm/tgm_event.cpp. */
module TimeVals {

  datatype TimeVal = TimeVal(sec: int, usec: int) {

    predicate Normal() {
      0 <= usec < 1000000
    }

    function Micros(): int {
      1000000 * sec + usec
    }

    /** timercmp(this, t, <) */
    predicate Less(t: TimeVal) {
      if sec == t.sec then usec < t.usec else sec < t.sec
    }

    /** timeradd */
    function Add(t: TimeVal): TimeVal {
      if usec + t.usec >= 1000000 then TimeVal(sec + t.sec + 1, usec + t.usec - 1000000)
      else TimeVal(sec + t.sec, usec + t.usec)
    }

    /** timersub */
    function Sub(t: TimeVal): TimeVal {
      if usec - t.usec < 0 then TimeVal(sec - t.sec - 1, usec - t.usec + 1000000)
      else TimeVal(sec - t.sec, usec - t.usec)
    }
  }

  /** On normal values the macros are arithmetic and order on microseconds. */
  lemma MacrosAreMicros(a: TimeVal, b: TimeVal)
    requires a.Normal() && b.Normal()
    ensures a.Add(b).Normal() && a.Add(b).Micros() == a.Micros() + b.Micros()
    ensures a.Sub(b).Normal() && a.Sub(b).Micros() == a.Micros() - b.Micros()
    ensures a.Less(b) <==> a.Micros() < b.Micros()
  {
  }
}
