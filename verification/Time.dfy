/** Time stamps of log-watch: seconds plus microseconds, kept normalised. */
module Time {

  const USEC_IN_SEC := 1000000

  datatype RawTime = TimeVal(sec: int, usec: int) {

    predicate Normal() { 0 <= usec < USEC_IN_SEC }

    /** The instant as a plain number of microseconds. */
    function Micros(): int { sec * USEC_IN_SEC + usec }
  }

  /** Every TimeVal of the program: the constructor and `add` always redistribute. */
  type TimeVal = t: RawTime | t.Normal() witness TimeVal(0, 0)

  /** The value a TimeVal object holds once redistributed. */
  function Make(sec: int, usec: int): (t: TimeVal)
    ensures t.Micros() == sec * USEC_IN_SEC + usec
  {
    TimeVal(sec + usec / USEC_IN_SEC, usec % USEC_IN_SEC)
  }

  function Seconds(s: int): (t: TimeVal)
    ensures t.Micros() == s * USEC_IN_SEC
  {
    Make(s, 0)
  }

  function Plus(a: TimeVal, b: TimeVal): (t: TimeVal)
    ensures t.Micros() == a.Micros() + b.Micros()
  {
    Make(a.sec + b.sec, a.usec + b.usec)
  }

  function Minus(a: TimeVal, b: TimeVal): (t: TimeVal)
    ensures t.Micros() == a.Micros() - b.Micros()
  {
    Make(a.sec - b.sec, a.usec - b.usec)
  }

  /** The lexicographic comparison of the source is the order of instants. */
  predicate Less(a: TimeVal, b: TimeVal)
    ensures Less(a, b) <==> a.Micros() < b.Micros()
  {
    a.sec < b.sec || (a.sec == b.sec && a.usec < b.usec)
  }

  predicate AtMost(a: TimeVal, b: TimeVal)
    ensures AtMost(a, b) <==> a.Micros() <= b.Micros()
  {
    Less(a, b) || a == b
  }

  predicate AtLeast(a: TimeVal, b: TimeVal)
    ensures AtLeast(a, b) <==> a.Micros() >= b.Micros()
  {
    !Less(a, b)
  }

  /** Normalised values are canonical: equal instants are equal values. */
  lemma MicrosInjective(a: TimeVal, b: TimeVal)
    requires a.Micros() == b.Micros()
    ensures a == b
  {
  }

  /** The mutable object: `redist` and `add` change `sec` and `usec` in place. */
  class TimeCell {
    var sec: int
    var usec: int

    function Raw(): RawTime reads this { TimeVal(sec, usec) }

    constructor (s: int, us: int)
      ensures Raw() == Make(s, us)
    {
      sec, usec := s, us;
      new;
      Redist();
    }

    /** Carries whole seconds out of `usec`, one at a time, in either direction. */
    method Redist()
      modifies this
      ensures Raw() == Make(old(sec), old(usec))
      ensures Raw().Normal() && Raw().Micros() == old(Raw().Micros())
    {
      ghost var total := Raw().Micros();
      while usec >= USEC_IN_SEC
        invariant Raw().Micros() == total
        invariant usec >= 0 || usec == old(usec)
        decreases usec
      {
        usec := usec - USEC_IN_SEC;
        sec := sec + 1;
      }
      while usec < 0
        invariant Raw().Micros() == total
        invariant usec < USEC_IN_SEC
        decreases -usec
      {
        usec := usec + USEC_IN_SEC;
        sec := sec - 1;
      }
      MicrosInjective(Raw(), Make(old(sec), old(usec)));
    }

    method Add(s: int, us: int)
      modifies this
      ensures Raw() == Make(old(sec) + s, old(usec) + us)
    {
      sec := sec + s;
      usec := usec + us;
      Redist();
    }
  }
}
