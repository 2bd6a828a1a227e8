/** One MFP68901 timer: counted down a unit at a time, and the closed forms of that. */
module MFP68901Timers {
  import opened Arithmetic

  type Byte = x: int | 0 <= x < 256

  datatype Mode = Stopped | EventCount | Delay | PulseWidth

  datatype Timer = Timer(mode: Mode, value: Byte, reload: Byte, prescale: int, prescaleCount: int, eventInput: bool)

  const RESET := Timer(Stopped, 0, 0, 1, 1, false)

  predicate Clocked(m: Mode) {
    m.Delay? || m.PulseWidth?
  }

  /** A timer that has only been changed by what a processor can do to it. The prescale count may be
      negative, and may equal the prescale until the first cycle after a change of mode. */
  predicate TimerValid(t: Timer) {
    t.prescale >= 1 && t.prescaleCount <= t.prescale && (Clocked(t.mode) ==> t.prescale >= 4)
  }

  // The specification: one unit at a time.

  /** One decrement. */
  function Decrement(t: Timer): Timer {
    if t.value > 1 then t.(value := t.value - 1)
    else if t.value == 0 then t.(value := 255)
    else t.(value := if t.mode.Delay? || t.mode.EventCount? then t.reload else 0)
  }

  function Decremented(t: Timer, n: nat): Timer
    decreases n
  {
    if n == 0 then t else Decremented(Decrement(t), n - 1)
  }

  /** How many of some decrements are from 1, and so expire the timer. */
  function Expiries(t: Timer, n: nat): nat
    decreases n
  {
    if n == 0 then 0 else (if t.value == 1 then 1 else 0) + Expiries(Decrement(t), n - 1)
  }

  /** Whether a cycle completes a prescaled unit. */
  predicate Completes(t: Timer) {
    Clocked(t.mode) && t.prescaleCount + 1 >= t.prescale
  }

  /** One cycle of the timer's own clock. */
  function Cycle(t: Timer): Timer {
    if !Clocked(t.mode) then t
    else if Completes(t) then Decrement(t).(prescaleCount := t.prescaleCount + 1 - t.prescale)
    else t.(prescaleCount := t.prescaleCount + 1)
  }

  function Cycled(t: Timer, n: nat): Timer
    decreases n
  {
    if n == 0 then t else Cycled(Cycle(t), n - 1)
  }

  /** How many times the timer expires in some cycles. */
  function CycleExpiries(t: Timer, n: nat): nat
    decreases n
  {
    if n == 0 then 0
    else (if Completes(t) && t.value == 1 then 1 else 0) + CycleExpiries(Cycle(t), n - 1)
  }

  // Any run can be divided.

  lemma {:induction false} DecrementedSplits(t: Timer, a: nat, b: nat)
    ensures Decremented(t, a + b) == Decremented(Decremented(t, a), b)
    ensures Expiries(t, a + b) == Expiries(t, a) + Expiries(Decremented(t, a), b)
    decreases a
  {
    if a > 0 {
      DecrementedSplits(Decrement(t), a - 1, b);
    }
  }

  lemma {:induction false} CycledSplits(t: Timer, a: nat, b: nat)
    ensures Cycled(t, a + b) == Cycled(Cycled(t, a), b)
    ensures CycleExpiries(t, a + b) == CycleExpiries(t, a) + CycleExpiries(Cycled(t, a), b)
    decreases a
  {
    if a > 0 {
      CycledSplits(Cycle(t), a - 1, b);
    }
  }

  // Decrements in bulk.

  /** Decrements that do not reach zero. */
  lemma {:induction false} ShortOfZero(t: Timer, n: nat)
    requires n < t.value
    ensures Decremented(t, n) == t.(value := t.value - n) && Expiries(t, n) == 0
    decreases n
  {
    if n > 0 {
      ShortOfZero(Decrement(t), n - 1);
    }
  }

  function Reloaded(t: Timer): Timer {
    t.(value := if t.mode.Delay? || t.mode.EventCount? then t.reload else 0)
  }

  /** Decrements to exactly zero expire the timer once. */
  lemma ToZero(t: Timer)
    requires t.value > 0
    ensures Decremented(t, t.value) == Reloaded(t) && Expiries(t, t.value) == 1
  {
    var n := t.value - 1;
    ShortOfZero(t, n);
    DecrementedSplits(t, n, 1);
    var last := t.(value := 1);
    assert Decremented(last, 1) == Decremented(Decrement(last), 0);
    assert Expiries(last, 1) == 1 + Expiries(Decrement(last), 0);
  }

  /** The decrements left before a timer next expires, and the number from then to the one after. */
  function Outstanding(t: Timer): int {
    if t.value == 0 then 256 else t.value
  }

  function Period(t: Timer): int {
    if (t.mode.Delay? || t.mode.EventCount?) && t.reload != 0 then t.reload else 256
  }

  lemma ToExpiry(t: Timer)
    ensures Decremented(t, Outstanding(t)) == Reloaded(t) && Expiries(t, Outstanding(t)) == 1
    ensures Outstanding(Reloaded(t)) == Period(t) == Period(Reloaded(t))
  {
    if t.value == 0 {
      var u := t.(value := 255);
      ToZero(u);
      DecrementedSplits(t, 1, 255);
      assert Decremented(t, 1) == Decremented(u, 0) && Expiries(t, 1) == Expiries(u, 0);
    } else {
      ToZero(t);
    }
  }

  lemma BeforeExpiry(t: Timer, n: nat)
    requires n < Outstanding(t)
    ensures Expiries(t, n) == 0
    ensures Decremented(t, n).value == (Outstanding(t) - n) % 256
  {
    if t.value == 0 && n > 0 {
      var u := t.(value := 255);
      ShortOfZero(u, n - 1);
      DecrementedSplits(t, 1, n - 1);
      assert Decremented(t, 1) == Decremented(u, 0) && Expiries(t, 1) == Expiries(u, 0);
    } else if t.value > 0 {
      ShortOfZero(t, n);
    }
  }

  /** The expiries in any number of decrements: one once the value has run out, and one for each period
      after that, a value or reload of 0 standing for 256. */
  lemma {:induction false} ExpiriesClosed(t: Timer, n: nat)
    ensures Expiries(t, n) == if n < Outstanding(t) then 0 else 1 + (n - Outstanding(t)) / Period(t)
    decreases n
  {
    var v, p := Outstanding(t), Period(t);
    hide Outstanding, Period, Expiries;
    if n < v {
      BeforeExpiry(t, n);
    } else {
      ToExpiry(t);
      OutstandingPositive(t);
      DecrementedSplits(t, v, n - v);
      ExpiriesClosed(Reloaded(t), n - v);
      OnePeriodLess(n - v, p);
    }
  }

  lemma OutstandingPositive(t: Timer)
    ensures Outstanding(t) > 0 && Period(t) > 0
  {
  }

  lemma OnePeriodLess(n: nat, p: nat)
    requires p > 0
    ensures if n < p then n / p == 0 else n / p == 1 + (n - p) / p
  {
    if n >= p {
      var q := (n - p) / p;
      Quotient(n, p, q + 1);
    }
  }

  lemma Quotient(n: int, p: int, q: int)
    requires p > 0 && q * p <= n < (q + 1) * p
    ensures n / p == q
  {
    Monotonic(n / p + 1, q, p);
    Monotonic(q + 1, n / p, p);
  }

  // Prescaling.

  /** The decrements due in some cycles, as the source works them out. */
  function Due(t: Timer, cycles: nat): nat
    requires t.prescale > 0
  {
    var quotient := Truncated(t.prescaleCount + cycles, t.prescale);
    if quotient > 0 then quotient else 0
  }

  function CountAfter(t: Timer, cycles: nat): int
    requires t.prescale > 0
  {
    if Due(t, cycles) > 0 then (t.prescaleCount + cycles) % t.prescale else t.prescaleCount + cycles
  }

  /** Decrementing neither looks at nor changes the prescaling. */
  lemma {:induction false} PrescalingApart(t: Timer, n: nat, count: int)
    ensures Decremented(t.(prescaleCount := count), n) == Decremented(t, n).(prescaleCount := count)
    ensures Expiries(t.(prescaleCount := count), n) == Expiries(t, n)
    ensures var u := Decremented(t, n);
            u.prescale == t.prescale && u.mode == t.mode && u.prescaleCount == t.prescaleCount
    decreases n
  {
    if n > 0 {
      PrescalingApart(Decrement(t), n - 1, count);
    }
  }

  /** Prescaling all at once is prescaling cycle by cycle, whatever the count was to begin with. */
  lemma {:induction false} PrescaledAtOnce(t: Timer, n: nat)
    requires TimerValid(t) && Clocked(t.mode) && n > 0
    ensures Cycled(t, n) == Decremented(t, Due(t, n)).(prescaleCount := CountAfter(t, n))
    ensures CycleExpiries(t, n) == Expiries(t, Due(t, n))
    ensures TimerValid(Cycled(t, n))
    decreases n
  {
    hide Expiries, CycleExpiries, Truncated;
    PrescalingApart(t, Due(t, n), CountAfter(t, n));
    if n == 1 {
      FirstCycle(t);
    } else {
      PrescaledAtOnce(t, n - 1);
      CycledSplits(t, n - 1, 1);
      PrescalingApart(t, Due(t, n - 1), CountAfter(t, n - 1));
      FirstCycle(Cycled(t, n - 1));
      NextDue(t, n - 1);
      var d := Due(t, n - 1);
      var u := Decremented(t, d);
      PrescalingApart(u, Due(t, n) - d, CountAfter(t, n - 1));
      DecrementedSplits(t, d, Due(t, n) - d);
      PrescalingApart(u, Due(t, n) - d, CountAfter(t, n));
      hide Decremented, Due, CountAfter, Cycled;
    }
  }

  /** One cycle, from any count: at most one decrement. */
  lemma FirstCycle(t: Timer)
    requires TimerValid(t) && Clocked(t.mode)
    ensures var d := if Completes(t) then 1 else 0;
            && Due(t, 1) == d
            && Cycled(t, 1) == Decremented(t, d).(prescaleCount := CountAfter(t, 1))
            && CycleExpiries(t, 1) == Expiries(t, d)
            && TimerValid(Cycled(t, 1))
  {
    OneCycle(t);
    OneDecrement(t);
    OneDue(t);
    hide Cycled, CycleExpiries, Decremented, Expiries, Due, CountAfter;
  }

  lemma OneCycle(t: Timer)
    ensures Cycled(t, 1) == Cycle(t) && CycleExpiries(t, 1) == if Completes(t) && t.value == 1 then 1 else 0
  {
    hide Cycle, Completes;
    assert Cycled(Cycle(t), 0) == Cycle(t) && CycleExpiries(Cycle(t), 0) == 0;
  }

  lemma OneDecrement(t: Timer)
    ensures Decremented(t, 0) == t && Expiries(t, 0) == 0
    ensures Decremented(t, 1) == Decrement(t) && Expiries(t, 1) == if t.value == 1 then 1 else 0
  {
    hide Decrement;
    assert Decremented(Decrement(t), 0) == Decrement(t) && Expiries(Decrement(t), 0) == 0;
  }

  lemma OneDue(t: Timer)
    requires TimerValid(t) && Clocked(t.mode)
    ensures Due(t, 1) == if Completes(t) then 1 else 0
    ensures CountAfter(t, 1) == if Completes(t) then t.prescaleCount + 1 - t.prescale else t.prescaleCount + 1
  {
    OneMore(t.prescaleCount, t.prescale);
    hide Truncated;
  }

  lemma OneMore(c: int, p: int)
    requires p >= 4 && c <= p
    ensures c + 1 >= p ==> Truncated(c + 1, p) == 1 && (c + 1) % p == c + 1 - p
    ensures c + 1 < p ==> Truncated(c + 1, p) <= 0
  {
  }

  /** Due cycles add up. */
  lemma NextDue(t: Timer, n: nat)
    requires TimerValid(t) && Clocked(t.mode) && n > 0
    ensures var u := t.(prescaleCount := CountAfter(t, n));
            && Due(t, n + 1) == Due(t, n) + Due(u, 1)
            && CountAfter(t, n + 1) == CountAfter(u, 1)
  {
    var c, p := t.prescaleCount + n, t.prescale;
    DueIs(t, n);
    DueIs(t, n + 1);
    DueIs(t.(prescaleCount := CountAfter(t, n)), 1);
    if c >= p {
      DivideNext(c, p);
    } else if c + 1 == p {
      assert (c + 1) / p == 1;
    }
    hide Due, CountAfter;
  }

  lemma DueIs(t: Timer, n: nat)
    requires t.prescale > 0
    ensures var c, p := t.prescaleCount + n, t.prescale;
            if c < p then Due(t, n) == 0 && CountAfter(t, n) == c
            else Due(t, n) == c / p && (c / p > 0 ==> CountAfter(t, n) == c % p)
  {
    SmallQuotient(t.prescaleCount + n, t.prescale);
  }

  lemma SmallQuotient(c: int, p: int)
    requires p > 0
    ensures c < p ==> Truncated(c, p) <= 0
  {
    if 0 <= c < p {
      Quotient(c, p, 0);
    }
  }

  lemma DivideNext(c: int, p: int)
    requires c >= p >= 4
    ensures c / p >= 1 && 0 <= c % p < p
    ensures (c + 1) / p == c / p + (if c % p + 1 == p then 1 else 0)
    ensures (c + 1) % p == if c % p + 1 == p then 0 else c % p + 1
  {
    var q, r := c / p, c % p;
    assert c == q * p + r;
    Monotonic(q, 0, p);
    if r + 1 == p {
      assert c + 1 == (q + 1) * p;
      Quotient(c + 1, p, q + 1);
    } else {
      Quotient(c + 1, p, q);
    }
  }

  /** The expiries in any number of cycles: the count may start negative, which only delays the first. */
  lemma CycleExpiriesClosed(t: Timer, n: nat)
    requires TimerValid(t) && Clocked(t.mode) && n > 0
    ensures var c := t.prescaleCount + n;
            var units := if c < t.prescale then 0 else c / t.prescale;
            CycleExpiries(t, n) ==
              if units < Outstanding(t) then 0 else 1 + (units - Outstanding(t)) / Period(t)
  {
    PrescaledAtOnce(t, n);
    DueIs(t, n);
    ExpiriesClosed(t, Due(t, n));
  }
}
