/** The MFP68901's interrupt controller and timers. */
module MFP68901 {
  import opened Arithmetic
  import opened MFP68901Timers

  /** A 16-bit register or mask, with a bit for each source of interrupts. */
  datatype Word = Word(bits: bv16)

  const NONE := Word(0)
  const TIMER_A := Word(0x2000)
  const TIMER_B := Word(0x0100)
  const TIMER_C := Word(0x0020)
  const TIMER_D := Word(0x0010)

  const NO_ACKNOWLEDGEMENT: bv16 := 0x0100

  function Both(a: Word, b: Word): Word {
    Word(a.bits & b.bits)
  }

  function Either(a: Word, b: Word): Word {
    Word(a.bits | b.bits)
  }

  function Without(a: Word, b: Word): Word {
    Word(a.bits & !b.bits)
  }

  predicate Within(some: Word, all: Word) {
    some.bits & !all.bits == 0
  }

  /** Whether the first interrupt is no more important than the second. */
  predicate NoHigher(a: Word, b: Word) {
    a.bits <= b.bits
  }

  predicate SingleBit(a: Word) {
    a.bits != 0 && a.bits & (a.bits - 1) == 0
  }

  // Interrupts.

  /** Whether the vector register selects software end-of-interrupt mode. */
  predicate Software(vector: bv8) {
    vector & 0x08 != 0
  }

  /** The most significant set bit of a word. */
  function Msb16(v: Word): (m: Word)
    ensures v == NONE ==> m == NONE
    ensures v != NONE ==> SingleBit(m) && Within(m, v) && v.bits <= m.bits + (m.bits - 1)
  {
    var a := v.bits | (v.bits >> 1);
    var b := a | (a >> 2);
    var c := b | (b >> 4);
    var d := c | (c >> 8);
    Word((((d as bv32) + 1) >> 1) as bv16)
  }

  /** The interrupt output: something is pending and unmasked, and in software mode nothing of a higher
      priority than the most important such thing is in service. */
  predicate LineOf(pending: Word, mask: Word, inService: Word, vector: bv8) {
    var firing := Both(pending, mask);
    firing != NONE && (Software(vector) ==> NoHigher(Msb16(inService), Msb16(firing)))
  }

  datatype Interrupts = Interrupts(enable: Word, pending: Word, mask: Word, inService: Word, line: bool, vector: bv8)

  const QUIET := Interrupts(NONE, NONE, NONE, NONE, false, 0)

  /** What is pending is enabled, nothing is in service in automatic mode, and the output line is right. */
  predicate Consistent(i: Interrupts) {
    && Within(i.pending, i.enable)
    && (!Software(i.vector) ==> i.inService == NONE)
    && i.line == LineOf(i.pending, i.mask, i.inService, i.vector)
  }

  function Settled(i: Interrupts): Interrupts {
    i.(line := LineOf(i.pending, i.mask, i.inService, i.vector))
  }

  function Raised(i: Interrupts, bits: Word): Interrupts {
    Settled(i.(pending := Either(i.pending, Both(bits, i.enable))))
  }

  function Lowered(i: Interrupts, bits: Word): Interrupts {
    Settled(i.(pending := Without(i.pending, bits)))
  }

  /** The half of a 16-bit register that a write to an address leaves alone, and the word it writes: the
      lower address of a pair is odd, and holds the high byte. */
  function Preserved(address: int): Word {
    Word(if address % 2 == 1 then 0x00ff else 0xff00)
  }

  function Shifted(address: int, value: bv8): Word {
    Word(if address % 2 == 1 then (value as bv16) << 8 else value as bv16)
  }

  /** A write to the interrupt registers, 0x03 to 0x0b. Nothing is re-evaluated on selecting software mode. */
  function Written(i: Interrupts, address: int, value: bv8): Interrupts {
    var keep, word := Preserved(address), Shifted(address, value);
    if address == 0x03 || address == 0x04 then
      var enable := Either(Both(i.enable, keep), word);
      Settled(i.(enable := enable, pending := Both(i.pending, enable)))
    else if address == 0x05 || address == 0x06 then Settled(i.(pending := Both(i.pending, Either(keep, word))))
    else if address == 0x07 || address == 0x08 then Settled(i.(inService := Both(i.inService, Either(keep, word))))
    else if address == 0x09 || address == 0x0a then Settled(i.(mask := Either(Both(i.mask, keep), word)))
    else if Software(value) then i.(vector := value)
    else Settled(i.(vector := value, inService := NONE))
  }

  /** The interrupt an acknowledgement takes: the most important of those firing. */
  function Taken(i: Interrupts): Word {
    Msb16(Both(i.pending, i.mask))
  }

  function Acknowledged(i: Interrupts): Interrupts {
    if Both(i.pending, i.mask) == NONE then i
    else
      Settled(i.(pending := Without(i.pending, Taken(i)),
                 inService := if Software(i.vector) then Either(i.inService, Taken(i)) else i.inService))
  }

  // Every run of the interrupt controller.

  datatype Act = Raise(bits: Word) | Lower(bits: Word) | Write(address: int, value: bv8) | Acknowledge

  function Apply(i: Interrupts, a: Act): Interrupts {
    match a
    case Raise(bits) => Raised(i, bits)
    case Lower(bits) => Lowered(i, bits)
    case Write(address, value) => Written(i, address, value)
    case Acknowledge => Acknowledged(i)
  }

  function Run(i: Interrupts, acts: seq<Act>): Interrupts
    decreases |acts|
  {
    if acts == [] then i else Apply(Run(i, acts[..|acts| - 1]), acts[|acts| - 1])
  }

  /** Each act keeps the invariant; in particular the line stays right across the write to the vector
      that re-evaluates nothing. */
  lemma ActKeepsConsistent(i: Interrupts, a: Act)
    requires Consistent(i)
    ensures Consistent(Apply(i, a))
  {
    hide Within, LineOf, Software, Msb16, Preserved, Shifted, Both, Either, Without;
    match a {
      case Raise(bits) => WithinRaised(i.pending, bits, i.enable);
      case Lower(bits) => WithinReduced(i.pending, bits, i.enable);
      case Acknowledge => WithinReduced(i.pending, Taken(i), i.enable);
      case Write(address, value) => WriteKeepsConsistent(i, address, value);
    }
  }

  lemma WriteKeepsConsistent(i: Interrupts, address: int, value: bv8)
    requires Consistent(i)
    ensures Consistent(Written(i, address, value))
  {
    hide Within, LineOf, Software, Msb16, Preserved, Shifted, Both, Either, Without;
    hide Settled, Consistent;
    var keep, word := Preserved(address), Shifted(address, value);
    Parts(i);
    WithinReduced(i.pending, Either(keep, word), i.enable);
    if address == 0x03 || address == 0x04 {
      var enable := Either(Both(i.enable, keep), word);
      WithinEnabled(i.pending, enable);
      SettledConsistent(i.(enable := enable, pending := Both(i.pending, enable)));
    } else if address == 0x05 || address == 0x06 {
      SettledConsistent(i.(pending := Both(i.pending, Either(keep, word))));
    } else if address == 0x07 || address == 0x08 {
      NothingReduced(Either(keep, word));
      SettledConsistent(i.(inService := Both(i.inService, Either(keep, word))));
    } else if address == 0x09 || address == 0x0a {
      SettledConsistent(i.(mask := Either(Both(i.mask, keep), word)));
    } else if Software(value) {
      LineBySoftware(i.pending, i.mask, i.inService, i.vector, value);
      Whole(i.(vector := value));
    } else {
      SettledConsistent(i.(vector := value, inService := NONE));
    }
  }

  lemma Parts(i: Interrupts)
    requires Consistent(i)
    ensures Within(i.pending, i.enable) && (!Software(i.vector) ==> i.inService == NONE)
    ensures i.line == LineOf(i.pending, i.mask, i.inService, i.vector)
  {
  }

  lemma Whole(i: Interrupts)
    requires Within(i.pending, i.enable) && (!Software(i.vector) ==> i.inService == NONE)
    requires i.line == LineOf(i.pending, i.mask, i.inService, i.vector)
    ensures Consistent(i)
  {
  }

  lemma SettledConsistent(i: Interrupts)
    requires Within(i.pending, i.enable) && (!Software(i.vector) ==> i.inService == NONE)
    ensures Consistent(Settled(i))
  {
    hide LineOf, Within, Software;
  }

  lemma WithinRaised(pending: Word, bits: Word, enable: Word)
    requires Within(pending, enable)
    ensures Within(Either(pending, Both(bits, enable)), enable)
  {
  }

  lemma WithinReduced(pending: Word, bits: Word, enable: Word)
    requires Within(pending, enable)
    ensures Within(Without(pending, bits), enable)
    ensures Within(Both(pending, bits), enable)
  {
  }

  lemma WithinEnabled(pending: Word, enable: Word)
    ensures Within(Both(pending, enable), enable)
  {
  }

  lemma NothingReduced(keep: Word)
    ensures Both(NONE, keep) == NONE
  {
  }

  /** The line depends on the vector only through the mode, and not on that if nothing is in service. */
  lemma LineBySoftware(pending: Word, mask: Word, inService: Word, was: bv8, now: bv8)
    ensures inService == NONE || Software(was) == Software(now) ==>
              LineOf(pending, mask, inService, was) == LineOf(pending, mask, inService, now)
  {
    assert Msb16(NONE) == NONE;
    hide Msb16, Both;
  }

  lemma {:induction false} RunConsistent(acts: seq<Act>)
    ensures Consistent(Run(QUIET, acts))
    decreases |acts|
  {
    if acts == [] {
      assert Consistent(QUIET);
    } else {
      hide Consistent, Apply;
      RunConsistent(acts[..|acts| - 1]);
      ActKeepsConsistent(Run(QUIET, acts[..|acts| - 1]), acts[|acts| - 1]);
    }
  }

  /** In any run, an acknowledgement made in software mode takes an interrupt at least as important as
      everything in service exactly if the line is asserted; it ceases to be pending, and is then the most
      important thing in service. */
  lemma AcknowledgedInOrder(acts: seq<Act>)
    requires var i := Run(QUIET, acts); Software(i.vector) && Both(i.pending, i.mask) != NONE
    ensures var i := Run(QUIET, acts);
            var taken, j := Taken(i), Acknowledged(i);
            && (i.line <==> NoHigher(Msb16(i.inService), taken))
            && Within(taken, i.pending) && taken != NONE && Both(taken, j.pending) == NONE && Within(taken, j.inService)
            && (i.line ==> Msb16(j.inService) == taken)
  {
    var i := Run(QUIET, acts);
    RunConsistent(acts);
    MostImportant(i.inService, i.pending, i.mask);
    hide Msb16, Within, Run, Software, Both, Either, Without, NoHigher, SingleBit;
  }

  lemma MostImportant(inService: Word, pending: Word, mask: Word)
    requires Both(pending, mask) != NONE
    ensures var m := Msb16(Both(pending, mask));
            && Within(m, pending) && m != NONE
            && Both(m, Without(pending, m)) == NONE && Within(m, Either(inService, m))
            && (NoHigher(Msb16(inService), m) ==> Msb16(Either(inService, m)) == m)
  {
  }

  /** While an interrupt is in service in software mode, nothing less important can assert the line. */
  lemma LowerPriorityHeld(i: Interrupts, bit: Word)
    requires Consistent(i) && Software(i.vector) && SingleBit(bit)
    requires Within(bit, i.inService) && Both(i.pending, i.mask).bits < bit.bits
    ensures !i.line
  {
    Below(i.inService, Both(i.pending, i.mask), bit);
    hide Msb16, Within, Software, Both, NoHigher, SingleBit;
  }

  lemma Below(inService: Word, firing: Word, bit: Word)
    requires SingleBit(bit) && Within(bit, inService) && firing.bits < bit.bits
    ensures !NoHigher(Msb16(inService), Msb16(firing))
  {
  }

  // The timers' interrupts.

  function InterruptOf(timer: int): Word
    requires 0 <= timer < 4
  {
    if timer == 0 then TIMER_A else if timer == 1 then TIMER_B else if timer == 2 then TIMER_C else TIMER_D
  }

  /** The interrupts raised if a timer expires some number of times. */
  function RaisedBy(timer: int, expiries: nat): Word
    requires 0 <= timer < 4
  {
    if expiries > 0 then InterruptOf(timer) else NONE
  }

  /** The port lines that have fallen, in their places among the interrupts. */
  function Fallen(was: bv8, now: bv8): Word {
    var falling := (was & !now) as bv16;
    Word((falling & 0x0f) | ((falling & 0x30) << 2) | ((falling & 0xc0) << 8))
  }

  function Prescale(selection: int): int
    requires 0 <= selection < 8
  {
    if selection == 0 then 1 else if selection == 1 then 4 else if selection == 2 then 10 else if selection == 3 then 16
    else if selection == 4 then 50 else if selection == 5 then 64 else if selection == 6 then 100 else 200
  }

  /** A timer given a new mode. Unless it is reset, the time it had left to its next decrement is kept. */
  function WithMode(t: Timer, mode: Mode, prescale: int, reset: bool): Timer {
    if reset then t.(mode := mode, prescale := prescale, prescaleCount := 0, value := t.reload)
    else t.(mode := mode, prescale := prescale, prescaleCount := prescale - (t.prescale - t.prescaleCount))
  }

  class MFP68901 {
    const timers: array<Timer>
    var halfCycles: int
    var enable: Word
    var pending: Word
    var mask: Word
    var inService: Word
    var line: bool
    var vector: bv8
    var input: bv8
    var output: bv8
    var activeEdge: bv8
    var direction: bv8
    var portState: bv8

    function Snapshot(): Interrupts
      reads this
    {
      Interrupts(enable, pending, mask, inService, line, vector)
    }

    predicate TimersValid()
      reads timers
    {
      timers.Length == 4 && forall i | 0 <= i < 4 :: TimerValid(timers[i])
    }

    predicate Valid()
      reads this, timers
    {
      TimersValid() && 0 <= halfCycles < 2 && Consistent(Snapshot())
    }

    constructor ()
      ensures Valid() && fresh(timers) && Snapshot() == QUIET && halfCycles == 0
      ensures timers[..] == [RESET, RESET, RESET, RESET]
    {
      timers := new Timer[4](_ => RESET);
      halfCycles, enable, pending, mask, inService, line, vector := 0, NONE, NONE, NONE, NONE, false, 0;
      input, output, activeEdge, direction, portState := 0, 0, 0, 0, 0;
      new;
      assert timers[..] == [RESET, RESET, RESET, RESET];
      RunConsistent([]);
    }

    // Interrupts.

    method UpdateInterrupts()
      modifies `line
      ensures Snapshot() == Settled(old(Snapshot()))
    {
      hide Both, Software, Within, SingleBit;
      var firing := Both(pending, mask);
      if firing == NONE {
        line := false;
      } else if Software(vector) {
        var highest := Msb16(firing);
        line := NothingBeyond(inService, highest);
        NothingAbove(inService, firing);
      } else {
        line := true;
      }
      hide Msb16, NoHigher, NothingBeyond;
    }

    method BeginInterrupts(bits: Word)
      modifies `line, `pending
      ensures Snapshot() == Raised(old(Snapshot()), bits)
    {
      hide Both, Either, LineOf;
      pending := Either(pending, Both(bits, enable));
      UpdateInterrupts();
    }

    method EndInterrupts(bits: Word)
      modifies `line, `pending
      ensures Snapshot() == Lowered(old(Snapshot()), bits)
    {
      hide Without, LineOf;
      pending := Without(pending, bits);
      UpdateInterrupts();
    }

    method WriteInterrupts(address: int, value: bv8)
      requires 0x03 <= address <= 0x0b
      modifies `line, `pending, `enable, `mask, `inService, `vector
      ensures Snapshot() == Written(old(Snapshot()), address, value)
    {
      hide Both, Either, LineOf, Software, Preserved, Shifted, Settled;
      var preserve, word := Preserved(address), Shifted(address, value);
      if address == 0x03 || address == 0x04 {
        enable := Either(Both(enable, preserve), word);
        pending := Both(pending, enable);
      } else if address == 0x05 || address == 0x06 {
        pending := Both(pending, Either(preserve, word));
      } else if address == 0x07 || address == 0x08 {
        inService := Both(inService, Either(preserve, word));
      } else if address == 0x09 || address == 0x0a {
        mask := Either(Both(mask, preserve), word);
      } else {
        vector := value;
        if Software(vector) {
          return;
        }
        inService := NONE;
      }
      UpdateInterrupts();
    }

    /** The vector for the interrupt taken: its number within the vector register's high nibble. */
    method AcknowledgeInterrupt() returns (r: bv16)
      modifies `line, `pending, `inService
      ensures var i := old(Snapshot());
              && Snapshot() == Acknowledged(i)
              && if Both(i.pending, i.mask) == NONE then r == NO_ACKNOWLEDGEMENT
                 else exists n: nat :: n < 16 && Bit(n) == Taken(i) && r == VectorFor(vector, n)
    {
      hide Both, Either, Without, Msb16, Software, Settled, VectorFor;
      var firing := Both(pending, mask);
      if firing == NONE {
        return NO_ACKNOWLEDGEMENT;
      }
      var taken := Msb16(firing);
      pending := Without(pending, taken);
      if Software(vector) {
        inService := Either(inService, taken);
      }
      UpdateInterrupts();
      r := NumberedVector(taken);
    }

    method NumberedVector(taken: Word) returns (r: bv16)
      requires SingleBit(taken)
      ensures exists n: nat :: n < 16 && Bit(n) == taken && r == VectorFor(vector, n)
    {
      hide SingleBit, Bit, NoHigher, Doubled, VectorFor;
      var bit, selected := Word(1), 0;
      FirstBit(taken);
      while bit != taken
        invariant 0 <= selected < 16 && bit == Bit(selected) && NoHigher(bit, taken)
        decreases 16 - selected
      {
        NextBit(selected, taken);
        bit := Doubled(bit);
        selected := selected + 1;
      }
      r := VectorFor(vector, selected);
    }

    // Timers.

    method SetTimerMode(timer: int, mode: Mode, prescale: int, reset: bool)
      requires Valid() && 0 <= timer < 4 && prescale >= 1 && (Clocked(mode) ==> prescale >= 4)
      modifies timers
      ensures Valid() && timers[..] == old(timers[..])[timer := WithMode(old(timers[timer]), mode, prescale, reset)]
    {
      var t := timers[timer].(mode := mode);
      if reset {
        t := t.(prescaleCount := 0, value := t.reload);
      } else {
        t := t.(prescaleCount := prescale - (t.prescale - t.prescaleCount));
      }
      timers[timer] := t.(prescale := prescale);
    }

    /** A write to the control register of timer A or B. */
    method WriteTimerControl(timer: int, value: Byte)
      requires Valid() && 0 <= timer < 2
      modifies timers
      ensures Valid()
      ensures var selection, reset := value % 16, value / 16 % 2 == 1;
              var t := WithMode(old(timers[timer]), ModeOf(selection), PrescaleOf(selection), reset);
              timers[..] == old(timers[..])[timer := t]
    {
      SetTimerMode(timer, ModeOf(value % 16), PrescaleOf(value % 16), value / 16 % 2 == 1);
    }

    /** A write to the control register shared by timers C and D. */
    method WriteTimersCD(value: Byte)
      requires Valid()
      modifies timers
      ensures Valid()
      ensures timers[..] == old(timers[..])
                [3 := WithMode(old(timers[3]), ModeOf(value % 8), PrescaleOf(value % 8), false)]
                [2 := WithMode(old(timers[2]), ModeOf(value / 16 % 8), PrescaleOf(value / 16 % 8), false)]
    {
      SetTimerMode(3, ModeOf(value % 8), PrescaleOf(value % 8), false);
      SetTimerMode(2, ModeOf(value / 16 % 8), PrescaleOf(value / 16 % 8), false);
    }

    method SetTimerData(timer: int, value: Byte)
      requires Valid() && 0 <= timer < 4
      modifies timers
      ensures Valid()
      ensures var t := old(timers[timer]);
              var now := t.(reload := value, value := if t.mode.Stopped? then value else t.value);
              timers[..] == old(timers[..])[timer := now]
    {
      if timers[timer].mode.Stopped? {
        timers[timer] := timers[timer].(value := value);
      }
      timers[timer] := timers[timer].(reload := value);
    }

    /** An edge of a timer's event input counts if it is the active one and the timer is counting events. */
    method SetTimerEventInput(timer: int, value: bool)
      requires Valid() && 0 <= timer < 4
      modifies timers, `line, `pending
      ensures Valid()
      ensures var t := old(timers[timer]);
              var counts := t.eventInput != value && t.mode.EventCount? && value == ActiveHigh(activeEdge, timer);
              var n := if counts then 1 else 0;
              && timers[..] == old(timers[..])[timer := Decremented(t.(eventInput := value), n)]
              && Snapshot() == Raised(old(Snapshot()), RaisedBy(timer, Expiries(t.(eventInput := value), n)))
    {
      hide ActiveHigh, Consistent, Raised;
      RaisedNothing(Snapshot());
      if timers[timer].eventInput == value {
        assert timers[timer] == timers[timer].(eventInput := value);
        return;
      }
      timers[timer] := timers[timer].(eventInput := value);
      if timers[timer].mode.EventCount? && value == ActiveHigh(activeEdge, timer) {
        DecrementTimer(timer, 1);
      }
    }

    /** Decrements in bulk are as many single decrements; the timer's interrupt becomes pending if any of
        them expires it. */
    method DecrementTimer(timer: int, amount: nat)
      requires Valid() && 0 <= timer < 4
      modifies timers, `line, `pending
      ensures Valid()
      ensures timers[..] == old(timers[..])[timer := Decremented(old(timers[timer]), amount)]
      ensures Snapshot() == Raised(old(Snapshot()), RaisedBy(timer, Expiries(old(timers[timer]), amount)))
    {
      hide Consistent, Raised, Reloaded, RaisedBy, Decremented, Expiries;
      ghost var first, start := timers[timer], Snapshot();
      var left := amount;
      NothingDecremented(first, timer, start);
      while left != 0
        invariant 0 <= left <= amount && TimersValid() && Consistent(Snapshot())
        invariant timers[..] == old(timers[..])[timer := Decremented(first, amount - left)]
        invariant Snapshot() == Raised(start, RaisedBy(timer, Expiries(first, amount - left)))
        decreases left
      {
        ghost var t, done := timers[timer], amount - left;
        if timers[timer].value > left {
          DecrementedSplits(first, done, left);
          ShortOfZero(t, left);
          timers[timer] := timers[timer].(value := timers[timer].value - left);
          return;
        }
        if timers[timer].value == 0 {
          DecrementedSplits(first, done, 1);
          FromZero(t);
          timers[timer] := timers[timer].(value := 255);
          left := left - 1;
        } else {
          DecrementedSplits(first, done, t.value);
          ToZero(t);
          RaisedAgain(start, timer, Expiries(first, done));
          BeginInterrupts(InterruptOf(timer));
          left := left - timers[timer].value;
          if timers[timer].mode.Delay? || timers[timer].mode.EventCount? {
            timers[timer] := timers[timer].(value := timers[timer].reload);
          } else {
            timers[timer] := timers[timer].(value := 0);
          }
          ReloadedIs(t);
        }
      }
    }

    /** Prescaling all at once is running a timer cycle by cycle. */
    method RunTimerFor(timer: int, cycles: nat)
      requires Valid() && 0 <= timer < 4 && cycles > 0
      modifies timers, `line, `pending
      ensures Valid()
      ensures timers[..] == old(timers[..])[timer := Cycled(old(timers[timer]), cycles)]
      ensures Snapshot() == Raised(old(Snapshot()), RaisedBy(timer, CycleExpiries(old(timers[timer]), cycles)))
    {
      hide Consistent, Raised, RaisedBy, Decremented, Expiries, Cycled, CycleExpiries;
      ghost var first, start := timers[timer], Snapshot();
      if Clocked(timers[timer].mode) {
        PrescaledAtOnce(first, cycles);
        var dividend := timers[timer].prescaleCount + cycles;
        var quotient := Truncated(dividend, timers[timer].prescale);
        var decrements := if quotient > 0 then quotient else 0;
        PrescalingApart(first, decrements, 0);
        if decrements != 0 {
          DecrementTimer(timer, decrements);
          timers[timer] := timers[timer].(prescaleCount := dividend % timers[timer].prescale);
        } else {
          NothingDecremented(first, timer, start);
          timers[timer] := timers[timer].(prescaleCount := timers[timer].prescaleCount + cycles);
        }
      } else {
        Unclocked(first, cycles);
        NothingDecremented(first, timer, start);
      }
    }

    function State(): Chip
      requires timers.Length == 4
      reads this, timers
    {
      Chip(timers[0], timers[1], timers[2], timers[3], halfCycles, Snapshot())
    }

    /** Runs the timers for some half cycles, keeping back an odd one. */
    method RunFor(time: nat)
      requires Valid()
      modifies timers, `line, `pending, `halfCycles
      ensures Valid() && State() == ChipAfter(old(State()), time)
    {
      hide Consistent, Raised, RaisedBy, Cycled, CycleExpiries;
      halfCycles := halfCycles + time;
      var cycles := halfCycles / 2;
      halfCycles := halfCycles % 2;
      RaisedFour(Snapshot(), timers[0], timers[1], timers[2], timers[3], cycles);
      if cycles == 0 {
        return;
      }
      RunTimerFor(0, cycles);
      RunTimerFor(1, cycles);
      RunTimerFor(2, cycles);
      RunTimerFor(3, cycles);
    }

    // The port.

    method SetPortInput(value: bv8)
      requires Valid()
      modifies `input, `portState, `line, `pending
      ensures Valid() && input == value && portState == PortState(value, direction, activeEdge)
      ensures Snapshot() == Raised(old(Snapshot()), Fallen(old(portState), portState))
    {
      input := value;
      ReevaluatePort();
    }

    method WriteActiveEdge(value: bv8)
      requires Valid()
      modifies `activeEdge, `portState, `line, `pending
      ensures Valid() && activeEdge == value && portState == PortState(input, direction, value)
      ensures Snapshot() == Raised(old(Snapshot()), Fallen(old(portState), portState))
    {
      activeEdge := value;
      ReevaluatePort();
    }

    method WriteDirection(value: bv8)
      requires Valid()
      modifies `direction, `portState, `line, `pending
      ensures Valid() && direction == value && portState == PortState(input, value, activeEdge)
      ensures Snapshot() == Raised(old(Snapshot()), Fallen(old(portState), portState))
    {
      direction := value;
      ReevaluatePort();
    }

    /** Falling edges raise interrupts. */
    method ReevaluatePort()
      requires Valid()
      modifies `portState, `line, `pending
      ensures Valid() && portState == PortState(input, direction, activeEdge)
      ensures Snapshot() == Raised(old(Snapshot()), Fallen(old(portState), portState))
    {
      hide Consistent, Raised, PortState, Fallen, Changed;
      var state := PortState(input, direction, activeEdge);
      var falling := Changed(portState, state);
      FallenIs(portState, state);
      RaisedNothing(Snapshot());
      RaisedConsistent(Snapshot(), Spread(falling));
      if falling != 0 {
        BeginInterrupts(Spread(falling));
      }
      portState := state;
    }
  }

  // What the port and the timers add.

  function PortState(input: bv8, direction: bv8, activeEdge: bv8): bv8 {
    (input & !direction) ^ activeEdge
  }

  /** The lines that have changed and had been set, as the source finds them. */
  function Changed(was: bv8, now: bv8): bv8 {
    (now ^ was) & was
  }

  function Spread(lines: bv8): Word {
    var l := lines as bv16;
    Word((l & 0x0f) | ((l & 0x30) << 2) | ((l & 0xc0) << 8))
  }

  lemma FallenIs(was: bv8, now: bv8)
    ensures Fallen(was, now) == Spread(Changed(was, now))
    ensures Changed(was, now) == 0 ==> Fallen(was, now) == NONE
  {
    assert Changed(was, now) == was & !now;
  }

  /** Each port line that falls raises its own interrupt, GPIP0 to GPIP7 being 0 to 3, 6, 7, 14 and 15, and
      nothing else is raised. */
  lemma FallenByLine(was: bv8, now: bv8)
    ensures var raised, fell := Fallen(was, now).bits, was & !now;
            && (raised & 0x0001 != 0 <==> fell & 0x01 != 0) && (raised & 0x0002 != 0 <==> fell & 0x02 != 0)
            && (raised & 0x0004 != 0 <==> fell & 0x04 != 0) && (raised & 0x0008 != 0 <==> fell & 0x08 != 0)
            && (raised & 0x0040 != 0 <==> fell & 0x10 != 0) && (raised & 0x0080 != 0 <==> fell & 0x20 != 0)
            && (raised & 0x4000 != 0 <==> fell & 0x40 != 0) && (raised & 0x8000 != 0 <==> fell & 0x80 != 0)
            && raised & 0x3f30 == 0
  {
  }

  /** A change of mode without a reset lets the current unit run its course: the next decrement comes after
      as many cycles as it would have done, whatever the new prescale. */
  lemma ModeChangeKeepsUnit(t: Timer, mode: Mode, prescale: int, n: nat)
    requires TimerValid(t) && prescale > 0
    ensures Due(WithMode(t, mode, prescale, false), n) > 0 <==> n >= t.prescale - t.prescaleCount
    ensures Due(t, n) > 0 <==> n >= t.prescale - t.prescaleCount
  {
    var u := WithMode(t, mode, prescale, false);
    DueIs(t, n);
    DueIs(u, n);
    AtLeastOne(t.prescaleCount + n, t.prescale);
    AtLeastOne(u.prescaleCount + n, prescale);
    hide Due;
  }

  lemma AtLeastOne(c: int, p: int)
    requires p > 0
    ensures c >= p ==> c / p > 0
  {
  }

  /** The event input of each of the timers has a bit of the active edge register. */
  function ActiveHigh(activeEdge: bv8, timer: int): bool
    requires 0 <= timer < 4
  {
    activeEdge & (if timer == 0 then 0x10 else if timer == 1 then 0x08 else if timer == 2 then 0x04 else 0x02) != 0
  }

  /** The mode and prescale that a control register selects. */
  function ModeOf(selection: int): Mode
    requires 0 <= selection < 16
  {
    if selection == 0 then Stopped
    else if selection < 8 then Delay
    else if selection == 8 then EventCount
    else PulseWidth
  }

  function PrescaleOf(selection: int): (p: int)
    requires 0 <= selection < 16
    ensures p >= 1 && (Clocked(ModeOf(selection)) ==> p >= 4)
  {
    Prescale(selection % 8)
  }

  /** The timers, the half cycle kept back, and the interrupts. */
  datatype Chip = Chip(a: Timer, b: Timer, c: Timer, d: Timer, halfCycles: int, interrupts: Interrupts)

  /** The interrupts raised in some cycles. */
  function RaisedIn(a: Timer, b: Timer, c: Timer, d: Timer, cycles: nat): Word {
    Either(Either(RaisedBy(0, CycleExpiries(a, cycles)), RaisedBy(1, CycleExpiries(b, cycles))),
           Either(RaisedBy(2, CycleExpiries(c, cycles)), RaisedBy(3, CycleExpiries(d, cycles))))
  }

  /** Every timer run cycle by cycle for the whole cycles there are. */
  function ChipAfter(s: Chip, time: nat): Chip
    requires s.halfCycles >= 0
  {
    var cycles := (s.halfCycles + time) / 2;
    Chip(Cycled(s.a, cycles), Cycled(s.b, cycles), Cycled(s.c, cycles), Cycled(s.d, cycles),
         (s.halfCycles + time) % 2, Raised(s.interrupts, RaisedIn(s.a, s.b, s.c, s.d, cycles)))
  }

  lemma RaisedNothing(i: Interrupts)
    requires Consistent(i)
    ensures Raised(i, NONE) == i
  {
    hide LineOf;
  }

  lemma RaisedConsistent(i: Interrupts, bits: Word)
    requires Consistent(i)
    ensures Consistent(Raised(i, bits))
  {
    ActKeepsConsistent(i, Raise(bits));
  }

  lemma RaisedTwice(i: Interrupts, a: Word, b: Word)
    ensures Raised(Raised(i, a), b) == Raised(i, Either(a, b))
  {
    EitherEnabled(i.pending, a, b, i.enable);
    hide LineOf, Either, Both;
  }

  lemma EitherEnabled(pending: Word, a: Word, b: Word, enable: Word)
    ensures Either(Either(pending, Both(a, enable)), Both(b, enable)) == Either(pending, Both(Either(a, b), enable))
  {
  }

  lemma NothingDecremented(t: Timer, timer: int, i: Interrupts)
    requires 0 <= timer < 4 && Consistent(i)
    ensures Decremented(t, 0) == t && Raised(i, RaisedBy(timer, Expiries(t, 0))) == i
    ensures Raised(i, RaisedBy(timer, 0)) == i
  {
    RaisedNothing(i);
  }

  lemma Unclocked(t: Timer, n: nat)
    requires !Clocked(t.mode)
    ensures Cycled(t, n) == t && CycleExpiries(t, n) == 0
    decreases n
  {
  }

  lemma FromZero(t: Timer)
    requires t.value == 0
    ensures Decremented(t, 1) == t.(value := 255) && Expiries(t, 1) == 0
  {
    assert Decremented(t, 1) == Decremented(Decrement(t), 0);
  }

  lemma ReloadedIs(t: Timer)
    ensures Reloaded(t) == t.(value := if t.mode.Delay? || t.mode.EventCount? then t.reload else 0)
  {
  }

  lemma RaisedAgain(i: Interrupts, timer: int, expiries: nat)
    requires 0 <= timer < 4 && Consistent(Raised(i, RaisedBy(timer, expiries)))
    ensures Raised(Raised(i, RaisedBy(timer, expiries)), InterruptOf(timer)) == Raised(i, RaisedBy(timer, expiries + 1))
    ensures Consistent(Raised(i, RaisedBy(timer, expiries + 1)))
  {
    RaisedTwice(i, RaisedBy(timer, expiries), InterruptOf(timer));
    RaisedConsistent(Raised(i, RaisedBy(timer, expiries)), InterruptOf(timer));
    EitherSame(InterruptOf(timer));
    hide InterruptOf, Either, Raised, Consistent;
  }

  lemma EitherSame(a: Word)
    ensures Either(a, a) == a && Either(NONE, a) == a && Either(a, NONE) == a
  {
  }

  lemma RaisedFour(i: Interrupts, a: Timer, b: Timer, c: Timer, d: Timer, n: nat)
    requires Consistent(i)
    ensures Raised(Raised(Raised(Raised(i, RaisedBy(0, CycleExpiries(a, n))), RaisedBy(1, CycleExpiries(b, n))),
                          RaisedBy(2, CycleExpiries(c, n))), RaisedBy(3, CycleExpiries(d, n)))
         == Raised(i, RaisedIn(a, b, c, d, n))
    ensures n == 0 ==> Raised(i, RaisedIn(a, b, c, d, n)) == i
    ensures Cycled(a, 0) == a && Cycled(b, 0) == b && Cycled(c, 0) == c && Cycled(d, 0) == d
  {
    RaisedNothing(i);
    EitherSame(NONE);
    var x, y := RaisedBy(0, CycleExpiries(a, n)), RaisedBy(1, CycleExpiries(b, n));
    var z, w := RaisedBy(2, CycleExpiries(c, n)), RaisedBy(3, CycleExpiries(d, n));
    assert n == 0 ==> x == y == z == w == NONE;
    hide Raised, Consistent, RaisedBy, CycleExpiries, Cycled;
    EitherGrouped(x, y, z, w);
    hide Either;
    RaisedTwice(i, x, y);
    RaisedTwice(i, Either(x, y), z);
    RaisedTwice(i, Either(Either(x, y), z), w);
  }

  lemma EitherGrouped(x: Word, y: Word, z: Word, w: Word)
    ensures Either(Either(Either(x, y), z), w) == Either(Either(x, y), Either(z, w))
  {
  }

  /** However time is divided into calls, the timers, their prescaling, the half cycle kept back and the
      interrupts come out the same. */
  lemma RunsDivide(s: Chip, a: nat, b: nat)
    requires s.halfCycles >= 0
    ensures ChipAfter(ChipAfter(s, a), b) == ChipAfter(s, a + b)
  {
    hide Cycled, RaisedIn, Raised;
    var n, m := (s.halfCycles + a) / 2, ((s.halfCycles + a) % 2 + b) / 2;
    HalvesDivide(s.halfCycles, a, b);
    CycledSplits(s.a, n, m);
    CycledSplits(s.b, n, m);
    CycledSplits(s.c, n, m);
    CycledSplits(s.d, n, m);
    var t := ChipAfter(s, a);
    RaisedTwice(s.interrupts, RaisedIn(s.a, s.b, s.c, s.d, n), RaisedIn(t.a, t.b, t.c, t.d, m));
    RaisedInDivides(s, n, m);
  }

  lemma HalvesDivide(h: nat, a: nat, b: nat)
    ensures (h + a) / 2 + ((h + a) % 2 + b) / 2 == (h + a + b) / 2
    ensures ((h + a) % 2 + b) % 2 == (h + a + b) % 2
  {
  }

  lemma RaisedInDivides(s: Chip, n: nat, m: nat)
    ensures Either(RaisedIn(s.a, s.b, s.c, s.d, n),
                   RaisedIn(Cycled(s.a, n), Cycled(s.b, n), Cycled(s.c, n), Cycled(s.d, n), m))
         == RaisedIn(s.a, s.b, s.c, s.d, n + m)
  {
    hide Either, RaisedBy, Cycled, CycleExpiries;
    RaisedInBoth(0, s.a, n, m);
    RaisedInBoth(1, s.b, n, m);
    RaisedInBoth(2, s.c, n, m);
    RaisedInBoth(3, s.d, n, m);
    EitherPairs(RaisedBy(0, CycleExpiries(s.a, n)), RaisedBy(1, CycleExpiries(s.b, n)),
                RaisedBy(2, CycleExpiries(s.c, n)), RaisedBy(3, CycleExpiries(s.d, n)),
                RaisedBy(0, CycleExpiries(Cycled(s.a, n), m)), RaisedBy(1, CycleExpiries(Cycled(s.b, n), m)),
                RaisedBy(2, CycleExpiries(Cycled(s.c, n), m)), RaisedBy(3, CycleExpiries(Cycled(s.d, n), m)));
  }

  lemma RaisedInBoth(timer: int, t: Timer, n: nat, m: nat)
    requires 0 <= timer < 4
    ensures Either(RaisedBy(timer, CycleExpiries(t, n)), RaisedBy(timer, CycleExpiries(Cycled(t, n), m)))
         == RaisedBy(timer, CycleExpiries(t, n + m))
  {
    CycledSplits(t, n, m);
    EitherSame(InterruptOf(timer));
    EitherSame(NONE);
    hide Either, InterruptOf, Cycled, CycleExpiries;
  }

  lemma EitherPairs(p: Word, q: Word, r: Word, s: Word, p': Word, q': Word, r': Word, s': Word)
    ensures Either(Either(Either(p, q), Either(r, s)), Either(Either(p', q'), Either(r', s')))
         == Either(Either(Either(p, p'), Either(q, q')), Either(Either(r, r'), Either(s, s')))
  {
  }

  /** A vector: the number of an interrupt within the vector register's high nibble. */
  function VectorFor(vector: bv8, n: nat): bv16 {
    (vector & 0xf0) as bv16 | NumberOf(n)
  }

  function Doubled(w: Word): Word {
    Word(w.bits << 1)
  }

  predicate NothingBeyond(inService: Word, highest: Word) {
    inService.bits & !(highest.bits + (highest.bits - 1)) == 0
  }

  function Bit(n: nat): Word {
    if n == 0 then Word(1) else Doubled(Bit(n - 1))
  }

  function NumberOf(n: nat): bv16 {
    if n == 0 then 0 else NumberOf(n - 1) + 1
  }

  /** The source's test for nothing more important in service. */
  lemma NothingAbove(inService: Word, firing: Word)
    requires firing != NONE
    ensures NothingBeyond(inService, Msb16(firing)) <==> NoHigher(Msb16(inService), Msb16(firing))
  {
  }

  lemma FirstBit(taken: Word)
    requires SingleBit(taken)
    ensures Bit(0) == Word(1) && NoHigher(Word(1), taken)
  {
  }

  lemma NextBit(n: nat, taken: Word)
    requires n < 16 && SingleBit(taken) && NoHigher(Bit(n), taken) && Bit(n) != taken
    ensures n + 1 < 16 && Bit(n + 1) == Doubled(Bit(n)) && NoHigher(Bit(n + 1), taken)
  {
    Bits(n);
    DoubledWithin(Bit(n), taken);
  }

  lemma Bits(n: nat)
    requires n < 16
    ensures SingleBit(Bit(n)) && (n == 15 ==> Bit(n) == Word(0x8000))
  {
    assert Bit(2) == Word(0x4) && Bit(4) == Word(0x10) && Bit(6) == Word(0x40) && Bit(8) == Word(0x100);
    assert Bit(10) == Word(0x400) && Bit(12) == Word(0x1000) && Bit(14) == Word(0x4000);
  }

  lemma DoubledWithin(bit: Word, taken: Word)
    requires SingleBit(bit) && SingleBit(taken) && NoHigher(bit, taken) && bit != taken
    ensures NoHigher(Doubled(bit), taken) && bit != Word(0x8000)
  {
  }
}
