/** What the 6845's cycle-by-cycle update amounts to over whole frames: the exact frame period, the
    address generated at every character, and what the bus handler is shown, with the registers
    left alone, interlacing off and a horizontal total of at least three. */
module CRTC6845Frame {
  import opened Arithmetic
  import opened CRTC6845

  /** A cycle of a frame: a column of a line of a character row, or of a line of the vertical adjust period. */
  datatype Position = Row(row: nat, line: nat, column: nat) | Adjust(line: nat, column: nat)

  predicate Regular(l: Layout) {
    l.interlace == Off && l.hTotal >= 3
  }

  predicate InFrame(l: Layout, p: Position) {
    p.column <= l.hTotal &&
    match p
    case Row(row, line, _) => row <= l.vTotal && line <= l.endLine
    case Adjust(line, _) => line < l.vAdjust
  }

  const START := Row(0, 0, 0)

  predicate IsLast(l: Layout, p: Position) {
    p.column == l.hTotal &&
    match p
    case Row(row, line, _) => row == l.vTotal && line == l.endLine && l.vAdjust == 0
    case Adjust(line, _) => line + 1 == l.vAdjust
  }

  function After(l: Layout, p: Position): (q: Position)
    requires InFrame(l, p) && !IsLast(l, p)
    ensures InFrame(l, q)
  {
    if p.column < l.hTotal then p.(column := p.column + 1)
    else match p
      case Row(row, line, _) =>
        if line < l.endLine then Row(row, line + 1, 0)
        else if row < l.vTotal then Row(row + 1, 0, 0)
        else Adjust(0, 0)
      case Adjust(line, _) => Adjust(line + 1, 0)
  }

  /** The number of lines from the start of the frame to the line of p. */
  function LinesBefore(l: Layout, p: Position): nat {
    match p
    case Row(row, line, _) => row * (l.endLine + 1) + line
    case Adjust(line, _) => (l.vTotal + 1) * (l.endLine + 1) + line
  }

  /** The number of cycles from the start of the frame to p. */
  function Index(l: Layout, p: Position): nat {
    LinesBefore(l, p) * (l.hTotal + 1) + p.column
  }

  function Period(l: Layout): nat {
    NonNegative(l.vTotal + 1, l.endLine + 1);
    NonNegative((l.vTotal + 1) * (l.endLine + 1) + l.vAdjust, l.hTotal + 1);
    ((l.vTotal + 1) * (l.endLine + 1) + l.vAdjust) * (l.hTotal + 1)
  }

  lemma NonNegative(a: nat, b: nat)
    ensures a * b >= 0
  {
  }

  lemma AfterIsNext(l: Layout, p: Position)
    requires InFrame(l, p) && !IsLast(l, p)
    ensures Index(l, After(l, p)) == Index(l, p) + 1
  {
    if p.column == l.hTotal {
      Distribute(LinesBefore(l, p), 1, l.hTotal + 1);
      if p.Row? {
        Distribute(p.row, 1, l.endLine + 1);
      }
    }
  }

  lemma LinesInFrame(l: Layout, p: Position)
    requires InFrame(l, p)
    ensures var total := (l.vTotal + 1) * (l.endLine + 1) + l.vAdjust;
            LinesBefore(l, p) < total && (p.column == l.hTotal ==> (IsLast(l, p) <==> LinesBefore(l, p) + 1 == total))
  {
    if p.Row? {
      var rest := l.vTotal - p.row;
      Distribute(p.row + 1, rest, l.endLine + 1);
      Distribute(p.row, 1, l.endLine + 1);
      if rest > 0 {
        Distribute(rest - 1, 1, l.endLine + 1);
        NonNegative(rest - 1, l.endLine + 1);
      }
    }
  }

  lemma LastIndex(l: Layout, p: Position)
    requires InFrame(l, p)
    ensures if IsLast(l, p) then Index(l, p) + 1 == Period(l) else Index(l, p) + 1 < Period(l)
  {
    LinesInFrame(l, p);
    LastOfGrid(LinesBefore(l, p), (l.vTotal + 1) * (l.endLine + 1) + l.vAdjust, p.column, l.hTotal + 1);
  }

  lemma LastOfGrid(line: nat, lines: nat, column: nat, columns: nat)
    requires line < lines && column < columns
    ensures line * columns + column + 1 <= lines * columns
    ensures line * columns + column + 1 == lines * columns <==> line + 1 == lines && column + 1 == columns
  {
    var rest := lines - line - 1;
    Distribute(line + 1, rest, columns);
    Distribute(line, 1, columns);
    if rest > 0 {
      Distribute(rest - 1, 1, columns);
      assert (rest - 1) * columns >= 0;
    }
  }

  /** The line on which the end-of-main latch is set: the last line of the last row. */
  predicate OnFinalLine(l: Layout, p: Position) {
    p.Row? && p.row == l.vTotal && p.line == l.endLine
  }

  /** A history bit is only ever set on its own column. */
  predicate HistoryKept(s: State) {
    && (s.history.reset0 ==> s.h.counter == 0)
    && (s.history.reset1 ==> s.h.counter == 1)
    && (s.history.reset2 ==> s.h.counter == 2)
  }

  /** What the counters and latches hold at the start of the cycle at position p. */
  predicate At(l: Layout, s: State, p: Position) {
    && HistoryKept(s)
    && s.h.counter == p.column
    && !s.addresses.lineInterlaced
    && match p {
      case Row(row, line, column) =>
        && s.v.line == line
        && s.v.nextRow == row
        && !s.lines.inAdjustment
        && (column > 0 ==> s.v.row == row && s.v.nextLine == if line == l.endLine then 0 else line + 1)
        && if OnFinalLine(l, p) then
             && (s.history.reset0 <==> column == 0)
             && (s.history.reset1 <==> column == 1)
             && (s.history.reset2 <==> column == 2)
             && s.latches == Latches(column > 2 && l.vAdjust == 0, column > 1 && l.vAdjust != 0, column > 0)
           else
             s.latches == Latches(false, false, false)
      case Adjust(line, column) =>
        && s.v.line == line
        && s.v.nextRow == (l.vTotal + 1) % 128
        && s.lines.inAdjustment
        && (column > 0 ==> s.v.row == (l.vTotal + 1) % 128 && s.v.nextLine == (line + 1) % 32)
        && (s.history.reset0 <==> column == 0)
        && (s.history.reset1 <==> column == 1)
        && (s.history.reset2 <==> column == 2)
        && s.latches == Latches(column > 2 && line + 1 == l.vAdjust, column <= 1 || line + 1 != l.vAdjust, true)
    }
  }

  lemma NewFrameOnlyLast(l: Layout, s: State, p: Position)
    requires Regular(l) && InFrame(l, p) && At(l, s, p)
    ensures NewFrame(l, s) <==> IsLast(l, p)
  {
  }

  lemma FrameAdvances(ct: CursorType, l: Layout, s: State, p: Position)
    requires Regular(l) && InFrame(l, p) && At(l, s, p) && !IsLast(l, p)
    ensures At(l, Step(ct, l, s), After(l, p))
  {
  }

  lemma FrameStarts(ct: CursorType, l: Layout, s: State)
    requires Regular(l) && HistoryKept(s) && NewFrame(l, s)
    ensures At(l, Step(ct, l, s), START)
  {
  }

  /** The history bits that n cycles have filled, of those there were before, are on their own columns. */
  predicate FilledKept(s: State, n: nat) {
    && (n >= 1 && s.history.reset0 ==> s.h.counter == 0)
    && (n >= 2 && s.history.reset1 ==> s.h.counter == 1)
    && (n >= 3 && s.history.reset2 ==> s.h.counter == 2)
  }

  lemma FilledStep(ct: CursorType, l: Layout, s: State, n: nat)
    requires l.hTotal >= 3 && FilledKept(s, n)
    ensures FilledKept(Step(ct, l, s), n + 1)
  {
  }

  lemma {:induction false} FilledRun(ct: CursorType, l: Layout, s: State, k: nat, n: nat)
    requires l.hTotal >= 3 && FilledKept(s, k)
    ensures FilledKept(Run(ct, l, s, n), k + n)
    decreases n
  {
    hide FilledKept, Step;
    if n > 0 {
      FilledRun(ct, l, s, k, n - 1);
      FilledStep(ct, l, Run(ct, l, s, n - 1), k + n - 1);
    }
  }

  /** Three cycles put the history bits of any state on their own columns, and they then stay there. */
  lemma HistoryAlwaysKept(ct: CursorType, l: Layout, s: State, n: nat)
    requires l.hTotal >= 3 && (n >= 3 || HistoryKept(s))
    ensures HistoryKept(Run(ct, l, s, n))
  {
    if n >= 3 {
      FilledRun(ct, l, s, 0, n);
    } else {
      FilledRun(ct, l, s, 3, n);
    }
    hide Run;
  }

  // Registers written as the chip runs.

  /** A cycle, or a write that leaves the registers in some layout; that of the cursor's start takes its mask again. */
  datatype Event = Cycle | Write(layout: Layout, cursorStart: bool)

  function WithMask(ct: CursorType, l: Layout, s: State): State {
    var mask := CursorMask(ct, l.cursorFlags, s.bus.fieldCount, s.display.cursorMask);
    s.(display := s.display.(cursorMask := mask))
  }

  /** The registers and state after some cycles and writes since power-on. */
  function Reached(ct: CursorType, initial: Layout, events: seq<Event>): (Layout, State)
    decreases |events|
  {
    if events == [] then (initial, POWER_ON)
    else
      var (l, s) := Reached(ct, initial, events[..|events| - 1]);
      match events[|events| - 1]
      case Cycle => (l, Step(ct, l, s))
      case Write(layout, cursorStart) => (layout, if cursorStart then WithMask(ct, layout, s) else s)
  }

  /** Whatever the registers were, the counter cannot have gone further since a total hit than there have been
      cycles. */
  predicate HistoryRecent(s: State) {
    && (s.history.reset0 ==> s.h.counter == 0)
    && (s.history.reset1 ==> s.h.counter <= 1)
    && (s.history.reset2 ==> s.h.counter <= 2)
  }

  lemma RecentStep(ct: CursorType, l: Layout, s: State)
    requires HistoryRecent(s)
    ensures HistoryRecent(Step(ct, l, s))
  {
  }

  /** That is so of every state there can be: however the registers are written, and when. */
  lemma {:induction false} HistoryAlwaysRecent(ct: CursorType, initial: Layout, events: seq<Event>)
    ensures HistoryRecent(Reached(ct, initial, events).1)
    decreases |events|
  {
    if events != [] {
      hide Step, WithMask;
      var before := events[..|events| - 1];
      HistoryAlwaysRecent(ct, initial, before);
      var (l, s) := Reached(ct, initial, before);
      RecentStep(ct, l, s);
      match events[|events| - 1] {
        case Cycle =>
        case Write(layout, _) => RecentWrite(ct, layout, s);
      }
    }
  }

  lemma RecentWrite(ct: CursorType, l: Layout, s: State)
    requires HistoryRecent(s)
    ensures HistoryRecent(WithMask(ct, l, s))
  {
  }

  lemma {:induction false} RecentRun(ct: CursorType, l: Layout, s: State, n: nat)
    requires HistoryRecent(s)
    ensures HistoryRecent(Run(ct, l, s, n))
  {
    hide HistoryRecent, Step;
    if n > 0 {
      RecentRun(ct, l, s, n - 1);
      RecentStep(ct, l, Run(ct, l, s, n - 1));
    }
  }

  /** A cycle of a run, with the registers left alone, in which a new frame is signalled: any cycle, if the run
      began in a state there can be, and otherwise any after its first three. */
  predicate FrameBegins(ct: CursorType, l: Layout, s: State, t: nat) {
    Regular(l) && (t >= 3 || HistoryRecent(s)) && NewFrame(l, Run(ct, l, s, t))
  }

  lemma HistoryWhenFrameBegins(ct: CursorType, l: Layout, s: State, t: nat)
    requires FrameBegins(ct, l, s, t)
    ensures HistoryKept(Run(ct, l, s, t))
  {
    hide Run;
    if t >= 3 {
      HistoryAlwaysKept(ct, l, s, t);
    } else {
      RecentRun(ct, l, s, t);
    }
  }

  /** From a state at START, the state n cycles later is at the position with index n. */
  lemma {:induction false} AtOffset(ct: CursorType, l: Layout, s: State, n: nat) returns (p: Position)
    requires Regular(l) && At(l, s, START) && n < Period(l)
    ensures InFrame(l, p) && Index(l, p) == n && At(l, Run(ct, l, s, n), p)
  {
    hide At, Step;
    if n == 0 {
      p := START;
    } else {
      var before := AtOffset(ct, l, s, n - 1);
      LastIndex(l, before);
      AfterIsNext(l, before);
      FrameAdvances(ct, l, Run(ct, l, s, n - 1), before);
      p := After(l, before);
    }
  }

  /** In a frame that starts properly, the only new-frame cycle is the last one. */
  lemma NewFrameAtEnd(ct: CursorType, l: Layout, s: State, n: nat)
    requires Regular(l) && At(l, s, START) && n < Period(l)
    ensures NewFrame(l, Run(ct, l, s, n)) <==> n + 1 == Period(l)
  {
    hide At, NewFrame;
    var p := AtOffset(ct, l, s, n);
    LastIndex(l, p);
    NewFrameOnlyLast(l, Run(ct, l, s, n), p);
  }

  lemma {:induction false} RunOnward(ct: CursorType, l: Layout, s: State, m: nat, n: nat)
    ensures Run(ct, l, Run(ct, l, s, m), n) == Run(ct, l, s, m + n)
  {
    hide Step;
    if n > 0 {
      RunOnward(ct, l, s, m, n - 1);
    }
  }

  /** From whatever state the registers are left alone, each new-frame cycle is followed by the next one exactly
      Period(l) cycles later, whatever the horizontal and vertical totals, end line and adjustment. */
  lemma FramePeriod(ct: CursorType, l: Layout, s: State, t: nat, n: nat)
    requires FrameBegins(ct, l, s, t) && 0 < n <= Period(l)
    ensures NewFrame(l, Run(ct, l, s, t + n)) <==> n == Period(l)
  {
    hide At, NewFrame, Step, HistoryKept;
    HistoryWhenFrameBegins(ct, l, s, t);
    FrameStarts(ct, l, Run(ct, l, s, t));
    NewFrameAtEnd(ct, l, Run(ct, l, s, t + 1), n - 1);
    RunOnward(ct, l, s, t + 1, n - 1);
  }

  // The first frame.

  predicate SingleLine(l: Layout) {
    l.vTotal == 0 && l.endLine == 0
  }

  /** A frame of a single line has to be flagged by a total hit before it, and at power-on there is none. So
      the row counter goes on counting lines: this is line j, column c, until it wraps. */
  predicate Unflagged(l: Layout, s: State, j: nat, c: nat) {
    && HistoryKept(s)
    && s.h.counter == c
    && s.v.line == 0
    && s.v.nextRow == j
    && (c > 0 ==> s.v.row == j && s.v.nextLine == 0)
    && (j == 0 ==> !s.history.reset0)
    && !s.addresses.lineInterlaced
    && !s.lines.inAdjustment
    && s.latches == Latches(false, false, false)
  }

  lemma UnflaggedAdvances(ct: CursorType, l: Layout, s: State, j: nat, c: nat)
    requires Regular(l) && SingleLine(l) && j < 128 && c <= l.hTotal && Unflagged(l, s, j, c)
    ensures !NewFrame(l, s)
    ensures c < l.hTotal ==> Unflagged(l, Step(ct, l, s), j, c + 1)
    ensures c == l.hTotal && j < 127 ==> Unflagged(l, Step(ct, l, s), j + 1, 0)
    ensures c == l.hTotal && j == 127 ==> At(l, Step(ct, l, s), START)
  {
    hide NextVsync, NextHsync, NextDisplay, NextFieldCount, NextCursorLine, LineOnBus;
  }

  lemma PowerOnUnflagged(l: Layout)
    ensures Unflagged(l, POWER_ON, 0, 0)
  {
  }

  lemma {:induction false} UnflaggedOffset(ct: CursorType, l: Layout, j: nat, c: nat, n: nat)
    requires Regular(l) && SingleLine(l) && j < 128 && c <= l.hTotal && n == j * (l.hTotal + 1) + c
    ensures Unflagged(l, Run(ct, l, POWER_ON, n), j, c)
    decreases j, c
  {
    hide Regular, SingleLine, Unflagged, NewFrame, At, Step;
    if c > 0 {
      UnflaggedOffset(ct, l, j, c - 1, n - 1);
      UnflaggedAdvances(ct, l, Run(ct, l, POWER_ON, n - 1), j, c - 1);
    } else if j > 0 {
      Distribute(j - 1, 1, l.hTotal + 1);
      NonNegative(j - 1, l.hTotal + 1);
      UnflaggedOffset(ct, l, j - 1, l.hTotal, n - 1);
      UnflaggedAdvances(ct, l, Run(ct, l, POWER_ON, n - 1), j - 1, l.hTotal);
    } else {
      PowerOnUnflagged(l);
    }
  }

  lemma NoFrameUnflagged(ct: CursorType, l: Layout, n: nat)
    requires Regular(l) && SingleLine(l) && n < 128 * (l.hTotal + 1)
    ensures !NewFrame(l, Run(ct, l, POWER_ON, n))
  {
    hide *;
    var width := l.hTotal + 1;
    FloorDivides(n, width);
    Monotonic(128, n / width, width);
    UnflaggedOffset(ct, l, n / width, n % width, n);
    UnflaggedAdvances(ct, l, Run(ct, l, POWER_ON, n), n / width, n % width);
  }

  lemma WrappedAtStart(ct: CursorType, l: Layout)
    requires Regular(l) && SingleLine(l)
    ensures At(l, Run(ct, l, POWER_ON, 128 * (l.hTotal + 1)), START)
  {
    hide Regular, SingleLine, Unflagged, NewFrame, At, Step;
    var n := 128 * (l.hTotal + 1) - 1;
    UnflaggedOffset(ct, l, 127, l.hTotal, n);
    UnflaggedAdvances(ct, l, Run(ct, l, POWER_ON, n), 127, l.hTotal);
  }

  /** The lines that pass before the first frame. */
  function LinesUnflagged(l: Layout): nat {
    if SingleLine(l) then 128 else 0
  }

  function FirstPeriod(l: Layout): nat {
    NonNegative(LinesUnflagged(l), l.hTotal + 1);
    LinesUnflagged(l) * (l.hTotal + 1) + Period(l)
  }

  /** The first new-frame cycle of a run from power-on: as a frame later would be, or, if a frame is a single
      line, 128 lines after that. */
  lemma FirstFrame(ct: CursorType, l: Layout, n: nat)
    requires Regular(l) && n < FirstPeriod(l)
    ensures NewFrame(l, Run(ct, l, POWER_ON, n)) <==> n + 1 == FirstPeriod(l)
  {
    hide At, NewFrame, Step, Period, Run;
    if !SingleLine(l) {
      PowerOnAtStart(l);
      NewFrameAtEnd(ct, l, POWER_ON, n);
    } else if n < 128 * (l.hTotal + 1) {
      NoFrameUnflagged(ct, l, n);
      PeriodPositive(l);
    } else {
      var lines := 128 * (l.hTotal + 1);
      WrappedAtStart(ct, l);
      NewFrameAtEnd(ct, l, Run(ct, l, POWER_ON, lines), n - lines);
      RunOnward(ct, l, POWER_ON, lines, n - lines);
    }
  }

  lemma PowerOnAtStart(l: Layout)
    requires Regular(l) && !SingleLine(l)
    ensures At(l, POWER_ON, START)
  {
  }

  lemma PeriodPositive(l: Layout)
    ensures Period(l) > 0
  {
    Monotonic(1, (l.vTotal + 1) * (l.endLine + 1) + l.vAdjust, l.hTotal + 1);
    Monotonic(1, l.vTotal + 1, l.endLine + 1);
  }

  /** So it comes where the end of a frame should be exactly if a frame has more than one line. */
  lemma FirstFrameOnTime(ct: CursorType, l: Layout)
    requires Regular(l)
    ensures Period(l) > 0
    ensures NewFrame(l, Run(ct, l, POWER_ON, Period(l) - 1)) <==> l.vTotal > 0 || l.endLine > 0
  {
    PeriodPositive(l);
    FirstFrame(ct, l, Period(l) - 1);
  }

  /** And FramePeriod always has a first frame to begin from. */
  lemma FramesRecur(ct: CursorType, l: Layout, k: nat)
    requires Regular(l)
    ensures FirstPeriod(l) + k * Period(l) > 0
    ensures NewFrame(l, Run(ct, l, POWER_ON, FirstPeriod(l) + k * Period(l) - 1))
    decreases k
  {
    hide NewFrame, Step;
    PeriodPositive(l);
    NonNegative(k, Period(l));
    if k == 0 {
      FirstFrame(ct, l, FirstPeriod(l) - 1);
    } else {
      FramesRecur(ct, l, k - 1);
      Distribute(k - 1, 1, Period(l));
      FramePeriod(ct, l, POWER_ON, FirstPeriod(l) + (k - 1) * Period(l) - 1, Period(l));
    }
  }

  // Addresses.

  /** The address at the left of the first line of a row, and of its other lines. */
  function Bases(l: Layout, row: nat): (U14, U14) {
    if row == 0 then (l.startAddress, l.startAddress)
    else
      var (first, rest) := Bases(l, row - 1);
      var next := ((if l.endLine == 0 then first else rest) + l.hDisplayed) % 16384;
      if l.hDisplayed < l.hTotal then (next, next)
      else if l.hDisplayed == l.hTotal then (rest, next)
      else (rest, rest)
  }

  function Base(l: Layout, p: Position): U14 {
    var bases := Bases(l, if p.Row? then p.row else l.vTotal + 1);
    if p.line == 0 then bases.0 else bases.1
  }

  predicate AddressedAt(l: Layout, s: State, p: Position) {
    var rest := Bases(l, if p.Row? then p.row else l.vTotal + 1).1;
    && s.addresses.refresh == (Base(l, p) + p.column) % 16384
    && (p.column > 0 ==> s.bus.refresh == (Base(l, p) + p.column - 1) % 16384)
    && s.addresses.lineAddress ==
       if p.Row? && p.line == l.endLine && p.column > l.hDisplayed then (Base(l, p) + l.hDisplayed) % 16384 else rest
  }

  lemma NextAddress(address: nat)
    ensures Next(address % 16384, 16383) == (address + 1) % 16384
  {
  }

  lemma AddressAdvances(ct: CursorType, l: Layout, s: State, p: Position)
    requires Regular(l) && InFrame(l, p) && At(l, s, p) && !IsLast(l, p) && AddressedAt(l, s, p)
    ensures AddressedAt(l, Step(ct, l, s), After(l, p))
  {
    if p.column < l.hTotal {
      AddressWithinLine(ct, l, s, p);
    } else {
      AddressAcrossLines(ct, l, s, p);
    }
  }

  lemma AddressWithinLine(ct: CursorType, l: Layout, s: State, p: Position)
    requires Regular(l) && InFrame(l, p) && At(l, s, p) && p.column < l.hTotal && AddressedAt(l, s, p)
    ensures AddressedAt(l, Step(ct, l, s), p.(column := p.column + 1))
  {
    hide NextVsync, NextHsync, NextDisplay, NextFieldCount, NextCursorLine, NextLatches, NextLines;
    hide LineOnBus, NextVertical, Bases, Next;
    NextAddress(Base(l, p) + p.column);
  }

  lemma AddressAcrossLines(ct: CursorType, l: Layout, s: State, p: Position)
    requires Regular(l) && InFrame(l, p) && At(l, s, p) && !IsLast(l, p) && p.column == l.hTotal && AddressedAt(l, s, p)
    ensures AddressedAt(l, Step(ct, l, s), After(l, p))
  {
    hide *;
    SignalsAt(l, s, p);
    if p.Row? && p.line == l.endLine {
      AddressAcrossRows(ct, l, s, p);
    } else {
      AddressWithinRow(ct, l, s, p);
    }
  }

  lemma SignalsAt(l: Layout, s: State, p: Position)
    requires Regular(l) && InFrame(l, p) && At(l, s, p)
    ensures s.h.counter == p.column
    ensures SignalsOf(l, s) == Signals(p.column == l.hTotal, p.Row? && p.line == l.endLine, IsLast(l, p))
  {
    NewFrameOnlyLast(l, s, p);
    hide HistoryKept, IsLast;
  }

  lemma AddressWithinRow(ct: CursorType, l: Layout, s: State, p: Position)
    requires InFrame(l, p) && !IsLast(l, p) && p.column == l.hTotal && s.h.counter == p.column && AddressedAt(l, s, p)
    requires SignalsOf(l, s) == Signals(true, false, false) && !(p.Row? && p.line == l.endLine)
    ensures AddressedAt(l, Step(ct, l, s), After(l, p))
  {
    hide NextVsync, NextHsync, NextDisplay, NextFieldCount, NextCursorLine, NextLatches, NextLines;
    hide LineOnBus, NextVertical, Next, Bases, SharedSignals;
  }

  lemma AddressAcrossRows(ct: CursorType, l: Layout, s: State, p: Position)
    requires InFrame(l, p) && !IsLast(l, p) && p.column == l.hTotal && s.h.counter == p.column && AddressedAt(l, s, p)
    requires SignalsOf(l, s) == Signals(true, true, false) && p.Row? && p.line == l.endLine
    ensures AddressedAt(l, Step(ct, l, s), After(l, p))
  {
    hide NextVsync, NextHsync, NextDisplay, NextFieldCount, NextCursorLine, NextLatches, NextLines;
    hide LineOnBus, NextVertical, Next, SharedSignals;
  }

  // Display enable.

  /** Whether the line of p is within the displayed rows. With no displayed rows at all the first line of
      a frame is still shown, and, if rows are one line high, so is everything up to a row counter of zero. */
  predicate Shown(l: Layout, p: Position) {
    match p
    case Row(row, line, _) =>
      if l.vDisplayed > 0 then row < l.vDisplayed else l.endLine == 0 || (row == 0 && line == 0)
    case Adjust(_, _) =>
      if l.vDisplayed > 0 then l.vTotal + 1 < l.vDisplayed else l.endLine == 0 && l.vTotal != 127
  }

  function PreviousLine(l: Layout, p: Position): Position
    requires InFrame(l, p)
  {
    match p
    case Row(row, line, column) =>
      if line > 0 then Row(row, line - 1, column)
      else if row > 0 then Row(row - 1, l.endLine, column)
      else p
    case Adjust(line, column) => if line > 0 then Adjust(line - 1, column) else Row(l.vTotal, l.endLine, column)
  }

  predicate ShownAt(l: Layout, s: State, p: Position)
    requires InFrame(l, p)
  {
    && (s.h.visible <==> 1 <= p.column <= l.hDisplayed)
    && (s.lines.firstScanline <==> p.Row? && p.row == 0 && p.line == 0)
    && (p.column > 0 ==> (s.display.rowVisible <==> Shown(l, p)))
    && (p.column == 0 && p != START ==> (s.display.rowVisible <==> Shown(l, PreviousLine(l, p))))
  }

  lemma DisplayAdvances(ct: CursorType, l: Layout, s: State, p: Position)
    requires Regular(l) && InFrame(l, p) && At(l, s, p) && !IsLast(l, p) && ShownAt(l, s, p)
    ensures ShownAt(l, Step(ct, l, s), After(l, p))
  {
    hide NextVsync, NextHsync, NextAddresses, NextCursorLine, CursorMask, LineOnBus;
    NewFrameOnlyLast(l, s, p);
  }

  lemma TrackingStarts(ct: CursorType, l: Layout, s: State)
    requires Regular(l) && HistoryKept(s) && NewFrame(l, s)
    ensures var next := Step(ct, l, s);
            At(l, next, START) && AddressedAt(l, next, START) && ShownAt(l, next, START)
  {
  }

  /** In the frame that a new-frame cycle begins, every cycle finds counters, addresses and display
      flags as its position says. */
  lemma {:induction false} TrackedOffset(ct: CursorType, l: Layout, s: State, n: nat) returns (p: Position)
    requires Regular(l) && n < Period(l)
    requires At(l, s, START) && AddressedAt(l, s, START) && ShownAt(l, s, START)
    ensures InFrame(l, p) && Index(l, p) == n
    ensures var reached := Run(ct, l, s, n); At(l, reached, p) && AddressedAt(l, reached, p) && ShownAt(l, reached, p)
  {
    hide At, AddressedAt, ShownAt, Step;
    if n == 0 {
      p := START;
    } else {
      var before := TrackedOffset(ct, l, s, n - 1);
      LastIndex(l, before);
      AfterIsNext(l, before);
      var reached := Run(ct, l, s, n - 1);
      FrameAdvances(ct, l, reached, before);
      AddressAdvances(ct, l, reached, before);
      DisplayAdvances(ct, l, reached, before);
      p := After(l, before);
    }
  }

  lemma GridInjective(a: nat, b: nat, i: nat, j: nat, columns: nat)
    requires i < columns && j < columns && a * columns + i == b * columns + j
    ensures a == b && i == j
  {
    if a < b {
      LastOfGrid(a, b, i, columns);
    } else if b < a {
      LastOfGrid(b, a, j, columns);
    }
  }

  lemma IndexInjective(l: Layout, p: Position, q: Position)
    requires InFrame(l, p) && InFrame(l, q)
    ensures Index(l, p) == Index(l, q) ==> p == q
  {
    if Index(l, p) != Index(l, q) {
      return;
    }
    GridInjective(LinesBefore(l, p), LinesBefore(l, q), p.column, q.column, l.hTotal + 1);
    if p.Row? && q.Row? {
      GridInjective(p.row, q.row, p.line, q.line, l.endLine + 1);
    } else if p.Row? {
      LastOfGrid(p.row, l.vTotal + 1, p.line, l.endLine + 1);
    } else if q.Row? {
      LastOfGrid(q.row, l.vTotal + 1, q.line, l.endLine + 1);
    }
  }

  lemma TrackedAt(ct: CursorType, l: Layout, s: State, t: nat, p: Position)
    requires FrameBegins(ct, l, s, t) && InFrame(l, p)
    ensures var reached := Run(ct, l, s, t + 1 + Index(l, p));
            At(l, reached, p) && AddressedAt(l, reached, p) && ShownAt(l, reached, p)
  {
    hide At, AddressedAt, ShownAt, Step, NewFrame, HistoryKept;
    HistoryWhenFrameBegins(ct, l, s, t);
    TrackingStarts(ct, l, Run(ct, l, s, t));
    LastIndex(l, p);
    var q := TrackedOffset(ct, l, Run(ct, l, s, t + 1), Index(l, p));
    IndexInjective(l, p, q);
    RunOnward(ct, l, s, t + 1, Index(l, p));
  }

  /** Throughout a frame that began with a new-frame cycle, the refresh counter is the base address of
      its line plus its column, modulo 2^14. */
  lemma RefreshCounter(ct: CursorType, l: Layout, s: State, t: nat, p: Position)
    requires FrameBegins(ct, l, s, t) && InFrame(l, p)
    ensures Run(ct, l, s, t + 1 + Index(l, p)).addresses.refresh == (Base(l, p) + p.column) % 16384
  {
    hide At, ShownAt, Step, NewFrame, FrameBegins;
    TrackedAt(ct, l, s, t, p);
  }

  /** When fewer characters are displayed than scanned, each row starts where the last one's display ended. */
  lemma {:induction false} RowsFollowOn(l: Layout, row: nat)
    requires l.hDisplayed < l.hTotal
    ensures var base := (l.startAddress + row * l.hDisplayed) % 16384;
            Bases(l, row) == (base, base)
  {
    if row > 0 {
      RowsFollowOn(l, row - 1);
      NextRow(l.startAddress, row, l.hDisplayed);
    }
  }

  lemma NextRow(start: nat, row: nat, width: nat)
    requires row > 0
    ensures ((start + (row - 1) * width) % 16384 + width) % 16384 == (start + row * width) % 16384
  {
    NonNegative(row - 1, width);
    Distribute(row - 1, 1, width);
    ReducedBefore(start + (row - 1) * width, width, 16384);
  }

  /** Rows follow on from one another exactly when the displayed width is below the horizontal total (or
      there is only one row): at equality the end-of-line copy comes too late for the next row's first
      line, and above it never comes. */
  lemma RowsFollowOnExactly(l: Layout)
    requires Regular(l)
    ensures (forall row: nat, line: nat | row <= l.vTotal && line <= l.endLine ::
               Base(l, Row(row, line, 0)) == (l.startAddress + row * l.hDisplayed) % 16384)
            <==> l.hDisplayed < l.hTotal || l.vTotal == 0
  {
    if l.hDisplayed < l.hTotal {
      forall row: nat | row <= l.vTotal {
        RowsFollowOn(l, row);
      }
    } else if l.vTotal > 0 {
      assert Bases(l, 1).0 == l.startAddress;
      assert Base(l, Row(1, 0, 0)) != (l.startAddress + 1 * l.hDisplayed) % 16384;
    }
  }

  /** What the bus handler sees of a frame: display is enabled for exactly the displayed columns, one
      cycle late, of exactly the displayed rows, with the matching address and line. */
  lemma Screen(ct: CursorType, l: Layout, s: State, t: nat, p: Position)
    requires FrameBegins(ct, l, s, t) && InFrame(l, p)
    ensures var seen := Trace(ct, l, s, t + 2 + Index(l, p))[t + 1 + Index(l, p)];
            && (seen.displayEnable <==> 1 <= p.column <= l.hDisplayed && Shown(l, p))
            && (seen.displayEnable ==> seen.line == p.line)
            && (seen.displayEnable ==> seen.refresh == (Base(l, p) + p.column - 1) % 16384)
            && (seen.displayEnable && p.Row? && l.hDisplayed < l.hTotal ==>
                  seen.refresh == (l.startAddress + p.row * l.hDisplayed + p.column - 1) % 16384)
  {
    hide *;
    TrackedAt(ct, l, s, t, p);
    SeenAt(l, Run(ct, l, s, t + 1 + Index(l, p)), p);
    if p.Row? && p.column > 0 && l.hDisplayed < l.hTotal {
      FollowsOn(l, p);
    }
  }

  lemma SeenAt(l: Layout, s: State, p: Position)
    requires InFrame(l, p) && At(l, s, p) && AddressedAt(l, s, p) && ShownAt(l, s, p)
    ensures var seen := Observed(l, s);
            && (seen.displayEnable <==> 1 <= p.column <= l.hDisplayed && Shown(l, p))
            && (seen.displayEnable ==> seen.line == p.line)
            && (seen.displayEnable ==> seen.refresh == (Base(l, p) + p.column - 1) % 16384)
  {
    hide Shown, Base, Bases, HistoryKept;
  }

  lemma FollowsOn(l: Layout, p: Position)
    requires p.Row? && p.column > 0 && l.hDisplayed < l.hTotal
    ensures (Base(l, p) + p.column - 1) % 16384 == (l.startAddress + p.row * l.hDisplayed + p.column - 1) % 16384
  {
    hide Bases;
    RowsFollowOn(l, p.row);
    NonNegative(p.row, l.hDisplayed);
    ReducedBefore(l.startAddress + p.row * l.hDisplayed, p.column - 1, 16384);
  }
}
