/** The 6845 CRT controller: its fields, its per-cycle update section by section, and the same
    update written as a synchronous next-state function. */
module CRTC6845 {

  // Counters of a fixed number of bits; every increment below wraps explicitly.
  type U2 = x: int | 0 <= x < 4
  type U4 = x: int | 0 <= x < 16
  type U5 = x: int | 0 <= x < 32
  type U7 = x: int | 0 <= x < 128
  type U8 = x: int | 0 <= x < 256
  type U14 = x: int | 0 <= x < 16384

  datatype InterlaceMode = Off | Sync | SyncAndVideo

  datatype CursorType = NoCursor | Native | MDA

  /** The programmed registers, R0 to R15. */
  datatype Layout = Layout(
    hTotal: U8, hDisplayed: U8, hStartSync: U8, hSyncWidth: U4,
    vTotal: U7, vDisplayed: U7, vStartSync: U7, vSyncLines: U4, vAdjust: U5,
    endLine: U5, startCursor: U5, endCursor: U5,
    interlace: InterlaceMode, startAddress: U14, cursorAddress: U14, cursorFlags: U2)

  /** What the bus handler is shown once per cycle. */
  datatype BusState = BusState(
    displayEnable: bool, hsync: bool, vsync: bool, cursor: bool,
    refresh: U14, line: U5, fieldCount: U5)

  // The remaining counters and latches, grouped by the section of run_for that drives them.

  datatype Addresses = Addresses(refresh: U14, lineAddress: U14, lineInterlaced: bool)

  datatype Vsync = Vsync(counter: U4, hitLast: bool, even: bool, odd: bool)

  datatype Horizontal = Horizontal(counter: U8, visible: bool)

  datatype Vertical = Vertical(line: U5, nextLine: U5, row: U7, nextRow: U7)

  datatype Display = Display(rowVisible: bool, oddField: bool, cursorMask: bool)

  datatype Lines = Lines(inAdjustment: bool, firstScanline: bool, extraLine: bool)

  datatype Latches = Latches(eof: bool, willAdjust: bool, eom: bool)

  /** The last three total hits, the most recent in reset0. */
  datatype History = History(reset0: bool, reset1: bool, reset2: bool)

  datatype State = State(
    bus: BusState, addresses: Addresses, vsync: Vsync, hsyncCounter: U4, h: Horizontal, v: Vertical,
    display: Display, lines: Lines, latches: Latches, cursorLine: bool, history: History)

  const POWER_ON := State(
    BusState(false, false, false, false, 0, 0, 0),
    Addresses(0, 0, false), Vsync(0, false, false, false), 0, Horizontal(0, false),
    Vertical(0, 0, 0, 0), Display(false, false, false),
    Lines(false, false, false), Latches(false, false, false), false, History(false, false, false))

  /** The conditions every section shares; all are fixed at the start of the cycle. */
  datatype Signals = Signals(totalHit: bool, lineEndHit: bool, newFrame: bool)

  /** A counter's increment, wrapping after top. */
  function Next(value: nat, top: nat): (r: nat)
    requires value <= top
    ensures r <= top
  {
    if value == top then 0 else value + 1
  }

  function Even(line: U5): U5 {
    line - line % 2
  }

  /** The line address put on the bus; an interlaced line takes its low bit from the field. */
  function LineOnBus(interlaced: bool, oddField: bool, line: U5): U5 {
    if interlaced then Even(line) + (if oddField then 1 else 0) else line
  }

  predicate IsOdd(fieldCount: U5) {
    fieldCount % 2 == 1
  }

  function CursorMask(ct: CursorType, flags: U2, fieldCount: U5, current: bool): bool {
    var bit3 := (fieldCount / 8) % 2 == 1;
    match ct
    case NoCursor => current
    case MDA => if flags == 3 then !bit3 else if flags == 0 then bit3 else flags == 2
    case Native =>
      if flags == 0 then true else if flags == 1 then false else if flags == 2 then bit3 else fieldCount >= 16
  }

  function SharedSignals(l: Layout, column: U8, line: U5, lines: Lines, eof: bool, fieldCount: U5): Signals {
    var totalHit := column == l.hTotal;
    Signals(
      totalHit,
      line == (if l.interlace == SyncAndVideo then Even(l.endLine) else l.endLine) && !lines.inAdjustment,
      totalHit && eof && (l.interlace == Off || !IsOdd(fieldCount) || lines.extraLine))
  }

  function SignalsOf(l: Layout, s: State): Signals {
    SharedSignals(l, s.h.counter, s.v.line, s.lines, s.latches.eof, s.bus.fieldCount)
  }

  predicate NewFrame(l: Layout, s: State) {
    SignalsOf(l, s).newFrame
  }

  /** The bus state handed out during the cycle that begins in state s. */
  function Observed(l: Layout, s: State): BusState {
    var enable := s.h.visible && s.display.rowVisible;
    s.bus.(line := LineOnBus(s.addresses.lineInterlaced, s.display.oddField, s.v.line),
           displayEnable := enable,
           cursor := s.display.cursorMask && s.cursorLine && s.bus.refresh == l.cursorAddress && enable)
  }

  // The next value of each group, as a function of the state before the cycle.

  function NextAddresses(l: Layout, a: Addresses, column: U8, g: Signals): Addresses {
    Addresses(
      if g.newFrame then l.startAddress else if g.totalHit then a.lineAddress else Next(a.refresh, 16383),
      if g.newFrame then l.startAddress
      else if column == l.hDisplayed && g.lineEndHit then a.refresh
      else a.lineAddress,
      if g.totalHit then l.interlace == SyncAndVideo else a.lineInterlaced)
  }

  function NextVsync(l: Layout, y: Vsync, row: U7, column: U8, reset0: bool, g: Signals): Vsync {
    var hit := row == l.vStartSync;
    var rising := hit && !y.hitLast;
    Vsync(
      if rising then 0 else if g.totalHit then Next(y.counter, 15) else y.counter,
      hit,
      if rising then true else if y.counter == l.vSyncLines && reset0 then false else y.even,
      if column == l.hTotal / 2 then y.even else y.odd)
  }

  function NextHsync(l: Layout, hsync: bool, counter: U4, column: U8): bool {
    counter != l.hSyncWidth && (hsync || column == l.hStartSync)
  }

  function NextHorizontal(l: Layout, h: Horizontal, g: Signals): Horizontal {
    Horizontal(
      if g.totalHit then 0 else Next(h.counter, 255),
      h.counter != l.hDisplayed && !g.totalHit && (h.visible || h.counter == 0))
  }

  function NextVertical(l: Layout, v: Vertical, inAdjustment: bool, g: Signals): Vertical {
    var line := if g.newFrame then 0 else if g.totalHit then v.nextLine else v.line;
    Vertical(
      line,
      if g.lineEndHit then 0
      else if inAdjustment || l.interlace != SyncAndVideo then Next(line, 31)
      else Even(Next(Next(line, 31), 31)),
      v.nextRow,
      if g.newFrame then 0 else if g.totalHit && g.lineEndHit then Next(v.nextRow, 127) else v.nextRow)
  }

  /** Whether this cycle, in which the row counter has become row, ends the visible rows. */
  predicate EndsDisplay(l: Layout, d: Display, firstScanline: bool, row: U7) {
    !firstScanline && d.rowVisible && row == l.vDisplayed
  }

  function NextFieldCount(l: Layout, d: Display, firstScanline: bool, row: U7, fieldCount: U5): U5 {
    if EndsDisplay(l, d, firstScanline, row) then Next(fieldCount, 31) else fieldCount
  }

  function NextDisplay(ct: CursorType, l: Layout, d: Display, firstScanline: bool, row: U7, fieldCount: U5): Display {
    Display(
      firstScanline || (d.rowVisible && row != l.vDisplayed),
      if firstScanline then IsOdd(fieldCount) else d.oddField,
      if EndsDisplay(l, d, firstScanline, row) then CursorMask(ct, l.cursorFlags, Next(fieldCount, 31), d.cursorMask)
      else d.cursorMask)
  }

  function NextLines(l: Layout, n: Lines, latches: Latches, fieldCount: U5, g: Signals): Lines {
    Lines(
      !g.newFrame && (n.inAdjustment || (g.totalHit && latches.eom && latches.willAdjust)),
      g.newFrame || (n.firstScanline && !g.totalHit),
      if g.totalHit then latches.eof && l.interlace != Off && IsOdd(fieldCount) && !n.extraLine else n.extraLine)
  }

  /** The latches chain from one cycle to the next: eom is keyed to the first cycle of a line,
      willAdjust to the second, eof to the third. */
  function NextLatches(l: Layout, a: Latches, history: History, nextLine: U5, row: U7, g: Signals): Latches {
    Latches(
      !g.newFrame && (a.eof || (a.eom && !a.willAdjust && history.reset2)),
      !g.newFrame && (if history.reset1 && a.eom then nextLine != l.vAdjust else a.willAdjust),
      !g.newFrame && (a.eom || (history.reset0 && g.lineEndHit && row == l.vTotal)))
  }

  function NextCursorLine(ct: CursorType, l: Layout, cursorLine: bool, line: U5, g: Signals): bool {
    if ct != NoCursor && g.totalHit then l.startCursor <= line <= l.endCursor else cursorLine
  }

  /** One cycle, as a synchronous circuit. */
  function Step(ct: CursorType, l: Layout, s: State): State {
    var g := SignalsOf(l, s);
    var hsyncCounter := if s.bus.hsync then Next(s.hsyncCounter, 15) else 0;
    var v := NextVertical(l, s.v, s.lines.inAdjustment, g);
    var fieldCount := NextFieldCount(l, s.display, s.lines.firstScanline, v.row, s.bus.fieldCount);
    var seen := Observed(l, s);
    State(
      BusState(seen.displayEnable,
               NextHsync(l, s.bus.hsync, hsyncCounter, s.h.counter),
               if l.interlace != Off && !s.display.oddField then s.vsync.odd else s.vsync.even,
               seen.cursor, s.addresses.refresh, seen.line, fieldCount),
      NextAddresses(l, s.addresses, s.h.counter, g),
      NextVsync(l, s.vsync, s.v.row, s.h.counter, s.history.reset0, g),
      hsyncCounter,
      NextHorizontal(l, s.h, g),
      v,
      NextDisplay(ct, l, s.display, s.lines.firstScanline, v.row, s.bus.fieldCount),
      NextLines(l, s.lines, s.latches, fieldCount, g),
      NextLatches(l, s.latches, s.history, v.nextLine, v.row, g),
      NextCursorLine(ct, l, s.cursorLine, v.line, g),
      History(g.totalHit, s.history.reset0, s.history.reset1))
  }

  /** The state n cycles later, with the registers left alone. */
  function Run(ct: CursorType, l: Layout, s: State, n: nat): State {
    if n == 0 then s else Step(ct, l, Run(ct, l, s, n - 1))
  }

  /** What the bus handler is shown over n cycles. */
  function Trace(ct: CursorType, l: Layout, s: State, n: nat): (t: seq<BusState>)
    ensures |t| == n
    ensures forall i :: 0 <= i < n ==> t[i] == Observed(l, Run(ct, l, s, i))
  {
    if n == 0 then [] else Trace(ct, l, s, n - 1) + [Observed(l, Run(ct, l, s, n - 1))]
  }

  class CRTC {
    const cursorType: CursorType
    var layout: Layout

    /** The states the bus handler has been given so far, oldest first. */
    var handled: seq<BusState>

    var bus: BusState
    var addresses: Addresses
    var vsync: Vsync
    var hsyncCounter: U4
    var h: Horizontal
    var v: Vertical
    var display: Display
    var lines: Lines
    var latches: Latches
    var cursorLine: bool
    var history: History

    function Snapshot(): State
      reads this
    {
      State(bus, addresses, vsync, hsyncCounter, h, v, display, lines, latches, cursorLine, history)
    }

    constructor (cursorType: CursorType, layout: Layout)
      ensures Snapshot() == POWER_ON && handled == []
      ensures this.cursorType == cursorType && this.layout == layout
    {
      this.cursorType, this.layout, handled := cursorType, layout, [];
      bus, addresses, vsync, hsyncCounter := POWER_ON.bus, POWER_ON.addresses, POWER_ON.vsync, 0;
      h, v, display := POWER_ON.h, POWER_ON.v, POWER_ON.display;
      lines, latches := POWER_ON.lines, POWER_ON.latches;
      cursorLine, history := false, POWER_ON.history;
    }

    method RunFor(cycles: nat)
      modifies this
      ensures layout == old(layout)
      ensures Snapshot() == Run(cursorType, layout, old(Snapshot()), cycles)
      ensures handled == old(handled) + Trace(cursorType, layout, old(Snapshot()), cycles)
    {
      hide Step, Observed;
      ghost var start := Snapshot();
      var remaining := cycles;
      while remaining > 0
        invariant 0 <= remaining <= cycles
        invariant layout == old(layout)
        invariant Snapshot() == Run(cursorType, layout, start, cycles - remaining)
        invariant handled == old(handled) + Trace(cursorType, layout, start, cycles - remaining)
      {
        remaining := remaining - 1;
        PerformCycle();
      }
    }

    /** One pass of the loop in run_for: its sections run one after another, in the source's order,
        each reading what the earlier ones have already stored. */
    method PerformCycle()
      modifies this
      ensures layout == old(layout)
      ensures handled == old(handled) + [Observed(layout, old(Snapshot()))]
      ensures Snapshot() == Step(cursorType, layout, old(Snapshot()))
    {
      hide SharedSignals, Observed, NextAddresses, NextVsync, NextHsync, NextHorizontal, NextVertical;
      hide NextFieldCount, NextDisplay, NextLines, NextLatches, NextCursorLine, Next;
      PerformBusCycle();
      var signals := ReadSignals();
      UpdateHorizontalSections(signals);
      UpdateVerticalSections(signals);
    }

    /** The vertical, end-of-frame, cursor and history sections. */
    method UpdateVerticalSections(g: Signals)
      requires g.newFrame ==> g.totalHit
      modifies `v, `display, `bus, `lines, `latches, `cursorLine, `history
      ensures v == NextVertical(layout, old(v), old(lines).inAdjustment, g)
      ensures display ==
                NextDisplay(cursorType, layout, old(display), old(lines).firstScanline, v.row, old(bus).fieldCount)
      ensures bus == old(bus).(
        fieldCount := NextFieldCount(layout, old(display), old(lines).firstScanline, v.row, old(bus).fieldCount))
      ensures lines == NextLines(layout, old(lines), old(latches), bus.fieldCount, g)
      ensures latches == NextLatches(layout, old(latches), old(history), v.nextLine, v.row, g)
      ensures cursorLine == NextCursorLine(cursorType, layout, old(cursorLine), v.line, g)
      ensures history == History(g.totalHit, old(history).reset0, old(history).reset1)
    {
      hide NextVertical, NextFieldCount, NextDisplay, NextLines, NextLatches, NextCursorLine;
      UpdateVertical(g);
      UpdateDisplayEnable();
      UpdateLines(g);
      UpdateLatches(g);
      UpdateCursorAndHistory(g);
    }

    method PerformBusCycle()
      modifies `bus, `handled
      ensures handled == old(handled) + [Observed(layout, old(Snapshot()))]
      ensures var seen := Observed(layout, old(Snapshot()));
              bus == BusState(seen.displayEnable, old(bus).hsync, old(bus).vsync, seen.cursor,
                              addresses.refresh, seen.line, old(bus).fieldCount)
    {
      hide LineOnBus;
      var enable := h.visible && display.rowVisible;
      var isCursor := display.cursorMask && cursorLine && bus.refresh == layout.cursorAddress && enable;
      bus := bus.(line := LineOnBus(addresses.lineInterlaced, display.oddField, v.line),
                  displayEnable := enable, cursor := isCursor);
      handled := handled + [bus];
      bus := bus.(refresh := addresses.refresh);
    }

    method ReadSignals() returns (g: Signals)
      ensures g == SharedSignals(layout, h.counter, v.line, lines, latches.eof, bus.fieldCount)
      ensures g.newFrame ==> g.totalHit
    {
      var totalHit := h.counter == layout.hTotal;
      var linesPerRow := if layout.interlace == SyncAndVideo then Even(layout.endLine) else layout.endLine;
      var lineEndHit := v.line == linesPerRow && !lines.inAdjustment;
      var newFrame := totalHit && latches.eof
                      && (layout.interlace == Off || !IsOdd(bus.fieldCount) || lines.extraLine);
      g := Signals(totalHit, lineEndHit, newFrame);
    }

    method UpdateAddresses(g: Signals)
      requires g.newFrame ==> g.totalHit
      modifies `addresses
      ensures addresses == NextAddresses(layout, old(addresses), h.counter, g)
    {
      var initialLineAddress := addresses.lineAddress;
      if g.newFrame {
        addresses := addresses.(lineAddress := layout.startAddress);
      } else if h.counter == layout.hDisplayed && g.lineEndHit {
        addresses := addresses.(lineAddress := addresses.refresh);
      }
      if g.newFrame {
        addresses := addresses.(refresh := layout.startAddress);
      } else if g.totalHit {
        addresses := addresses.(refresh := initialLineAddress);
      } else {
        addresses := addresses.(refresh := Next(addresses.refresh, 16383));
      }
      if g.totalHit {
        addresses := addresses.(lineInterlaced := layout.interlace == SyncAndVideo);
      }
    }

    /** The addressing, sync and horizontal sections. */
    method UpdateHorizontalSections(g: Signals)
      requires g.newFrame ==> g.totalHit
      modifies `addresses, `bus, `vsync, `hsyncCounter, `h
      ensures addresses == NextAddresses(layout, old(addresses), old(h).counter, g)
      ensures vsync == NextVsync(layout, old(vsync), v.row, old(h).counter, history.reset0, g)
      ensures hsyncCounter == if old(bus).hsync then Next(old(hsyncCounter), 15) else 0
      ensures bus == old(bus).(
        vsync := if layout.interlace != Off && !display.oddField then old(vsync).odd else old(vsync).even,
        hsync := NextHsync(layout, old(bus).hsync, hsyncCounter, old(h).counter))
      ensures h == NextHorizontal(layout, old(h), g)
    {
      hide NextAddresses, NextVsync, NextHsync, NextHorizontal, Next;
      UpdateAddresses(g);
      SelectVsync();
      UpdateVsync(g);
      UpdateHsync();
      UpdateHorizontal(g);
    }

    method SelectVsync()
      modifies `bus
      ensures bus == old(bus).(vsync := if layout.interlace != Off && !display.oddField then vsync.odd else vsync.even)
    {
      bus := bus.(vsync := if layout.interlace != Off && !display.oddField then vsync.odd else vsync.even);
    }

    method UpdateVsync(g: Signals)
      modifies `vsync
      ensures vsync == NextVsync(layout, old(vsync), v.row, h.counter, history.reset0, g)
    {
      hide Next;
      var hitVsync := v.row == layout.vStartSync;
      var risingVsync := hitVsync && !vsync.hitLast;
      vsync := vsync.(hitLast := hitVsync);
      if h.counter == layout.hTotal / 2 {
        vsync := vsync.(odd := vsync.even);
      }
      if risingVsync {
        vsync := vsync.(even := true);
      } else if vsync.counter == layout.vSyncLines && history.reset0 {
        vsync := vsync.(even := false);
      }
      vsync := vsync.(counter := if risingVsync then 0
                                 else if g.totalHit then Next(vsync.counter, 15)
                                 else vsync.counter);
    }

    method UpdateHsync()
      modifies `bus, `hsyncCounter
      ensures hsyncCounter == if old(bus).hsync then Next(old(hsyncCounter), 15) else 0
      ensures bus == old(bus).(hsync := NextHsync(layout, old(bus).hsync, hsyncCounter, h.counter))
    {
      hide Next;
      if bus.hsync {
        hsyncCounter := Next(hsyncCounter, 15);
      } else {
        hsyncCounter := 0;
      }
      if hsyncCounter == layout.hSyncWidth {
        bus := bus.(hsync := false);
      } else if h.counter == layout.hStartSync {
        bus := bus.(hsync := true);
      }
    }

    method UpdateHorizontal(g: Signals)
      modifies `h
      ensures h == NextHorizontal(layout, old(h), g)
    {
      if h.counter == 0 {
        h := h.(visible := true);
      }
      if h.counter == layout.hDisplayed || g.totalHit {
        h := h.(visible := false);
      }
      if g.totalHit {
        h := h.(counter := 0);
      } else {
        h := h.(counter := Next(h.counter, 255));
      }
    }

    method UpdateVertical(g: Signals)
      modifies `v
      ensures v == NextVertical(layout, old(v), lines.inAdjustment, g)
    {
      hide Next, Even;

      // The line within the row, or within the adjustment.
      if g.newFrame {
        v := v.(line := 0);
      } else if g.totalHit {
        v := v.(line := v.nextLine);
      }
      if g.lineEndHit {
        v := v.(nextLine := 0);
      } else if lines.inAdjustment || layout.interlace != SyncAndVideo {
        v := v.(nextLine := Next(v.line, 31));
      } else {
        v := v.(nextLine := Even(Next(Next(v.line, 31), 31)));
      }

      // Row counter.
      v := v.(row := v.nextRow);
      if g.newFrame {
        v := v.(nextRow := 0);
      } else if g.totalHit && g.lineEndHit {
        v := v.(nextRow := Next(v.row, 127));
      }
    }

    method UpdateDisplayEnable()
      modifies `display, `bus
      ensures display == NextDisplay(cursorType, layout, old(display), lines.firstScanline, v.row, old(bus).fieldCount)
      ensures bus == old(bus).(
        fieldCount := NextFieldCount(layout, old(display), lines.firstScanline, v.row, old(bus).fieldCount))
    {
      hide Next, IsOdd, CursorMask;
      if lines.firstScanline {
        display := display.(rowVisible := true);
        display := display.(oddField := IsOdd(bus.fieldCount));
      } else if display.rowVisible && v.row == layout.vDisplayed {
        display := display.(rowVisible := false);
        bus := bus.(fieldCount := Next(bus.fieldCount, 31));
        var mask := CursorMask(cursorType, layout.cursorFlags, bus.fieldCount, display.cursorMask);
        display := display.(cursorMask := mask);
      }
    }

    method UpdateLines(g: Signals)
      requires g.newFrame ==> g.totalHit
      modifies `lines
      ensures lines == NextLines(layout, old(lines), latches, bus.fieldCount, g)
    {
      hide IsOdd;
      if g.newFrame {
        lines := lines.(inAdjustment := false);
      } else if g.totalHit && latches.eom && latches.willAdjust {
        lines := lines.(inAdjustment := true);
      }
      if g.newFrame {
        lines := lines.(firstScanline := true);
      } else if g.totalHit {
        lines := lines.(firstScanline := false);
      }
      if g.totalHit && latches.eof && layout.interlace != Off && IsOdd(bus.fieldCount) && !lines.extraLine {
        lines := lines.(extraLine := true);
      } else if g.totalHit {
        lines := lines.(extraLine := false);
      }
    }

    method UpdateLatches(g: Signals)
      modifies `latches
      ensures latches == NextLatches(layout, old(latches), history, v.nextLine, v.row, g)
    {
      if g.newFrame {
        latches := latches.(eof := false);
      } else if latches.eom && !latches.willAdjust && history.reset2 {
        latches := latches.(eof := true);
      }
      if g.newFrame {
        latches := latches.(willAdjust := false);
      } else if history.reset1 && latches.eom {
        if v.nextLine == layout.vAdjust {
          latches := latches.(willAdjust := false);
        } else {
          latches := latches.(willAdjust := true);
        }
      }
      if g.newFrame {
        latches := latches.(eom := false);
      } else if history.reset0 && g.lineEndHit && v.row == layout.vTotal {
        latches := latches.(eom := true);
      }
    }

    method UpdateCursorAndHistory(g: Signals)
      modifies `cursorLine, `history
      ensures cursorLine == NextCursorLine(cursorType, layout, old(cursorLine), v.line, g)
      ensures history == History(g.totalHit, old(history).reset0, old(history).reset1)
    {
      if cursorType != NoCursor {
        if g.totalHit {
          cursorLine := v.line >= layout.startCursor && v.line <= layout.endCursor;
        }
      }
      history := History(false, history.reset0, history.reset1);
      history := history.(reset0 := history.reset0 || g.totalHit);
    }
  }
}
