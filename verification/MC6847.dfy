/** The MC6847's lines: what it sends to the CRT, and what it fetches, however time is divided into calls. */
module MC6847 {
  import opened Arithmetic

  type Byte = x: int | 0 <= x < 256
  type Address = x: int | 0 <= x < 65536

  // The layout of a line, in clocks.

  const END_OF_SYNC := 28
  const END_OF_BURST := 55
  const END_OF_LEFT_BORDER := 130
  const END_OF_PIXELS := 386
  const END_OF_LINE := 456

  /** The layout of a field, in lines: NTSC's, or PAL's with more border. */
  datatype Timing = NTSC | PAL {
    function BorderLength(): int {
      if NTSC? then 27 else 52
    }

    function EndOfBottomBorder(): int {
      192 + BorderLength()
    }

    function EndOfFrontPorch(): int {
      EndOfBottomBorder() + 2
    }

    function EndOfSync(): int {
      EndOfFrontPorch() + 2
    }

    function EndOfBackPorch(): int {
      EndOfSync() + 12
    }

    function EndOfField(): (n: int)
      ensures n == if NTSC? then 262 else 312
    {
      EndOfBackPorch() + BorderLength()
    }
  }

  /** What is sent to the CRT. */
  datatype Output = Sync(n: int) | Burst(n: int) | Blank(n: int) | Level(colour: int, n: int) | Data(cells: seq<Cell>)

  /** A column as it is drawn: its data and mode, and the row of it. How those become pixels is not modelled. */
  datatype Cell = Cell(data: Byte, mode: int, row: int)

  datatype Column = Column(data: Byte, mode: int)
  datatype Fetch = Fetch(column: int, address: Address)
  datatype Signal = Hsync(on: bool) | FieldSync(on: bool) | RowPreset(on: bool)

  /** What stays the same between calls: the memory, the mapping of modes, the mode and what follows from it. */
  datatype Settings = Settings(
    timing: Timing, memory: Address -> Byte, mapper: (Byte, int) -> int, mode: int,
    wide: bool, targetRow: int, border: int)

  /** The fetching of a line: the address and row, the columns captured, and all fetches so far. */
  datatype Fetcher = Fetcher(address: Address, row: int, columns: seq<Column>, fetches: seq<Fetch>)

  /** The picture: the cells drawn since the buffer was begun, and all that has been sent. */
  datatype Picture = Picture(cells: seq<Cell>, sent: seq<Output>)

  /** With all that has been signalled but for the row preset, which is apart: it depends on the calls. */
  datatype State = State(position: int, fetcher: Fetcher, picture: Picture, signals: seq<Signal>)

  predicate Valid(e: Settings, s: State) {
    0 <= s.position < END_OF_LINE * e.timing.EndOfField() && |s.fetcher.columns| == 32
  }

  // What is sent, with adjoining levels of the same colour run together.

  function Emit(sent: seq<Output>, x: Output): seq<Output> {
    if x.Level? && sent != [] && sent[|sent| - 1].Level? && sent[|sent| - 1].colour == x.colour then
      sent[..|sent| - 1] + [Level(x.colour, sent[|sent| - 1].n + x.n)]
    else sent + [x]
  }

  function Merged(log: seq<Output>): seq<Output>
    decreases |log|
  {
    if log == [] then [] else Emit(Merged(log[..|log| - 1]), log[|log| - 1])
  }

  lemma MergedAppend(log: seq<Output>, x: Output)
    ensures Merged(log + [x]) == Emit(Merged(log), x)
  {
    assert (log + [x])[..|log|] == log;
  }

  lemma LevelsMerge(sent: seq<Output>, colour: int, x: int, y: int)
    ensures Emit(Emit(sent, Level(colour, x)), Level(colour, y)) == Emit(sent, Level(colour, x + y))
  {
  }

  // What is signalled, without what says nothing new.

  function Settle<T(==)>(levels: seq<T>, x: T): seq<T> {
    if levels != [] && levels[|levels| - 1] == x then levels else levels + [x]
  }

  function Settled(log: seq<Signal>): seq<Signal>
    decreases |log|
  {
    if log == [] then []
    else
      var before, last := Settled(log[..|log| - 1]), log[|log| - 1];
      if last.RowPreset? then before else Settle(before, last)
  }

  function Presets(log: seq<Signal>): seq<bool>
    decreases |log|
  {
    if log == [] then []
    else
      var before, last := Presets(log[..|log| - 1]), log[|log| - 1];
      if last.RowPreset? then Settle(before, last.on) else before
  }

  lemma SignalAppend(log: seq<Signal>, x: Signal)
    ensures Settled(log + [x]) == if x.RowPreset? then Settled(log) else Settle(Settled(log), x)
    ensures Presets(log + [x]) == if x.RowPreset? then Settle(Presets(log), x.on) else Presets(log)
  {
    assert (log + [x])[..|log|] == log;
  }

  // The parts of a line that fall in a span of it.

  function Max(x: int, y: int): int {
    if x > y then x else y
  }

  function Min(x: int, y: int): int {
    if x < y then x else y
  }

  /** The column at a position from the end of the left border on. */
  function ColumnAt(position: int): int {
    (position - END_OF_LEFT_BORDER) / 8
  }

  function FetchOne(e: Settings, f: Fetcher, c: int): Fetcher
    requires |f.columns| == 32 && 0 <= c < 32
  {
    var data := e.memory(f.address);
    Fetcher((f.address as int + (if e.wide then 1 else c % 2)) % 65536, f.row,
            f.columns[c := Column(data, e.mapper(data, e.mode))],
            f.fetches + [Fetch(c, f.address)])
  }

  function FetchColumns(e: Settings, f: Fetcher, first: int, limit: int): (g: Fetcher)
    requires |f.columns| == 32 && 0 <= first && limit <= 32
    ensures |g.columns| == 32 && g.row == f.row
    decreases limit - first
  {
    if limit <= first then f else FetchOne(e, FetchColumns(e, f, first, limit - 1), limit - 1)
  }

  /** The fetches beyond the last column, which come to nothing. */
  function PassOver(f: Fetcher, first: int, limit: int): (g: Fetcher)
    ensures g.columns == f.columns && g.row == f.row && g.address == f.address
    decreases limit - first
  {
    if limit <= first then f
    else
      var g := PassOver(f, first, limit - 1);
      g.(fetches := g.fetches + [Fetch(limit - 1, (g.address as int + limit - 1) % 65536)])
  }

  function Fetched(e: Settings, f: Fetcher, begin: int, end: int): (g: Fetcher)
    requires |f.columns| == 32
    ensures |g.columns| == 32 && g.row == f.row
  {
    var x, y := Max(begin, END_OF_LEFT_BORDER), Min(end, END_OF_PIXELS);
    if y > x then FetchColumns(e, f, ColumnAt(x), ColumnAt(y)) else f
  }

  function PassedOver(f: Fetcher, begin: int, end: int): (g: Fetcher)
    ensures g.columns == f.columns && g.row == f.row && g.address == f.address
  {
    var x, y := Max(begin, END_OF_PIXELS), Min(end, END_OF_LINE);
    if y > x then PassOver(f, ColumnAt(x), ColumnAt(y)) else f
  }

  /** The bytes of a line, on a multiple of which its address should begin. */
  function Width(e: Settings): int {
    if e.wide then 32 else 16
  }

  /** At the end of a line the row advances; unless that completes the last of a character's or a pixel's
      rows, the address goes back to the start of the line. */
  function LineEnded(e: Settings, f: Fetcher): Fetcher {
    var row := (f.row + 1) % 16;
    var address := if row == e.targetRow then f.address else (f.address as int - 1) % 65536;
    f.(row := if row == e.targetRow then 0 else row, address := address - address % Width(e))
  }

  /** The index of the captured column whose data a column shows. */
  function Source(c: int, mode: int): int {
    if mode % 2 == 1 then c - c % 2 else c
  }

  function CellAt(columns: seq<Column>, row: int, c: int): Cell
    requires |columns| == 32 && 0 <= c < 32
  {
    Cell(columns[Source(c, columns[c].mode)].data, columns[c].mode, row)
  }

  function DrawColumns(columns: seq<Column>, row: int, cells: seq<Cell>, first: int, limit: int): seq<Cell>
    requires |columns| == 32 && 0 <= first && limit <= 32
    decreases limit - first
  {
    if limit <= first then cells
    else DrawColumns(columns, row, cells, first, limit - 1) + [CellAt(columns, row, limit - 1)]
  }

  function SyncAndBurst(p: Picture, begin: int, end: int): Picture {
    if begin <= END_OF_BURST < end then
      p.(sent := Emit(Emit(p.sent, Sync(END_OF_SYNC)), Burst(END_OF_BURST - END_OF_SYNC)))
    else p
  }

  function Border(e: Settings, p: Picture, begin: int, end: int, first: int, limit: int): Picture {
    var x, y := Max(begin, first), Min(end, limit);
    if y > x then p.(sent := Emit(p.sent, Level(e.border, y - x))) else p
  }

  function Drawn(columns: seq<Column>, row: int, p: Picture, begin: int, end: int): Picture
    requires |columns| == 32
  {
    var q := if begin <= END_OF_LEFT_BORDER < end then p.(cells := []) else p;
    var x, y := Max(begin, END_OF_LEFT_BORDER), Min(end, END_OF_PIXELS);
    if y > x then q.(cells := DrawColumns(columns, row, q.cells, ColumnAt(x), ColumnAt(y))) else q
  }

  function DataSent(p: Picture, begin: int, end: int): Picture {
    if begin <= END_OF_PIXELS < end then p.(sent := Emit(p.sent, Data(p.cells))) else p
  }

  function PixelLine(e: Settings, columns: seq<Column>, row: int, p: Picture, begin: int, end: int): Picture
    requires |columns| == 32
  {
    var q := Border(e, SyncAndBurst(p, begin, end), begin, end, END_OF_BURST, END_OF_LEFT_BORDER);
    Border(e, DataSent(Drawn(columns, row, q, begin, end), begin, end), begin, end, END_OF_PIXELS, END_OF_LINE)
  }

  function BorderLine(e: Settings, p: Picture, begin: int, end: int): Picture {
    Border(e, SyncAndBurst(p, begin, end), begin, end, END_OF_BURST, END_OF_LINE)
  }

  function PorchLine(p: Picture, end: int): Picture {
    if end == END_OF_LINE then
      p.(sent := Emit(Emit(p.sent, Sync(END_OF_SYNC)), Blank(END_OF_LINE - END_OF_SYNC)))
    else p
  }

  function SyncLine(p: Picture, end: int): Picture {
    if end == END_OF_LINE then p.(sent := Emit(p.sent, Sync(END_OF_LINE))) else p
  }

  function LineStarted(t: Timing, signals: seq<Signal>, line: int): seq<Signal> {
    var started := Settle(signals, Hsync(true));
    if line == 192 then Settle(started, FieldSync(true))
    else if line == t.EndOfSync() then Settle(started, FieldSync(false))
    else started
  }

  function Signalled(t: Timing, signals: seq<Signal>, line: int, begin: int, end: int): seq<Signal> {
    var started := if begin == 0 then LineStarted(t, signals, line) else signals;
    if end >= END_OF_SYNC then Settle(started, Hsync(false)) else started
  }

  /** What a line other than one with pixels sends. */
  function BlankLine(e: Settings, p: Picture, line: int, begin: int, end: int): Picture {
    var t := e.timing;
    if line < t.EndOfBottomBorder() then BorderLine(e, p, begin, end)
    else if line < t.EndOfFrontPorch() then PorchLine(p, end)
    else if line < t.EndOfSync() then SyncLine(p, end)
    else if line < t.EndOfBackPorch() then PorchLine(p, end)
    else BorderLine(e, p, begin, end)
  }

  /** A span of a line. */
  function Span(e: Settings, s: State, line: int, begin: int, end: int): (t: State)
    requires |s.fetcher.columns| == 32
    ensures |t.fetcher.columns| == 32 && t.position == s.position
  {
    var signals := Signalled(e.timing, s.signals, line, begin, end);
    if line < 192 then
      var f := PassedOver(Fetched(e, s.fetcher, begin, end), begin, end);
      State(s.position, if end == END_OF_LINE then LineEnded(e, f) else f,
            PixelLine(e, f.columns, f.row, s.picture, begin, end), signals)
    else State(s.position, s.fetcher, BlankLine(e, s.picture, line, begin, end), signals)
  }

  /** Time passing; at the end of a field the address and row return to zero. */
  function Moved(e: Settings, s: State, length: int): State {
    if s.position + length == END_OF_LINE * e.timing.EndOfField() then
      s.(position := 0, fetcher := s.fetcher.(address := 0, row := 0))
    else s.(position := s.position + length)
  }

  // The specification: one clock at a time.

  function Tick(e: Settings, s: State): (t: State)
    requires Valid(e, s)
    ensures Valid(e, t)
  {
    var begin := s.position % END_OF_LINE;
    Moved(e, Span(e, s, s.position / END_OF_LINE, begin, begin + 1), 1)
  }

  function Ticks(e: Settings, s: State, n: nat): (t: State)
    requires Valid(e, s)
    ensures Valid(e, t)
    decreases n
  {
    if n == 0 then s else Tick(e, Ticks(e, s, n - 1))
  }

  // A span of a line and then the next clock is a longer span.

  lemma ColumnsAdvance(b: int)
    requires END_OF_LEFT_BORDER <= b < END_OF_LINE
    ensures ColumnAt(b + 1) == ColumnAt(b) || ColumnAt(b + 1) == ColumnAt(b) + 1
    ensures ColumnAt(b) >= 0 && (b < END_OF_PIXELS ==> ColumnAt(b + 1) <= 32) && ColumnAt(END_OF_LEFT_BORDER) == 0
    ensures ColumnAt(END_OF_PIXELS) == 32
  {
  }

  lemma ColumnsOrdered(a: int, b: int)
    requires END_OF_LEFT_BORDER <= a <= b
    ensures ColumnAt(a) <= ColumnAt(b)
  {
  }

  lemma ColumnsFetched(e: Settings, f: Fetcher, first: int, limit: int, next: int)
    requires |f.columns| == 32 && 0 <= first <= limit && next <= 32 && (next == limit || next == limit + 1)
    ensures FetchColumns(e, f, first, next) == FetchColumns(e, FetchColumns(e, f, first, limit), limit, next)
  {
    assert FetchColumns(e, FetchColumns(e, f, first, limit), limit, limit) == FetchColumns(e, f, first, limit);
    hide FetchOne;
  }

  lemma ColumnsPassed(f: Fetcher, first: int, limit: int, next: int)
    requires first <= limit && (next == limit || next == limit + 1)
    ensures PassOver(f, first, next) == PassOver(PassOver(f, first, limit), limit, next)
  {
    assert PassOver(PassOver(f, first, limit), limit, limit) == PassOver(f, first, limit);
  }

  lemma FetchExtends(e: Settings, f: Fetcher, a: int, b: int)
    requires |f.columns| == 32 && 0 <= a < b < END_OF_LINE
    ensures Fetched(e, f, a, b + 1) == Fetched(e, Fetched(e, f, a, b), b, b + 1)
  {
    var x := Max(a, END_OF_LEFT_BORDER);
    if END_OF_LEFT_BORDER <= b < END_OF_PIXELS {
      ColumnsAdvance(b);
      ColumnsOrdered(x, b);
      ColumnsFetched(e, f, ColumnAt(x), ColumnAt(b), ColumnAt(b + 1));
      NothingFetched(e, f, ColumnAt(x));
    }
    hide FetchColumns, ColumnAt;
  }

  lemma NothingFetched(e: Settings, f: Fetcher, c: int)
    requires |f.columns| == 32 && 0 <= c <= 32
    ensures FetchColumns(e, f, c, c) == f && PassOver(f, c, c) == f
  {
  }

  lemma PassOverExtends(f: Fetcher, a: int, b: int)
    requires 0 <= a < b < END_OF_LINE
    ensures PassedOver(f, a, b + 1) == PassedOver(PassedOver(f, a, b), b, b + 1)
  {
    var x := Max(a, END_OF_PIXELS);
    if END_OF_PIXELS <= b {
      ColumnsAdvance(b);
      ColumnsOrdered(x, b);
      ColumnsPassed(f, ColumnAt(x), ColumnAt(b), ColumnAt(b + 1));
      assert PassOver(f, ColumnAt(x), ColumnAt(x)) == f;
    }
    hide PassOver, ColumnAt;
  }

  /** Fetching columns and passing over those beyond do not overlap. */
  lemma FetchThenPass(e: Settings, f: Fetcher, a: int, b: int)
    requires |f.columns| == 32 && 0 <= a < b < END_OF_LINE
    ensures PassedOver(Fetched(e, f, a, b + 1), a, b + 1)
         == PassedOver(Fetched(e, PassedOver(Fetched(e, f, a, b), a, b), b, b + 1), b, b + 1)
  {
    FetchExtends(e, f, a, b);
    PassOverExtends(Fetched(e, f, a, b), a, b);
    PassOverExtends(Fetched(e, f, a, b + 1), a, b);
    hide FetchColumns, PassOver, ColumnAt;
  }

  lemma BorderExtends(e: Settings, p: Picture, a: int, b: int, first: int, limit: int)
    requires a < b && first < limit
    ensures Border(e, p, a, b + 1, first, limit) == Border(e, Border(e, p, a, b, first, limit), b, b + 1, first, limit)
  {
    if first <= b < limit && Max(a, first) < b {
      LevelsMerge(p.sent, e.border, b - Max(a, first), 1);
    }
    hide Emit;
  }

  /** Only columns at or after those being fetched change. */
  lemma {:induction false} FetchKeepsColumns(e: Settings, f: Fetcher, first: int, limit: int, k: int)
    requires |f.columns| == 32 && 0 <= first && limit <= 32 && 0 <= k < 32 && k < first
    ensures FetchColumns(e, f, first, limit).columns[k] == f.columns[k]
    decreases limit - first
  {
    if first < limit {
      FetchKeepsColumns(e, f, first, limit - 1, k);
    }
  }

  lemma {:induction false} SameDrawing(c: seq<Column>, d: seq<Column>, row: int, cells: seq<Cell>,
                                       first: int, limit: int)
    requires |c| == 32 && |d| == 32 && 0 <= first && limit <= 32
    requires forall k | 0 <= k < limit :: c[k] == d[k]
    ensures DrawColumns(c, row, cells, first, limit) == DrawColumns(d, row, cells, first, limit)
    decreases limit - first
  {
    if first < limit {
      SameDrawing(c, d, row, cells, first, limit - 1);
    }
  }

  /** Two captures of a line agree on the columns before a position. */
  ghost predicate Agree(c: seq<Column>, d: seq<Column>, b: int) {
    |c| == 32 && |d| == 32 && forall k | 0 <= k < 32 && k < ColumnAt(b) :: c[k] == d[k]
  }

  lemma DrawnOnwards(columns: seq<Column>, row: int, cells: seq<Cell>, first: int, limit: int, next: int)
    requires |columns| == 32 && 0 <= first <= limit && next <= 32 && (next == limit || next == limit + 1)
    ensures DrawColumns(columns, row, cells, first, next)
         == DrawColumns(columns, row, DrawColumns(columns, row, cells, first, limit), limit, next)
    ensures DrawColumns(columns, row, cells, first, first) == cells
  {
    var drawn := DrawColumns(columns, row, cells, first, limit);
    assert DrawColumns(columns, row, drawn, limit, limit) == drawn;
    hide CellAt;
  }

  lemma DrawnExtends(c: seq<Column>, d: seq<Column>, row: int, p: Picture, a: int, b: int)
    requires 0 <= a < b < END_OF_LINE && Agree(c, d, b)
    ensures Drawn(d, row, p, a, b + 1) == Drawn(d, row, Drawn(c, row, p, a, b), b, b + 1)
  {
    hide DrawColumns, ColumnAt, Agree;
    var x, y := Max(a, END_OF_LEFT_BORDER), Min(b, END_OF_PIXELS);
    var cells := if a <= END_OF_LEFT_BORDER < b then [] else p.cells;
    if END_OF_LEFT_BORDER <= b {
      ColumnsAdvance(x);
      SameWhereAgreed(c, d, row, cells, x, y, b);
      if b < END_OF_PIXELS {
        ColumnsAdvance(b);
        ColumnsOrdered(x, b);
        DrawnOnwards(d, row, cells, ColumnAt(x), ColumnAt(b), ColumnAt(b + 1));
        if b == END_OF_LEFT_BORDER {
          DrawnOnwards(d, row, [], 0, 0, ColumnAt(b + 1));
        }
      }
    }
  }

  lemma SameWhereAgreed(c: seq<Column>, d: seq<Column>, row: int, cells: seq<Cell>, x: int, y: int, b: int)
    requires Agree(c, d, b) && END_OF_LEFT_BORDER <= x && END_OF_LEFT_BORDER <= y <= b && y <= END_OF_PIXELS
    ensures 0 <= ColumnAt(x) && ColumnAt(y) <= 32 && |c| == 32 && |d| == 32
    ensures DrawColumns(c, row, cells, ColumnAt(x), ColumnAt(y)) == DrawColumns(d, row, cells, ColumnAt(x), ColumnAt(y))
  {
    ColumnsOrdered(y, b);
    SameDrawing(c, d, row, cells, ColumnAt(x), ColumnAt(y));
  }

  lemma SyncExtends(p: Picture, a: int, b: int)
    requires a < b
    ensures SyncAndBurst(p, a, b + 1) == SyncAndBurst(SyncAndBurst(p, a, b), b, b + 1)
    ensures b > END_OF_BURST ==> SyncAndBurst(p, a, b + 1) == SyncAndBurst(p, a, b)
    ensures b <= END_OF_BURST ==> SyncAndBurst(p, a, b) == p
  {
    hide Emit;
  }

  lemma BorderDone(e: Settings, p: Picture, a: int, b: int, first: int, limit: int)
    requires a < b && first < limit
    ensures b >= limit ==> Border(e, p, a, b + 1, first, limit) == Border(e, p, a, b, first, limit)
    ensures b >= limit ==> Border(e, p, b, b + 1, first, limit) == p
    ensures b <= first ==> Border(e, p, a, b, first, limit) == p
    ensures b < first ==> Border(e, p, b, b + 1, first, limit) == p
  {
    hide Emit;
  }

  lemma DrawnDone(columns: seq<Column>, row: int, p: Picture, a: int, b: int)
    requires |columns| == 32 && a < b
    ensures b >= END_OF_PIXELS ==> Drawn(columns, row, p, b, b + 1) == p
    ensures b <= END_OF_LEFT_BORDER ==> Drawn(columns, row, p, a, b) == p
  {
    hide DrawColumns;
  }

  lemma SentDone(p: Picture, a: int, b: int)
    requires a < b
    ensures b <= END_OF_PIXELS ==> DataSent(p, a, b) == p
    ensures b > END_OF_PIXELS ==> DataSent(p, a, b + 1) == DataSent(p, a, b) && DataSent(p, b, b + 1) == p
    ensures b == END_OF_PIXELS ==> DataSent(p, a, b + 1) == DataSent(p, b, b + 1)
  {
    hide Emit;
  }

  /** A line of pixels: none of what is sent, and none of what is drawn, depends on how it is divided. */
  lemma PixelLineExtends(e: Settings, c: seq<Column>, d: seq<Column>, row: int, p: Picture, a: int, b: int)
    requires 0 <= a < b < END_OF_LINE && Agree(c, d, b)
    ensures PixelLine(e, d, row, p, a, b + 1) == PixelLine(e, d, row, PixelLine(e, c, row, p, a, b), b, b + 1)
  {
    if b < END_OF_LEFT_BORDER {
      PixelsBefore(e, c, row, p, a, b);
      PixelsBefore(e, d, row, p, a, b + 1);
      PixelsBefore(e, d, row, PixelLine(e, c, row, p, a, b), b, b + 1);
      BordersBefore(e, p, a, b);
    } else {
      AtPixels(e, c, d, row, p, a, b);
    }
    hide PixelLine, SyncAndBurst, Agree;
  }

  /** Before the pixels there is only the first border. */
  lemma PixelsBefore(e: Settings, c: seq<Column>, row: int, p: Picture, a: int, b: int)
    requires |c| == 32 && 0 <= a < b
    ensures b <= END_OF_LEFT_BORDER ==>
              PixelLine(e, c, row, p, a, b) == Border(e, SyncAndBurst(p, a, b), a, b, END_OF_BURST, END_OF_LEFT_BORDER)
  {
    var q := Border(e, SyncAndBurst(p, a, b), a, b, END_OF_BURST, END_OF_LEFT_BORDER);
    DrawnDone(c, row, q, a, b);
    SentDone(q, a, b);
    BorderDone(e, q, a, b, END_OF_PIXELS, END_OF_LINE);
    hide Border, SyncAndBurst, Drawn, DataSent;
  }

  lemma BordersBefore(e: Settings, p: Picture, a: int, b: int)
    requires 0 <= a < b < END_OF_LEFT_BORDER
    ensures Border(e, SyncAndBurst(p, a, b + 1), a, b + 1, END_OF_BURST, END_OF_LEFT_BORDER)
         == Border(e, SyncAndBurst(Border(e, SyncAndBurst(p, a, b), a, b, END_OF_BURST, END_OF_LEFT_BORDER), b, b + 1),
                   b, b + 1, END_OF_BURST, END_OF_LEFT_BORDER)
  {
    var q := SyncAndBurst(p, a, b);
    SyncExtends(p, a, b);
    BorderExtends(e, q, a, b, END_OF_BURST, END_OF_LEFT_BORDER);
    BorderDone(e, q, a, b, END_OF_BURST, END_OF_LEFT_BORDER);
    SyncExtends(Border(e, q, a, b, END_OF_BURST, END_OF_LEFT_BORDER), b - 1, b);
    if b <= END_OF_BURST {
      NothingBetween(e, SyncAndBurst(p, b, b + 1), a, b);
    } else {
      NoSync(Border(e, q, a, b, END_OF_BURST, END_OF_LEFT_BORDER), b);
    }
    hide Border, SyncAndBurst;
  }

  lemma NoSync(p: Picture, b: int)
    requires b > END_OF_BURST
    ensures SyncAndBurst(p, b, b + 1) == p
  {
  }

  lemma NothingBetween(e: Settings, p: Picture, a: int, b: int)
    requires 0 <= a < b <= END_OF_BURST
    ensures Border(e, p, a, b + 1, END_OF_BURST, END_OF_LEFT_BORDER)
         == Border(e, p, b, b + 1, END_OF_BURST, END_OF_LEFT_BORDER)
  {
  }

  /** From the pixels on the first border is done. */
  lemma AtPixels(e: Settings, c: seq<Column>, d: seq<Column>, row: int, p: Picture, a: int, b: int)
    requires END_OF_LEFT_BORDER <= b && 0 <= a < b < END_OF_LINE && Agree(c, d, b)
    ensures PixelLine(e, d, row, p, a, b + 1) == PixelLine(e, d, row, PixelLine(e, c, row, p, a, b), b, b + 1)
  {
    var q := Border(e, SyncAndBurst(p, a, b), a, b, END_OF_BURST, END_OF_LEFT_BORDER);
    var r := Drawn(c, row, q, a, b);
    var t := DataSent(r, a, b);
    var u := Border(e, t, a, b, END_OF_PIXELS, END_OF_LINE);
    SyncExtends(p, a, b);
    BorderDone(e, SyncAndBurst(p, a, b), a, b, END_OF_BURST, END_OF_LEFT_BORDER);
    NoSync(u, b);
    BorderDone(e, u, a, b, END_OF_BURST, END_OF_LEFT_BORDER);
    DrawnExtends(c, d, row, q, a, b);
    SentDone(r, a, b);
    SentDone(Drawn(d, row, r, b, b + 1), b, b + 1);
    SentDone(Drawn(d, row, r, b, b + 1), a, b);
    SentDone(Drawn(d, row, q, a, b + 1), a, b + 1);
    DrawnDone(d, row, u, a, b);
    DrawnDone(d, row, r, a, b);
    SentDone(u, a, b);
    BorderDone(e, t, a, b, END_OF_PIXELS, END_OF_LINE);
    BorderDone(e, Drawn(d, row, r, b, b + 1), a, b + 1, END_OF_PIXELS, END_OF_LINE);
    BorderDone(e, Drawn(d, row, r, b, b + 1), b, b + 1, END_OF_PIXELS, END_OF_LINE);
    BorderExtends(e, t, a, b, END_OF_PIXELS, END_OF_LINE);
    BorderFromPixels(e, DataSent(r, b, b + 1), a, b);
    hide Border, SyncAndBurst, Drawn, DataSent, Agree;
  }

  lemma BorderFromPixels(e: Settings, p: Picture, a: int, b: int)
    requires a < b
    ensures b == END_OF_PIXELS ==>
              Border(e, p, a, b + 1, END_OF_PIXELS, END_OF_LINE) == Border(e, p, b, b + 1, END_OF_PIXELS, END_OF_LINE)
  {
  }

  lemma BorderLineExtends(e: Settings, p: Picture, a: int, b: int)
    requires 0 <= a < b < END_OF_LINE
    ensures BorderLine(e, p, a, b + 1) == BorderLine(e, BorderLine(e, p, a, b), b, b + 1)
  {
    var q := SyncAndBurst(p, a, b);
    SyncExtends(p, a, b);
    BorderExtends(e, q, a, b, END_OF_BURST, END_OF_LINE);
    if b <= END_OF_BURST {
      BorderDone(e, q, a, b, END_OF_BURST, END_OF_LINE);
      FirstOfBorder(e, SyncAndBurst(p, b, b + 1), a, b);
    } else {
      NoSync(Border(e, q, a, b, END_OF_BURST, END_OF_LINE), b);
    }
    hide Border, SyncAndBurst;
  }

  lemma FirstOfBorder(e: Settings, p: Picture, a: int, b: int)
    requires 0 <= a < b <= END_OF_BURST
    ensures Border(e, p, a, b + 1, END_OF_BURST, END_OF_LINE) == Border(e, p, b, b + 1, END_OF_BURST, END_OF_LINE)
  {
  }

  lemma BlankLineExtends(e: Settings, p: Picture, line: int, a: int, b: int)
    requires 0 <= a < b < END_OF_LINE
    ensures BlankLine(e, p, line, a, b + 1) == BlankLine(e, BlankLine(e, p, line, a, b), line, b, b + 1)
  {
    BorderLineExtends(e, p, a, b);
    hide BorderLine, Emit;
  }

  lemma FetchedAgree(e: Settings, f: Fetcher, b: int)
    requires |f.columns| == 32 && 0 <= b < END_OF_LINE
    ensures Agree(f.columns, Fetched(e, f, b, b + 1).columns, b)
  {
    if END_OF_LEFT_BORDER <= b < END_OF_PIXELS {
      ColumnsAdvance(b);
      forall k | 0 <= k < 32 && k < ColumnAt(b) ensures f.columns[k] == Fetched(e, f, b, b + 1).columns[k] {
        FetchKeepsColumns(e, f, ColumnAt(b), ColumnAt(b + 1), k);
      }
    }
  }

  /** A span of a line and then its next clock is the same as the longer span. */
  lemma SpanExtends(e: Settings, s: State, line: int, a: int, b: int)
    requires |s.fetcher.columns| == 32 && 0 <= a < b < END_OF_LINE
    ensures Span(e, s, line, a, b + 1) == Span(e, Span(e, s, line, a, b), line, b, b + 1)
  {
    SignalsExtend(e.timing, s.signals, line, a, b);
    var p := s.picture;
    if line < 192 {
      var f := PassedOver(Fetched(e, s.fetcher, a, b), a, b);
      var g := PassedOver(Fetched(e, f, b, b + 1), b, b + 1);
      FetchThenPass(e, s.fetcher, a, b);
      FetchedAgree(e, f, b);
      PixelLineExtends(e, f.columns, g.columns, f.row, p, a, b);
    } else {
      BlankLineExtends(e, p, line, a, b);
    }
    hide Fetched, PassedOver, PixelLine, BlankLine, LineEnded, Signalled;
  }

  lemma SignalsExtend(t: Timing, signals: seq<Signal>, line: int, a: int, b: int)
    requires 0 <= a < b
    ensures Signalled(t, signals, line, a, b + 1) == Signalled(t, Signalled(t, signals, line, a, b), line, b, b + 1)
  {
    hide LineStarted;
  }

  // Spans are ticks, and so are calls.

  lemma SpanElsewhere(e: Settings, s: State, position: int, line: int, a: int, b: int)
    requires |s.fetcher.columns| == 32
    ensures Span(e, s.(position := position), line, a, b) == Span(e, s, line, a, b).(position := position)
  {
    hide Fetched, PassedOver, PixelLine, BlankLine, LineEnded;
  }

  /** Running to some point of the current line is ticking that often. */
  lemma {:induction false} SpanIsTicks(e: Settings, s: State, n: nat)
    requires Valid(e, s) && 1 <= n <= END_OF_LINE - s.position % END_OF_LINE
    ensures var begin := s.position % END_OF_LINE;
            Ticks(e, s, n) == Moved(e, Span(e, s, s.position / END_OF_LINE, begin, begin + n), n)
    decreases n
  {
    hide Span, Ticks, Tick, Moved, Timing.EndOfField;
    NextTick(e, s, n);
    if n > 1 {
      SpanIsTicks(e, s, n - 1);
      WithinLine(e, s.position, n - 1);
      TickWithin(e, s, s.position / END_OF_LINE, s.position % END_OF_LINE, n);
    }
  }

  lemma NextTick(e: Settings, s: State, n: nat)
    requires Valid(e, s) && n > 0
    ensures Ticks(e, s, n) == Tick(e, Ticks(e, s, n - 1)) && Ticks(e, s, 0) == s
    ensures var begin := s.position % END_OF_LINE;
            Tick(e, s) == Moved(e, Span(e, s, s.position / END_OF_LINE, begin, begin + 1), 1)
  {
    hide Span, Moved;
  }

  /** A clock after the first few of a line. */
  lemma TickWithin(e: Settings, s: State, line: int, begin: int, n: nat)
    requires Valid(e, s) && n > 1 && 0 <= begin && begin + n <= END_OF_LINE
    requires var position := s.position + n - 1;
             && position < END_OF_LINE * e.timing.EndOfField()
             && position / END_OF_LINE == line && position % END_OF_LINE == begin + n - 1
    ensures var u := Moved(e, Span(e, s, line, begin, begin + n - 1), n - 1);
            Valid(e, u) && Tick(e, u) == Moved(e, Span(e, s, line, begin, begin + n), n)
  {
    hide Span, Timing.EndOfField;
    var r := Span(e, s, line, begin, begin + n - 1);
    SpanElsewhere(e, r, s.position + n - 1, line, begin + n - 1, begin + n);
    SpanExtends(e, s, line, begin, begin + n - 1);
  }

  lemma WithinLine(e: Settings, position: int, n: int)
    requires 0 <= position < END_OF_LINE * e.timing.EndOfField() && 0 <= n < END_OF_LINE - position % END_OF_LINE
    ensures position + n < END_OF_LINE * e.timing.EndOfField()
    ensures (position + n) / END_OF_LINE == position / END_OF_LINE
    ensures (position + n) % END_OF_LINE == position % END_OF_LINE + n
  {
  }

  /** However time is divided into calls, the same is fetched, drawn, sent and signalled. */
  lemma {:induction false} TicksAdd(e: Settings, s: State, a: nat, b: nat)
    requires Valid(e, s)
    ensures Ticks(e, s, a + b) == Ticks(e, Ticks(e, s, a), b)
    decreases b
  {
    hide Tick;
    if b > 0 {
      TicksAdd(e, s, a, b - 1);
    }
  }

  // Whole lines.

  /** What a whole line sends, given the cells drawn if it is one with pixels. */
  function LineOutput(e: Settings, line: int, cells: seq<Cell>): seq<Output> {
    var t := e.timing;
    if line < 192 then
      [Sync(28), Burst(27), Level(e.border, 75), Data(cells), Level(e.border, 70)]
    else if line < t.EndOfBottomBorder() then [Sync(28), Burst(27), Level(e.border, 401)]
    else if line < t.EndOfFrontPorch() then [Sync(28), Blank(428)]
    else if line < t.EndOfSync() then [Sync(456)]
    else if line < t.EndOfBackPorch() then [Sync(28), Blank(428)]
    else [Sync(28), Burst(27), Level(e.border, 401)]
  }

  /** The clocks that something sent takes, a cell being eight. */
  function Clocks(x: Output): int {
    match x
    case Sync(n) => n
    case Burst(n) => n
    case Blank(n) => n
    case Level(_, n) => n
    case Data(cells) => 8 * |cells|
  }

  function Duration(sent: seq<Output>): int
    decreases |sent|
  {
    if sent == [] then 0 else Duration(sent[..|sent| - 1]) + Clocks(sent[|sent| - 1])
  }

  lemma DurationAppend(sent: seq<Output>, x: Output)
    ensures Duration(sent + [x]) == Duration(sent) + Clocks(x)
  {
    assert (sent + [x])[..|sent|] == sent;
  }

  lemma LineTakes456(e: Settings, line: int, cells: seq<Cell>)
    requires |cells| == 32
    ensures Duration(LineOutput(e, line, cells)) == END_OF_LINE
  {
    hide Duration, Clocks;
    Duration5(Sync(28), Burst(27), Level(e.border, 75), Data(cells), Level(e.border, 70));
    Duration3(Sync(28), Burst(27), Level(e.border, 401));
    Duration2(Sync(28), Blank(428));
    Duration1(Sync(456));
    ClocksOf(e, cells);
  }

  lemma ClocksOf(e: Settings, cells: seq<Cell>)
    ensures Clocks(Sync(28)) == 28 && Clocks(Sync(456)) == 456 && Clocks(Burst(27)) == 27 && Clocks(Blank(428)) == 428
    ensures forall n :: Clocks(Level(e.border, n)) == n
    ensures Clocks(Data(cells)) == 8 * |cells|
  {
  }

  lemma Duration1(a: Output)
    ensures Duration([a]) == Clocks(a)
  {
    assert [a][..0] == [];
  }

  lemma Duration2(a: Output, b: Output)
    ensures Duration([a, b]) == Clocks(a) + Clocks(b)
  {
    hide Duration, Clocks;
    Duration1(a);
    DurationAppend([a], b);
    assert [a] + [b] == [a, b];
  }

  lemma Duration3(a: Output, b: Output, c: Output)
    ensures Duration([a, b, c]) == Clocks(a) + Clocks(b) + Clocks(c)
  {
    hide Duration, Clocks;
    Duration2(a, b);
    DurationAppend([a, b], c);
    assert [a, b] + [c] == [a, b, c];
  }

  lemma Duration5(a: Output, b: Output, c: Output, d: Output, f: Output)
    ensures Duration([a, b, c, d, f]) == Clocks(a) + Clocks(b) + Clocks(c) + Clocks(d) + Clocks(f)
  {
    hide Duration, Clocks;
    Duration3(a, b, c);
    DurationAppend([a, b, c], d);
    assert [a, b, c] + [d] == [a, b, c, d];
    DurationAppend([a, b, c, d], f);
    assert [a, b, c, d] + [f] == [a, b, c, d, f];
  }

  /** The address that column k is fetched from: 16-byte modes fetch each byte twice. */
  function AddressOf(e: Settings, start: Address, k: nat): Address {
    (start as int + (if e.wide then k else k / 2)) % 65536
  }

  /** The fetches of a line's first columns, and those that follow them. */
  function ColumnFetches(e: Settings, start: Address, n: nat): seq<Fetch> {
    seq(n, k requires 0 <= k < n => Fetch(k, AddressOf(e, start, k)))
  }

  function OtherFetches(address: Address, n: nat): seq<Fetch> {
    seq(n, k requires 0 <= k < n => Fetch(32 + k, (address as int + 32 + k) % 65536))
  }

  lemma {:induction false} ColumnsFetchedInOrder(e: Settings, f: Fetcher, n: nat)
    requires |f.columns| == 32 && n <= 32
    ensures var g := FetchColumns(e, f, 0, n);
            && g.address == AddressOf(e, f.address, n)
            && g.fetches == f.fetches + ColumnFetches(e, f.address, n)
            && forall k | 0 <= k < n ::
                 var data := e.memory(AddressOf(e, f.address, k)); g.columns[k] == Column(data, e.mapper(data, e.mode))
    decreases n
  {
    if n > 0 {
      ColumnsFetchedInOrder(e, f, n - 1);
      var g := FetchColumns(e, f, 0, n - 1);
      assert ColumnFetches(e, f.address, n) == ColumnFetches(e, f.address, n - 1) + [Fetch(n - 1, g.address)];
      NextAddress(e, f.address, n - 1);
    }
  }

  lemma NextAddress(e: Settings, start: Address, k: nat)
    ensures (AddressOf(e, start, k) as int + (if e.wide then 1 else k % 2)) % 65536 == AddressOf(e, start, k + 1)
  {
    ReducedBefore(start + (if e.wide then k else k / 2), if e.wide then 1 else k % 2, 65536);
    assert (k + 1) / 2 == k / 2 + k % 2;
  }

  lemma {:induction false} DrawnInOrder(columns: seq<Column>, row: int, n: nat)
    requires |columns| == 32 && n <= 32
    ensures |DrawColumns(columns, row, [], 0, n)| == n
    ensures forall k | 0 <= k < n :: DrawColumns(columns, row, [], 0, n)[k] == CellAt(columns, row, k)
    decreases n
  {
    hide CellAt;
    if n > 0 {
      DrawnInOrder(columns, row, n - 1);
    }
  }

  lemma {:induction false} PassedInOrder(f: Fetcher, n: nat)
    ensures var g := PassOver(f, 32, 32 + n);
            g.fetches == f.fetches + OtherFetches(f.address, n)
    decreases n
  {
    if n > 0 {
      PassedInOrder(f, n - 1);
    }
  }

  /** The cells that a line with pixels shows, from what is in memory. */
  function CellsOf(e: Settings, start: Address, row: int): (cells: seq<Cell>)
    ensures |cells| == 32
  {
    seq(32, k requires 0 <= k < 32 => CellShown(e, start, row, k))
  }

  function CellShown(e: Settings, start: Address, row: int, k: nat): Cell {
    var mode := e.mapper(e.memory(AddressOf(e, start, k)), e.mode);
    Cell(e.memory(AddressOf(e, start, Source(k, mode))), mode, row)
  }

  lemma SourceWithin(k: nat, mode: int)
    ensures 0 <= Source(k, mode) <= k
  {
  }

  /** A whole line of pixels fetches each of its 32 columns exactly once, in order, and shows what it fetched. */
  lemma PixelsOfLine(e: Settings, f: Fetcher)
    requires |f.columns| == 32
    ensures var g := Fetched(e, f, 0, END_OF_LINE);
            && g == FetchColumns(e, f, 0, 32)
            && g.fetches == f.fetches + ColumnFetches(e, f.address, 32)
            && DrawColumns(g.columns, f.row, [], 0, 32) == CellsOf(e, f.address, f.row)
  {
    hide AddressOf, FetchColumns, DrawColumns, ColumnFetches, CellAt, CellShown;
    var g := FetchColumns(e, f, 0, 32);
    ColumnsFetchedInOrder(e, f, 32);
    ColumnsAdvance(END_OF_LEFT_BORDER);
    DrawnInOrder(g.columns, f.row, 32);
    forall k: nat | k < 32 ensures CellAt(g.columns, f.row, k) == CellShown(e, f.address, f.row, k) {
      CellFetched(e, f, g, k);
    }
  }

  lemma CellFetched(e: Settings, f: Fetcher, g: Fetcher, k: nat)
    requires k < 32 && |g.columns| == 32
    requires forall i | 0 <= i < 32 ::
               var data := e.memory(AddressOf(e, f.address, i)); g.columns[i] == Column(data, e.mapper(data, e.mode))
    ensures CellAt(g.columns, f.row, k) == CellShown(e, f.address, f.row, k)
  {
    SourceWithin(k, g.columns[k].mode);
    hide AddressOf;
  }

  lemma PixelLineSends(e: Settings, columns: seq<Column>, row: int, p: Picture)
    requires |columns| == 32
    ensures PixelLine(e, columns, row, p, 0, END_OF_LINE).sent
         == p.sent + LineOutput(e, 0, DrawColumns(columns, row, [], 0, 32))
  {
    hide DrawColumns;
    ColumnsAdvance(END_OF_LEFT_BORDER);
    var cells := DrawColumns(columns, row, [], 0, 32);
    var sent := p.sent + [Sync(28)];
    assert Emit(p.sent, Sync(28)) == sent;
    assert p.sent + [Sync(28)] + [Burst(27)] + [Level(e.border, 75)] + [Data(cells)] + [Level(e.border, 70)]
        == p.sent + LineOutput(e, 0, cells);
  }

  lemma BlankLineSends(e: Settings, p: Picture, line: int, cells: seq<Cell>)
    requires line >= 192
    ensures BlankLine(e, p, line, 0, END_OF_LINE).sent == p.sent + LineOutput(e, line, cells)
  {
    assert p.sent + [Sync(28)] + [Burst(27)] + [Level(e.border, 401)]
        == p.sent + [Sync(28), Burst(27), Level(e.border, 401)];
    assert p.sent + [Sync(28)] + [Blank(428)] == p.sent + [Sync(28), Blank(428)];
  }

  /** The level of horizontal sync, once there has been any, is off. */
  predicate SyncOff(signals: seq<Signal>) {
    signals == [] || signals[|signals| - 1] == Hsync(false)
  }

  /** Every whole line, however time is divided, sends the CRT the same things in the same order, lasting
      456 clocks in all, and turns horizontal sync on and then off. */
  lemma WholeLine(e: Settings, s: State)
    requires Valid(e, s) && s.position % END_OF_LINE == 0
    ensures var line, t := s.position / END_OF_LINE, Ticks(e, s, END_OF_LINE);
            var output := LineOutput(e, line, CellsOf(e, s.fetcher.address, s.fetcher.row));
            && t.picture.sent == s.picture.sent + output && Duration(output) == END_OF_LINE
            && SyncOff(t.signals)
            && (SyncOff(s.signals) ==>
                  t.signals == s.signals + [Hsync(true)]
                    + (if line == 192 then [FieldSync(true)]
                       else if line == e.timing.EndOfSync() then [FieldSync(false)] else [])
                    + [Hsync(false)])
  {
    var line, cells := s.position / END_OF_LINE, CellsOf(e, s.fetcher.address, s.fetcher.row);
    SpanIsTicks(e, s, END_OF_LINE);
    LineTakes456(e, line, cells);
    LineSignals(e.timing, s.signals, line);
    if line < 192 {
      PixelsOfLine(e, s.fetcher);
      var f := PassedOver(Fetched(e, s.fetcher, 0, END_OF_LINE), 0, END_OF_LINE);
      PixelLineSends(e, f.columns, f.row, s.picture);
    } else {
      BlankLineSends(e, s.picture, line, cells);
    }
    hide Ticks, Fetched, PassedOver, PixelLine, BlankLine, Duration, CellsOf, LineEnded, DrawColumns, Signalled;
  }

  lemma LineSignals(t: Timing, signals: seq<Signal>, line: int)
    ensures var after := Signalled(t, signals, line, 0, END_OF_LINE);
            && SyncOff(after)
            && (SyncOff(signals) ==>
                  after == signals + [Hsync(true)]
                    + (if line == 192 then [FieldSync(true)]
                       else if line == t.EndOfSync() then [FieldSync(false)] else [])
                    + [Hsync(false)])
  {
  }

  /** Each column of a whole line of pixels is fetched exactly once, in order, from successive addresses; eight
      more fetches then come to nothing. */
  lemma WholeLineFetches(e: Settings, s: State)
    requires Valid(e, s) && s.position % END_OF_LINE == 0 && s.position / END_OF_LINE < 192
    ensures var f := s.fetcher;
            var end := AddressOf(e, f.address, 32);
            Ticks(e, s, END_OF_LINE).fetcher.fetches
              == f.fetches + ColumnFetches(e, f.address, 32)
                 + OtherFetches(end, 8)
  {
    SpanIsTicks(e, s, END_OF_LINE);
    LineFetches(e, s.fetcher);
    hide Ticks, Fetched, PassedOver, PixelLine, AddressOf, ColumnFetches, OtherFetches;
  }

  lemma LineFetches(e: Settings, f: Fetcher)
    requires |f.columns| == 32
    ensures PassedOver(Fetched(e, f, 0, END_OF_LINE), 0, END_OF_LINE).fetches
         == f.fetches + ColumnFetches(e, f.address, 32) + OtherFetches(AddressOf(e, f.address, 32), 8)
  {
    hide AddressOf, ColumnFetches, OtherFetches, FetchColumns, PassOver;
    ColumnsFetchedInOrder(e, f, 32);
    ColumnsAdvance(END_OF_LEFT_BORDER);
    var g := Fetched(e, f, 0, END_OF_LINE);
    assert g == FetchColumns(e, f, 0, 32);
    PassedInOrder(g, 8);
    assert PassedOver(g, 0, END_OF_LINE) == PassOver(g, 32, 40);
  }

  predicate LineAligned(e: Settings, f: Fetcher) {
    f.address % Width(e) == 0
  }

  /** At the end of a line, once all of its rows are done, the address is the next line's; and until then it is
      back where the line began exactly if that was the beginning of a line, and otherwise moves on at once. */
  lemma RowsRepeat(e: Settings, f: Fetcher)
    ensures AddressOf(e, f.address, 32) == (f.address + Width(e)) % 65536
    ensures var g := LineEnded(e, f.(address := AddressOf(e, f.address, 32)));
            var onward := (f.address - f.address % Width(e) + Width(e)) % 65536;
            if (f.row + 1) % 16 == e.targetRow then g.row == 0 && g.address == onward
            else
              && g.row == (f.row + 1) % 16
              && g.address == (if LineAligned(e, f) then f.address else onward)
              && (g.address == f.address <==> LineAligned(e, f))
  {
    Floors(f.address, Width(e), AddressOf(e, f.address, 32));
    hide AddressOf;
  }

  /** Where the address goes from just past a line's end, and from the byte before. */
  lemma Floors(start: Address, width: int, next: int)
    requires (width == 16 || width == 32) && next == (start + width) % 65536
    ensures var onward := (start - start % width + width) % 65536;
            && onward % width == 0 && next - next % width == onward
            && (next - 1) % 65536 - (next - 1) % 65536 % width == if start % width == 0 then start else onward
  {
    var r := start % width;
    if start + width < 65536 {
      FloorsBelow(start, width);
      SmallModulo(start + width);
      SmallModulo(start - r + width);
    } else {
      FloorsAtTop(start, width);
    }
  }

  lemma SmallModulo(x: int)
    ensures 0 <= x < 65536 ==> x % 65536 == x
    ensures 0 < x < 65536 ==> (x - 1) % 65536 == x - 1
  {
  }

  lemma FloorsBelow(start: Address, width: int)
    requires width > 0
    ensures var next, onward := start + width, start - start % width + width;
            && start >= start % width >= 0 && onward % width == 0 && next - next % width == onward
            && next - 1 - (next - 1) % width == if start % width == 0 then start as int else onward
  {
    FloorDivides(start, width);
    hide *;
    Distribute(start / width, 1, width);
    FloorsIn(start / width + 1, start % width, width);
  }

  lemma FloorsAtTop(start: Address, width: int)
    requires (width == 16 || width == 32) && start + width >= 65536
    ensures var next, r := (start + width) % 65536, start % width;
            && next == r && (start - r + width) % 65536 == 0 && next - next % width == 0
            && (next - 1) % 65536 - (next - 1) % 65536 % width == if r == 0 then start as int else 0
  {
    LastLine(start, width);
    FloorsIn(0, start % width, width);
    Floor(65536 / width - 1, width - 1, width);
  }

  lemma FloorsIn(q: int, r: int, width: int)
    requires 0 <= r < width
    ensures q * width % width == 0 && (q * width + r) - (q * width + r) % width == q * width
    ensures var before := q * width + r - 1;
            before - before % width == if r == 0 then q * width - width else q * width
  {
    Floor(q, 0, width);
    Floor(q, r, width);
    if r == 0 {
      Distribute(q, -1, width);
      Floor(q - 1, width - 1, width);
    } else {
      Floor(q, r - 1, width);
    }
  }

  lemma Floor(q: int, r: int, width: int)
    requires 0 <= r < width
    ensures (q * width + r) % width == r && (q * width + r) - (q * width + r) % width == q * width
  {
    DivisionIsUnique(q * width + r, width, q, r);
  }

  lemma LastLine(start: Address, width: int)
    requires (width == 16 || width == 32) && start + width >= 65536
    ensures start - start % width == 65536 - width && (start + width) % 65536 == start % width
  {
  }

  /** Every line with pixels ends on the beginning of one, wherever it was itself. */
  lemma LineEndsAligned(e: Settings, f: Fetcher)
    ensures LineAligned(e, LineEnded(e, f))
  {
    var address := if (f.row + 1) % 16 == e.targetRow then f.address as int else (f.address as int - 1) % 65536;
    FloorDivides(address, Width(e));
    Floor(address / Width(e), 0, Width(e));
  }

  /** So the next line begins aligned if this one has pixels, or began so. */
  lemma NextLineAligned(e: Settings, s: State)
    requires Valid(e, s) && (s.position / END_OF_LINE < 192 || LineAligned(e, s.fetcher))
    ensures var t := Ticks(e, s, END_OF_LINE - s.position % END_OF_LINE);
            t.position % END_OF_LINE == 0 && LineAligned(e, t.fetcher)
  {
    hide Ticks, Span, Moved, LineAligned, Timing.EndOfField;
    var line, begin := RestOfLine(e, s);
    SpanAligned(e, s, line, begin);
    MovedAligned(e, Span(e, s, line, begin, END_OF_LINE), END_OF_LINE - begin);
    LineDone(e, s, END_OF_LINE - begin);
  }

  lemma SpanAligned(e: Settings, s: State, line: int, begin: int)
    requires |s.fetcher.columns| == 32 && (line < 192 || LineAligned(e, s.fetcher))
    ensures LineAligned(e, Span(e, s, line, begin, END_OF_LINE).fetcher)
  {
    LineEndsAligned(e, PassedOver(Fetched(e, s.fetcher, begin, END_OF_LINE), begin, END_OF_LINE));
    hide Fetched, PassedOver, PixelLine, BlankLine, LineEnded, Signalled, LineAligned;
  }

  lemma MovedAligned(e: Settings, s: State, length: int)
    requires LineAligned(e, s.fetcher)
    ensures LineAligned(e, Moved(e, s, length).fetcher)
  {
    hide Timing.EndOfField;
  }

  /** In one mode, lines go on beginning aligned for ever. */
  lemma {:induction false} LinesStayAligned(e: Settings, s: State, lines: nat)
    requires Valid(e, s) && s.position % END_OF_LINE == 0 && LineAligned(e, s.fetcher)
    ensures var t := Ticks(e, s, END_OF_LINE * lines); t.position % END_OF_LINE == 0 && LineAligned(e, t.fetcher)
  {
    hide Ticks, Valid, LineAligned;
    if lines == 0 {
      NoTicks(e, s);
    } else {
      LinesStayAligned(e, s, lines - 1);
      TicksAdd(e, s, END_OF_LINE * (lines - 1), END_OF_LINE);
      NextLineAligned(e, Ticks(e, s, END_OF_LINE * (lines - 1)));
    }
  }

  // The row preset, which is tested for after the end of a line may have moved the row on.

  function RowAfter(e: Settings, row: int, end: int): int {
    if end != END_OF_LINE then row
    else if (row + 1) % 16 == e.targetRow then 0
    else (row + 1) % 16
  }

  function PresetSpan(e: Settings, row: int, levels: seq<bool>, line: int, begin: int, end: int): seq<bool> {
    if line >= 192 then levels
    else
      var begun := if begin == 0 && row == 0 then Settle(levels, true) else levels;
      if end >= END_OF_SYNC && RowAfter(e, row, end) == 0 then Settle(begun, false) else begun
  }

  /** The clocks that a call spends on the line it begins in. */
  function InLine(position: int, count: nat): (n: nat)
    ensures n <= count && (count > 0 ==> n > 0)
  {
    Min(END_OF_LINE - position % END_OF_LINE, count)
  }

  /** What a call for some clocks signals: each line's span of it in turn. */
  function CallPresets(e: Settings, s: State, levels: seq<bool>, count: nat): seq<bool>
    requires Valid(e, s)
    decreases count
  {
    if count == 0 then levels
    else
      var n, begin := InLine(s.position, count), s.position % END_OF_LINE;
      var now := PresetSpan(e, s.fetcher.row, levels, s.position / END_OF_LINE, begin, begin + n);
      CallPresets(e, Ticks(e, s, n), now, count - n)
  }

  /** And several calls. */
  function CallsPresets(e: Settings, s: State, levels: seq<bool>, calls: seq<nat>): seq<bool>
    requires Valid(e, s)
    decreases |calls|
  {
    if calls == [] then levels
    else CallsPresets(e, Ticks(e, s, calls[0]), CallPresets(e, s, levels, calls[0]), calls[1..])
  }

  /** The same for calls that divide up one line, from a clock of it on. */
  function LinePresets(e: Settings, row: int, levels: seq<bool>, line: int, begin: nat, calls: seq<nat>): seq<bool>
    decreases |calls|
  {
    if calls == [] then levels
    else
      var end := begin + calls[0];
      LinePresets(e, row, PresetSpan(e, row, levels, line, begin, end), line, end, calls[1..])
  }

  function Total(calls: seq<nat>): nat
    decreases |calls|
  {
    if calls == [] then 0 else calls[0] + Total(calls[1..])
  }

  ghost predicate AllPositive(calls: seq<nat>) {
    forall i | 0 <= i < |calls| :: calls[i] > 0
  }

  /** Some call ends within the part of the line that is after sync. */
  ghost predicate EndsAfterSync(begin: nat, calls: seq<nat>)
    decreases |calls|
  {
    calls != [] && (END_OF_SYNC <= begin + calls[0] < END_OF_LINE || EndsAfterSync(begin + calls[0], calls[1..]))
  }

  function SingleClocks(n: nat): seq<nat> {
    seq(n, _ => 1)
  }

  lemma {:induction false} RowKept(e: Settings, s: State, n: nat)
    requires Valid(e, s) && n < END_OF_LINE - s.position % END_OF_LINE
    ensures Ticks(e, s, n).fetcher.row == s.fetcher.row && Ticks(e, s, n).position == s.position + n
  {
    WithinLine(e, s.position, n);
    if n > 0 {
      SpanIsTicks(e, s, n);
      hide Ticks;
      SpanRow(e, s, s.position / END_OF_LINE, s.position % END_OF_LINE, s.position % END_OF_LINE + n);
    }
  }

  lemma SpanRow(e: Settings, s: State, line: int, begin: int, end: int)
    requires |s.fetcher.columns| == 32 && end < END_OF_LINE
    ensures Span(e, s, line, begin, end).fetcher.row == s.fetcher.row
  {
    hide PixelLine, BlankLine, Signalled;
  }

  /** Calls that come to no more than the rest of a line each make one span of it. */
  lemma {:induction false} CallsInLine(e: Settings, s: State, levels: seq<bool>, calls: seq<nat>)
    requires Valid(e, s) && AllPositive(calls) && Total(calls) <= END_OF_LINE - s.position % END_OF_LINE
    ensures CallsPresets(e, s, levels, calls)
         == LinePresets(e, s.fetcher.row, levels, s.position / END_OF_LINE, s.position % END_OF_LINE, calls)
    decreases |calls|
  {
    hide Ticks, PresetSpan, Valid;
    if calls != [] {
      var n, begin := calls[0], s.position % END_OF_LINE;
      var now := PresetSpan(e, s.fetcher.row, levels, s.position / END_OF_LINE, begin, begin + n);
      OneSpan(e, s, levels, n);
      if calls[1..] != [] {
        assert calls[1..][0] > 0;
        ValidIs(e, s);
        RowKept(e, s, n);
        WithinLine(e, s.position, n);
        CallsInLine(e, Ticks(e, s, n), now, calls[1..]);
      }
    }
  }

  lemma ValidIs(e: Settings, s: State)
    requires Valid(e, s)
    ensures 0 <= s.position < END_OF_LINE * e.timing.EndOfField()
  {
  }

  lemma OneSpan(e: Settings, s: State, levels: seq<bool>, n: nat)
    requires Valid(e, s) && 0 < n <= END_OF_LINE - s.position % END_OF_LINE
    ensures var begin := s.position % END_OF_LINE;
            CallPresets(e, s, levels, n)
              == PresetSpan(e, s.fetcher.row, levels, s.position / END_OF_LINE, begin, begin + n)
  {
    hide Ticks, PresetSpan;
    var begin := s.position % END_OF_LINE;
    var now := PresetSpan(e, s.fetcher.row, levels, s.position / END_OF_LINE, begin, begin + n);
    assert CallPresets(e, Ticks(e, s, n), now, 0) == now;
  }

  lemma LineDone(e: Settings, s: State, n: nat)
    requires Valid(e, s) && n == END_OF_LINE - s.position % END_OF_LINE
    ensures Ticks(e, s, n).position % END_OF_LINE == 0
  {
    hide Ticks, Span, Moved, Timing.EndOfField;
    var line, begin := RestOfLine(e, s);
    MovedTo(e, Span(e, s, line, begin, END_OF_LINE), n);
  }

  /** Where a line is begun, and that to run to its end is to run its span. */
  lemma RestOfLine(e: Settings, s: State) returns (line: int, begin: int)
    requires Valid(e, s)
    ensures line == s.position / END_OF_LINE && begin == s.position % END_OF_LINE && 0 <= begin < END_OF_LINE
    ensures (s.position + (END_OF_LINE - begin)) % END_OF_LINE == 0
    ensures Ticks(e, s, END_OF_LINE - begin) == Moved(e, Span(e, s, line, begin, END_OF_LINE), END_OF_LINE - begin)
  {
    hide Ticks, Span, Moved, Timing.EndOfField;
    line, begin := s.position / END_OF_LINE, s.position % END_OF_LINE;
    EndOfLine(s.position, END_OF_LINE - begin);
    SpanIsTicks(e, s, END_OF_LINE - begin);
  }

  lemma MovedTo(e: Settings, s: State, n: int)
    ensures var t := Moved(e, s, n); t.position == 0 || t.position == s.position + n
  {
  }

  lemma EndOfLine(position: int, n: int)
    requires n == END_OF_LINE - position % END_OF_LINE
    ensures (position + n) % END_OF_LINE == 0
  {
    FloorDivides(position, END_OF_LINE);
    DivisionIsUnique(position + n, END_OF_LINE, position / END_OF_LINE + 1, 0);
  }

  /** A call that goes past the end of a line signals what two calls divided there would, so that it is only how
      each line is divided that matters. */
  lemma {:induction false} CallsDivideAtLines(e: Settings, s: State, levels: seq<bool>, a: nat, b: nat)
    requires Valid(e, s) && (s.position % END_OF_LINE + a) % END_OF_LINE == 0
    ensures CallPresets(e, s, levels, a + b) == CallsPresets(e, s, levels, [a, b])
    decreases a
  {
    hide Ticks, PresetSpan, Valid, InLine;
    TwoCalls(e, s, levels, a, b);
    if a == 0 {
      NoTicks(e, s);
    } else {
      var n, begin := InLine(s.position, a), s.position % END_OF_LINE;
      ToLineEnd(s.position, a, b);
      LineDone(e, s, n);
      var now := PresetSpan(e, s.fetcher.row, levels, s.position / END_OF_LINE, begin, begin + n);
      var t := Ticks(e, s, n);
      TicksAdd(e, s, n, a - n);
      CallsDivideAtLines(e, t, now, a - n, b);
      TwoCalls(e, t, now, a - n, b);
    }
  }

  lemma ToLineEnd(position: int, a: nat, b: nat)
    requires (position % END_OF_LINE + a) % END_OF_LINE == 0 && a > 0
    ensures var n := InLine(position, a);
            && n == InLine(position, a + b) == END_OF_LINE - position % END_OF_LINE && (a - n) % END_OF_LINE == 0
  {
  }

  lemma TwoCalls(e: Settings, s: State, levels: seq<bool>, a: nat, b: nat)
    requires Valid(e, s)
    ensures CallsPresets(e, s, levels, [a, b]) == CallPresets(e, Ticks(e, s, a), CallPresets(e, s, levels, a), b)
  {
    hide Ticks, CallPresets, Valid;
    var t, now := Ticks(e, s, a), CallPresets(e, s, levels, a);
    assert [a, b][1..] == [b] && [b][1..] == [];
    assert CallsPresets(e, t, now, [b]) == CallsPresets(e, Ticks(e, t, b), CallPresets(e, t, now, b), []);
  }

  /** Part of a line of another row: only its very end can signal anything. */
  lemma {:induction false} OtherRow(e: Settings, row: int, levels: seq<bool>, line: int, begin: nat, calls: seq<nat>)
    requires 0 < row < 16 && line < 192 && AllPositive(calls) && calls != [] && begin + Total(calls) == END_OF_LINE
    ensures LinePresets(e, row, levels, line, begin, calls)
         == if RowAfter(e, row, END_OF_LINE) == 0 then Settle(levels, false) else levels
    decreases |calls|
  {
    if calls[1..] != [] {
      assert calls[1..][0] > 0;
      OtherRow(e, row, levels, line, begin + calls[0], calls[1..]);
    }
  }

  /** The rest of a line of row 0, once begun. */
  lemma {:induction false} FirstRow(e: Settings, levels: seq<bool>, line: int, begin: nat, calls: seq<nat>)
    requires line < 192 && AllPositive(calls) && calls != [] && begin + Total(calls) == END_OF_LINE
    requires begin == 0 || (levels != [] && (levels[|levels| - 1] || begin >= END_OF_SYNC))
    ensures var begun := if begin == 0 then Settle(levels, true) else levels;
            LinePresets(e, 0, levels, line, begin, calls)
              == if e.targetRow == 1 || EndsAfterSync(begin, calls) then Settle(begun, false) else begun
    decreases |calls|
  {
    var end := begin + calls[0];
    var now := PresetSpan(e, 0, levels, line, begin, end);
    if calls[1..] != [] {
      assert calls[1..][0] > 0;
      FirstRow(e, now, line, end, calls[1..]);
    } else {
      assert Total(calls[1..]) == 0;
      assert LinePresets(e, 0, now, line, end, calls[1..]) == now;
    }
  }

  lemma {:induction false} SinglesEnd(n: nat)
    ensures AllPositive(SingleClocks(n)) && Total(SingleClocks(n)) == n
    ensures n > 1 && n <= END_OF_LINE ==> EndsAfterSync(END_OF_LINE - n, SingleClocks(n))
    decreases n
  {
    if n > 0 {
      assert SingleClocks(n)[1..] == SingleClocks(n - 1);
      SinglesEnd(n - 1);
    }
  }

  /** What is signalled of a line's preset is what single clocks would, exactly if its row is not the first, or
      rows are single, or some call ends between the end of sync and the last clock of the line. */
  lemma PresetsAgree(e: Settings, s: State, levels: seq<bool>, calls: seq<nat>)
    requires Valid(e, s) && s.position % END_OF_LINE == 0 && s.position / END_OF_LINE < 192 && 0 <= s.fetcher.row < 16
    requires AllPositive(calls) && Total(calls) == END_OF_LINE
    ensures CallsPresets(e, s, levels, calls) == CallsPresets(e, s, levels, SingleClocks(END_OF_LINE))
            <==> s.fetcher.row != 0 || e.targetRow == 1 || EndsAfterSync(0, calls)
  {
    hide CallsPresets, LinePresets, EndsAfterSync, Total, AllPositive, Valid, Settle, RowAfter, SingleClocks;
    var line, row, clocks := s.position / END_OF_LINE, s.fetcher.row, SingleClocks(END_OF_LINE);
    SinglesEnd(END_OF_LINE);
    NotNone(calls);
    NotNone(clocks);
    CallsInLine(e, s, levels, calls);
    CallsInLine(e, s, levels, clocks);
    if row == 0 {
      FirstRow(e, levels, line, 0, calls);
      FirstRow(e, levels, line, 0, clocks);
      OnAndOff(levels);
    } else {
      OtherRow(e, row, levels, line, 0, calls);
      OtherRow(e, row, levels, line, 0, clocks);
    }
  }

  lemma NotNone(calls: seq<nat>)
    requires Total(calls) > 0
    ensures calls != []
  {
  }

  lemma OnAndOff(levels: seq<bool>)
    ensures var on := Settle(levels, true); Settle(on, false) != on
  {
  }

  /** So a line of the first of several rows, in one call, never ends its preset. */
  lemma PresetNotEnded(e: Settings, s: State, levels: seq<bool>)
    requires Valid(e, s) && s.position % END_OF_LINE == 0 && s.position / END_OF_LINE < 192 && s.fetcher.row == 0
    requires e.targetRow != 1
    ensures CallPresets(e, s, levels, END_OF_LINE) == Settle(levels, true)
    ensures CallsPresets(e, s, levels, SingleClocks(END_OF_LINE)) == Settle(Settle(levels, true), false)
  {
    hide CallsPresets, CallPresets, LinePresets, EndsAfterSync, Total, AllPositive, Valid, Settle;
    hide PresetSpan, SingleClocks;
    var line, clocks := s.position / END_OF_LINE, SingleClocks(END_OF_LINE);
    OneSpan(e, s, levels, END_OF_LINE);
    WholeSpan(e, levels, line);
    SinglesEnd(END_OF_LINE);
    NotNone(clocks);
    CallsInLine(e, s, levels, clocks);
    FirstRow(e, levels, line, 0, clocks);
  }

  lemma WholeSpan(e: Settings, levels: seq<bool>, line: int)
    requires line < 192 && e.targetRow != 1
    ensures PresetSpan(e, 0, levels, line, 0, END_OF_LINE) == Settle(levels, true)
  {
    hide Settle;
  }

  // The chip.

  class MC6847 {
    var position: int
    var address: Address
    var row: int
    const columns: array<Column>
    var fetches: seq<Fetch>
    var cells: seq<Cell>
    var sent: seq<Output>
    var signals: seq<Signal>

    function Fetching(): Fetcher
      reads this, columns
    {
      Fetcher(address, row, columns[..], fetches)
    }

    function Showing(): Picture
      reads this
    {
      Picture(cells, Merged(sent))
    }

    function Snapshot(): State
      reads this, columns
    {
      State(position, Fetching(), Showing(), Settled(signals))
    }

    constructor ()
      ensures fresh(columns) && columns.Length == 32 && position == 2 && address == 0 && row == 0
      ensures fetches == [] && cells == [] && sent == [] && signals == []
      ensures forall e: Settings :: Valid(e, Snapshot())
    {
      columns := new Column[32](_ => Column(0, 0));
      position, address, row, fetches, cells, sent, signals := 2, 0, 0, [], [], [], [];
    }

    /** Runs for some clocks. Whatever the count, the outcome is that of so many single clocks, but for the row
        preset, which is signalled as for each line's part of the call. */
    method RunFor(e: Settings, count: nat)
      requires Valid(e, Snapshot())
      modifies this, columns
      ensures Valid(e, Snapshot()) && Snapshot() == Ticks(e, old(Snapshot()), count)
      ensures Presets(signals) == CallPresets(e, old(Snapshot()), old(Presets(signals)), count)
    {
      hide Ticks, Span, Moved, PresetSpan;
      ghost var start := Snapshot();
      var left := count;
      NoTicks(e, start);
      while left > 0
        invariant 0 <= left <= count && Valid(e, Snapshot())
        invariant Snapshot() == Ticks(e, start, count - left)
        invariant CallPresets(e, Snapshot(), Presets(signals), left)
               == CallPresets(e, start, old(Presets(signals)), count)
      {
        ghost var was, done := Snapshot(), count - left;
        var segment, begin := position / END_OF_LINE, position % END_OF_LINE;
        var length := if END_OF_LINE - begin < left then END_OF_LINE - begin else left;
        LineSpan(e, segment, begin, begin + length);
        SpanIsTicks(e, was, length);
        TicksAdd(e, start, done, length);
        left := left - length;
        Move(e, length);
      }
    }

    method Move(e: Settings, length: int)
      modifies `position, `address, `row
      ensures Snapshot() == Moved(e, old(Snapshot()), length)
    {
      hide Merged;
      position := position + length;
      if position == END_OF_LINE * e.timing.EndOfField() {
        position := 0;
        // The vertical preload.
        row, address := 0, 0;
      }
    }

    method LineSpan(e: Settings, line: int, begin: int, end: int)
      requires columns.Length == 32 && 0 <= begin < end <= END_OF_LINE
      modifies `address, `row, `fetches, `cells, `sent, `signals, columns
      ensures Snapshot() == Span(e, old(Snapshot()), line, begin, end)
      ensures Presets(signals) == PresetSpan(e, old(row), old(Presets(signals)), line, begin, end)
    {
      hide Merged, Fetched, PassedOver, PixelLine, BlankLine, Settle, Settled, Presets, LineStarted;
      SignalStart(e, line, begin);
      if line < 192 {
        PixelLineSpan(e, begin, end);
        if end >= END_OF_SYNC && row == 0 {
          Tell(RowPreset(false));
        }
      } else {
        BlankSpan(e, line, begin, end);
      }
      if end >= END_OF_SYNC {
        Tell(Hsync(false));
      }
    }

    method PixelLineSpan(e: Settings, begin: int, end: int)
      requires columns.Length == 32 && 0 <= begin < end <= END_OF_LINE
      modifies `address, `row, `fetches, `cells, `sent, columns
      ensures var f := PassedOver(Fetched(e, old(Fetching()), begin, end), begin, end);
              && Fetching() == (if end == END_OF_LINE then LineEnded(e, f) else f)
              && Showing() == PixelLine(e, f.columns, f.row, old(Showing()), begin, end)
    {
      hide Merged, Fetched, PassedOver, PixelLine, LineEnded;
      FetchRange(e, begin, end);
      PassRange(begin, end);
      PixelSpan(e, begin, end);
      if end == END_OF_LINE {
        ApplyHsync(e);
      }
    }

    method Tell(x: Signal)
      modifies `signals
      ensures Settled(signals) == if x.RowPreset? then old(Settled(signals)) else Settle(old(Settled(signals)), x)
      ensures Presets(signals) == if x.RowPreset? then Settle(old(Presets(signals)), x.on) else old(Presets(signals))
    {
      SignalAppend(signals, x);
      hide Settled, Presets, Settle;
      signals := signals + [x];
    }

    /** What is signalled at the first clock of a line. */
    method SignalStart(e: Settings, line: int, begin: int)
      modifies `signals
      ensures Settled(signals) ==
              if begin == 0 then LineStarted(e.timing, old(Settled(signals)), line) else old(Settled(signals))
      ensures Presets(signals) ==
              if begin == 0 && line < 192 && row == 0 then Settle(old(Presets(signals)), true)
              else old(Presets(signals))
    {
      hide Settled, Presets, Settle;
      if begin == 0 {
        Tell(Hsync(true));
        if line < 192 && row == 0 {
          Tell(RowPreset(true));
        }
        if line == 192 {
          Tell(FieldSync(true));
        } else if line == e.timing.EndOfSync() {
          Tell(FieldSync(false));
        }
      }
    }

    /** The fetches of those columns that end within a span. */
    method FetchRange(e: Settings, begin: int, end: int)
      requires columns.Length == 32 && 0 <= begin < end <= END_OF_LINE
      modifies `address, `fetches, columns
      ensures Fetching() == Fetched(e, old(Fetching()), begin, end)
    {
      var x, y := Max(begin, END_OF_LEFT_BORDER), Min(end, END_OF_PIXELS);
      if y > x {
        ColumnsOrdered(x, y);
        ColumnsAdvance(x);
        ColumnsOrdered(y, END_OF_PIXELS);
        ghost var was := Fetching();
        var c := ColumnAt(x);
        NothingFetched(e, was, ColumnAt(x));
        while c < ColumnAt(y)
          invariant ColumnAt(x) <= c <= ColumnAt(y) <= 32
          invariant Fetching() == FetchColumns(e, was, ColumnAt(x), c)
        {
          FetchColumn(e, c);
          c := c + 1;
        }
      }
    }

    method FetchColumn(e: Settings, c: int)
      requires columns.Length == 32 && 0 <= c < 32
      modifies `address, `fetches, columns
      ensures Fetching() == FetchOne(e, old(Fetching()), c)
    {
      var data := e.memory(address);
      columns[c] := Column(data, e.mapper(data, e.mode));
      fetches := fetches + [Fetch(c, address)];
      address := (address as int + (if e.wide then 1 else c % 2)) % 65536;
    }

    method PassRange(begin: int, end: int)
      requires columns.Length == 32
      modifies `fetches
      ensures Fetching() == PassedOver(old(Fetching()), begin, end)
    {
      var x, y := Max(begin, END_OF_PIXELS), Min(end, END_OF_LINE);
      if y > x {
        ColumnsOrdered(x, y);
        ghost var was := Fetching();
        var c := ColumnAt(x);
        while c < ColumnAt(y)
          invariant ColumnAt(x) <= c <= ColumnAt(y)
          invariant Fetching() == PassOver(was, ColumnAt(x), c)
        {
          fetches := fetches + [Fetch(c, (address as int + c) % 65536)];
          c := c + 1;
        }
      }
    }

    method ApplyHsync(e: Settings)
      modifies `row, `address
      ensures Fetching() == LineEnded(e, old(Fetching()))
    {
      row := (row + 1) % 16;
      if row == e.targetRow {
        row := 0;
      } else {
        address := (address as int - 1) % 65536;
      }
      address := address - address % Width(e);
    }

    method PixelSpan(e: Settings, begin: int, end: int)
      requires columns.Length == 32 && 0 <= begin < end <= END_OF_LINE
      modifies `cells, `sent
      ensures Showing() == PixelLine(e, columns[..], row, old(Showing()), begin, end)
    {
      hide Merged, SyncAndBurst, Border, Drawn, DataSent;
      SendSyncAndBurst(begin, end);
      SendBorder(e, begin, end, END_OF_BURST, END_OF_LEFT_BORDER);
      DrawRange(begin, end);
      SendData(begin, end);
      SendBorder(e, begin, end, END_OF_PIXELS, END_OF_LINE);
    }

    method BlankSpan(e: Settings, line: int, begin: int, end: int)
      modifies `sent
      ensures Showing() == BlankLine(e, old(Showing()), line, begin, end)
    {
      hide Merged, SyncAndBurst, Border, PorchLine, SyncLine;
      var t := e.timing;
      if line < t.EndOfBottomBorder() || line >= t.EndOfBackPorch() {
        SendSyncAndBurst(begin, end);
        SendBorder(e, begin, end, END_OF_BURST, END_OF_LINE);
      } else if line < t.EndOfFrontPorch() || line >= t.EndOfSync() {
        SendPorch(end);
      } else {
        SendSync(end);
      }
    }

    method Send(x: Output)
      modifies `sent
      ensures Showing() == old(Showing()).(sent := Emit(old(Showing()).sent, x))
    {
      MergedAppend(sent, x);
      hide Merged, Emit;
      sent := sent + [x];
    }

    method SendSyncAndBurst(begin: int, end: int)
      modifies `sent
      ensures Showing() == SyncAndBurst(old(Showing()), begin, end)
    {
      hide Merged, Emit;
      if begin <= END_OF_BURST && end > END_OF_BURST {
        Send(Sync(END_OF_SYNC));
        Send(Burst(END_OF_BURST - END_OF_SYNC));
      }
    }

    method SendBorder(e: Settings, begin: int, end: int, first: int, limit: int)
      modifies `sent
      ensures Showing() == Border(e, old(Showing()), begin, end, first, limit)
    {
      hide Merged, Emit;
      var x, y := Max(begin, first), Min(end, limit);
      if y > x {
        Send(Level(e.border, y - x));
      }
    }

    method SendPorch(end: int)
      modifies `sent
      ensures Showing() == PorchLine(old(Showing()), end)
    {
      hide Merged, Emit;
      if end == END_OF_LINE {
        Send(Sync(END_OF_SYNC));
        Send(Blank(END_OF_LINE - END_OF_SYNC));
      }
    }

    method SendSync(end: int)
      modifies `sent
      ensures Showing() == SyncLine(old(Showing()), end)
    {
      hide Merged, Emit;
      if end == END_OF_LINE {
        Send(Sync(END_OF_LINE));
      }
    }

    method SendData(begin: int, end: int)
      modifies `sent
      ensures Showing() == DataSent(old(Showing()), begin, end)
    {
      hide Merged, Emit;
      if begin <= END_OF_PIXELS && end > END_OF_PIXELS {
        Send(Data(cells));
      }
    }

    /** Draws those columns that end within a span, into a buffer begun where the pixels begin. */
    method DrawRange(begin: int, end: int)
      requires columns.Length == 32 && 0 <= begin < end <= END_OF_LINE
      modifies `cells
      ensures Showing() == Drawn(columns[..], row, old(Showing()), begin, end)
    {
      hide Merged, ColumnAt;
      if begin <= END_OF_LEFT_BORDER && end > END_OF_LEFT_BORDER {
        cells := [];
      }
      var x, y := Max(begin, END_OF_LEFT_BORDER), Min(end, END_OF_PIXELS);
      if y > x {
        ColumnsOrdered(x, y);
        ColumnsAdvance(x);
        ColumnsOrdered(y, END_OF_PIXELS);
        DrawOn(ColumnAt(x), ColumnAt(y));
      }
    }

    method DrawOn(first: int, limit: int)
      requires columns.Length == 32 && 0 <= first <= limit <= 32
      modifies `cells
      ensures cells == DrawColumns(columns[..], row, old(cells), first, limit)
    {
      hide CellAt;
      ghost var was := cells;
      var c := first;
      DrawnOnwards(columns[..], row, was, first, first, first);
      while c < limit
        invariant first <= c <= limit
        invariant cells == DrawColumns(columns[..], row, was, first, c)
      {
        DrawColumn(c);
        c := c + 1;
      }
    }

    method DrawColumn(c: int)
      requires columns.Length == 32 && 0 <= c < 32
      modifies `cells
      ensures cells == old(cells) + [CellAt(columns[..], row, c)]
    {
      var mode := columns[c].mode;
      SourceWithin(c, mode);
      cells := cells + [Cell(columns[Source(c, mode)].data, mode, row)];
    }
  }

  lemma NoTicks(e: Settings, s: State)
    requires Valid(e, s)
    ensures Ticks(e, s, 0) == s
  {
  }
}
