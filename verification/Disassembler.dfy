/** Recursive disassembly of an M50740 image: a linear sweep from each known entry point, with the branch
    and jump targets met on the way becoming further entry points. */
module Disassembler {
  import opened M50740Decoder

  type Address = x: int | 0 <= x < 65536

  /** One past the greatest program counter; entry points are reduced to below it before a sweep. */
  const ADDRESS_SPACE := 0x2000

  /** What is disassembled: the words of memory from a location, and whatever the bytes on either side of the
      caller's array are, since the code does not always stay within it. */
  datatype Image = Image(opcodes: Opcodes, memory: seq<Byte>, location: Address, outside: int -> Byte) {

    /** The closing bound is one past the last word, in 16 bits, and yet inclusive. */
    function Bound(): nat {
      (location + |memory|) % 65536
    }

    function ByteAt(a: int): Byte {
      if location <= a < location + |memory| then memory[a - location] else outside(a)
    }

    /** The bytes up to the bound, indexed by address, as the code does by subtracting the location from the
        caller's pointer. */
    function View(): (v: seq<Byte>)
      ensures |v| == Bound() + 1
    {
      seq(Bound() + 1, a requires 0 <= a <= Bound() => ByteAt(a))
    }
  }

  /** Branches have a relative operand, and undefined opcodes none, as in the source's opcode table. */
  ghost predicate Regular(opcodes: Opcodes) {
    forall b: Byte :: (IsBranch(opcodes(b).operation) ==> opcodes(b).mode.Relative?)
                      && (opcodes(b).operation.Invalid? ==> opcodes(b).mode.Implied?)
  }

  predicate IsBranch(o: Operation) {
    o.BRA? || o.BCC? || o.BCS? || o.BVC? || o.BVS? || o.BMI? || o.BPL? || o.BNE? || o.BEQ?
  }

  /** The bound is not the very top of the address space, so that no sweep can wrap around. */
  ghost predicate Usable(m: Image) {
    Regular(m.opcodes) && |m.memory| < 65536 && m.Bound() < 65535
  }

  // The specification.

  function At(m: Image, a: int): (d: Decoding)
    requires 0 <= a
    ensures d.Complete? ==> d.length >= 1
  {
    if a > m.Bound() then Incomplete(0) else Decode(m.opcodes, m.View()[a..])
  }

  function Signed(b: Byte): int {
    if b < 128 then b else b - 256
  }

  function Word(low: Byte, high: Byte): Address {
    low as int + 256 * high as int
  }

  /** The address an instruction names as somewhere execution might continue, if it is known statically. */
  function Target(m: Image, a: int, i: Instruction): (t: set<Address>)
    requires Usable(m) && 0 <= a && At(m, a).Complete? && i == At(m, a).instruction
  {
    Operands(m, a);
    if (i.operation.JMP? || i.operation.JSR?) && i.mode.Absolute? then {Word(m.ByteAt(a + 1), m.ByteAt(a + 2))}
    else if i.operation.JSR? && i.mode.SpecialPage? then {Word(m.ByteAt(a + 1), 0x1f)}
    else if IsBranch(i.operation) || ((i.operation.BBS? || i.operation.BBC?) && i.mode.AccumulatorRelative?) then
      {(a + 2 + Signed(m.ByteAt(a + 1))) % 65536}
    else if (i.operation.BBS? || i.operation.BBC?) && i.mode.ZeroPageRelative? then
      {(a + 3 + Signed(m.ByteAt(a + 2))) % 65536}
    else {}
  }

  /** A defined instruction's operands lie within the bound. */
  lemma Operands(m: Image, a: int)
    requires Usable(m) && 0 <= a && At(m, a).Complete?
    ensures a + At(m, a).length <= m.Bound() + 1
    ensures var i := At(m, a).instruction;
            !i.operation.Invalid? ==> a + Size(i.mode) <= m.Bound() && (IsBranch(i.operation) ==> i.mode.Relative?)
  {
  }

  predicate Ends(o: Operation) {
    o.RTS? || o.RTI? || o.BRK? || o.JMP? || o.BRA?
  }

  /** There is a complete instruction at each of some addresses. */
  ghost predicate AllComplete(m: Image, s: seq<Address>)
    requires Usable(m)
  {
    forall a | a in s :: At(m, a).Complete?
  }

  /** The addresses of the instructions met in order from a start, up to one that always goes elsewhere. */
  function Sweep(m: Image, start: int): (s: seq<Address>)
    requires Usable(m) && 0 <= start
    ensures AllComplete(m, s)
    decreases m.Bound() + 1 - start
  {
    match At(m, start)
    case Incomplete(_) => []
    case Complete(length, i) => [start] + if Ends(i.operation) then [] else Sweep(m, start + length)
  }

  // The addresses that are read.

  /** Which of an instruction's operand bytes are looked at for its target. */
  function TargetOperands(i: Instruction): (offsets: set<nat>)
    ensures offsets <= {1, 2}
  {
    var o, mode := i.operation, i.mode;
    if (o.JMP? || o.JSR?) && mode.Absolute? then {1, 2}
    else if o.JSR? && mode.SpecialPage? then {1}
    else if IsBranch(o) || ((o.BBS? || o.BBC?) && mode.AccumulatorRelative?) then {1}
    else if (o.BBS? || o.BBC?) && mode.ZeroPageRelative? then {2}
    else {}
  }

  /** And which for the address it accesses, if that is fixed and it does not end the sweep first. */
  function AccessOperands(i: Instruction): (offsets: set<nat>)
    ensures offsets <= {1, 2}
  {
    if Ends(i.operation) then {}
    else if i.mode.Absolute? then {1, 2}
    else if i.mode.ZeroPage? || i.mode.ZeroPageRelative? then {1}
    else if i.mode.ImmediateZeroPage? then {2}
    else {}
  }

  function OperandsRead(i: Instruction): (offsets: set<nat>)
    ensures offsets <= {1, 2}
  {
    TargetOperands(i) + AccessOperands(i)
  }

  function Offset(a: int, offsets: set<nat>): set<int> {
    set n | n in offsets :: a + n
  }

  /** At each address a sweep comes to it reads an opcode, and, of an instruction that is complete, operands. */
  function ReadsAt(m: Image, a: int): set<int>
    requires 0 <= a
  {
    if a > m.Bound() then {}
    else if At(m, a).Incomplete? then {a}
    else {a} + Offset(a, OperandsRead(At(m, a).instruction))
  }

  /** Where a sweep reads opcodes: at its instructions, and where it stops for want of bytes. */
  function Visited(m: Image, start: int): (s: seq<Address>)
    requires Usable(m) && 0 <= start
    ensures forall a | a in s :: start <= a <= m.Bound()
    decreases m.Bound() + 1 - start
  {
    if start > m.Bound() then []
    else
      match At(m, start)
      case Incomplete(_) => [start]
      case Complete(length, i) => [start] + if Ends(i.operation) then [] else Visited(m, start + length)
  }

  ghost function ReadsOf(m: Image, s: seq<Address>): set<int> {
    set a, x | a in s && x in ReadsAt(m, a) :: x
  }

  /** What is read in the sweep from an entry point. */
  ghost function ReadsFrom(m: Image, entry: Address): set<int>
    requires Usable(m)
  {
    if entry < m.location then {} else ReadsOf(m, Visited(m, entry % ADDRESS_SPACE))
  }

  ghost function AllReads(m: Image, entries: set<Address>): set<int>
    requires Usable(m)
  {
    set e, x | e in entries && x in ReadsFrom(m, e) :: x
  }

  /** The targets named by some instructions. */
  ghost function TargetsOf(m: Image, s: seq<Address>): set<Address>
    requires Usable(m) && AllComplete(m, s)
  {
    set a, t | a in s && t in Target(m, a, At(m, a).instruction) :: t
  }

  /** The addresses of the code swept from an entry point; nothing is swept from one below the location. */
  function SweepFrom(m: Image, entry: Address): (s: seq<Address>)
    requires Usable(m)
    ensures AllComplete(m, s)
  {
    if entry < m.location then [] else Sweep(m, entry % ADDRESS_SPACE)
  }

  /** The statically known targets in the code swept from an entry point. */
  ghost function Targets(m: Image, entry: Address): set<Address>
    requires Usable(m)
  {
    TargetsOf(m, SweepFrom(m, entry))
  }

  /** A set of entry points with the start, and with every target found from it that is not already known. */
  ghost predicate Closed(m: Image, start: Address, known: set<Address>, s: set<Address>)
    requires Usable(m)
  {
    start in s && forall e | e in s :: Targets(m, e) <= s + known
  }

  const ADDRESSES: set<Address> := set a: Address | 0 <= a < 65536

  /** The least such set. */
  ghost function Found(m: Image, start: Address, known: set<Address>): set<Address>
    requires Usable(m)
  {
    set a | a in ADDRESSES && forall s: set<Address> | Closed(m, start, known, s) :: a in s
  }

  lemma FoundIsLeast(m: Image, start: Address, known: set<Address>)
    requires Usable(m)
    ensures Closed(m, start, known, Found(m, start, known))
    ensures forall s: set<Address> | Closed(m, start, known, s) :: Found(m, start, known) <= s
  {
    hide Targets;
    var found := Found(m, start, known);
    assert start in ADDRESSES;
    assert start in found;
    forall e, t | e in found && t in Targets(m, e) && t !in known ensures t in found {
      forall s: set<Address> | Closed(m, start, known, s) ensures t in s {
        assert e in s;
      }
    }
  }

  /** The targets from each of some entry points are all among others. */
  ghost predicate AllLead(m: Image, from: set<Address>, to: set<Address>)
    requires Usable(m)
  {
    forall e | e in from :: Targets(m, e) <= to
  }

  lemma LeadAlso(m: Image, from: set<Address>, next: Address, before: set<Address>, to: set<Address>)
    requires Usable(m) && AllLead(m, from, before) && before <= to && Targets(m, next) <= to
    ensures AllLead(m, from + {next}, to)
  {
  }

  lemma StartFound(m: Image, start: Address, known: set<Address>)
    requires Usable(m)
    ensures start in Found(m, start, known) && AllLead(m, {}, known + {start})
  {
    FoundIsLeast(m, start, known);
  }

  lemma FoundBeyond(m: Image, start: Address, known: set<Address>, e: Address)
    requires Usable(m) && e in Found(m, start, known)
    ensures Targets(m, e) <= Found(m, start, known) + known
  {
    FoundIsLeast(m, start, known);
  }

  lemma FoundExactly(m: Image, start: Address, known: set<Address>, done: set<Address>)
    requires Usable(m) && start in done && done <= Found(m, start, known) && AllLead(m, done, known + done)
    ensures done == Found(m, start, known)
  {
    FoundIsLeast(m, start, known);
    assert Closed(m, start, known, done);
  }

  /** What is swept from some entry points, and what is recorded of it. */
  ghost function Swept(m: Image, entries: set<Address>): (s: set<Address>)
    requires Usable(m)
    ensures forall a | a in s :: At(m, a).Complete?
  {
    set e, a | e in entries && a in SweepFrom(m, e) :: a
  }

  ghost function Listing(m: Image, s: set<Address>): map<Address, Instruction>
    requires Usable(m) && forall a | a in s :: At(m, a).Complete?
  {
    map a | a in s :: At(m, a).instruction
  }

  ghost function Elements(s: seq<Address>): set<Address> {
    set a | a in s
  }

  class Disassembler {
    var instructions: map<Address, Instruction>
    var entryPoints: set<Address>
    var pending: seq<Address>

    /** Every address that has been read. */
    ghost var touched: set<int>

    ghost function Snapshot(): Knowledge
      reads this
    {
      Knowledge(instructions, entryPoints, pending)
    }

    constructor ()
      ensures instructions == map[] && entryPoints == {} && pending == [] && touched == {}
    {
      instructions, entryPoints, pending, touched := map[], {}, [], {};
    }

    method AnnounceInstruction(address: Address, instruction: Instruction)
      modifies `instructions
      ensures instructions == old(instructions)[address := instruction]
    {
      instructions := instructions[address := instruction];
    }

    method AddEntry(address: Address) returns (ghost newly: seq<Address>)
      modifies `entryPoints, `pending
      ensures entryPoints == old(entryPoints) + {address}
      ensures newly == if address in old(entryPoints) then [] else [address]
      ensures pending == old(pending) + newly
      ensures Added(old(entryPoints), {address}, entryPoints, newly)
    {
      newly := if address in entryPoints then [] else [address];
      if address !in entryPoints {
        pending := pending + [address];
        entryPoints := entryPoints + {address};
      }
    }

    /** Disassembles memory, of a length in words and at a location, from a start address: what is added to the
        entry points is exactly the least set closed under the targets in the code they lead to, what is recorded
        is exactly that code, and what is read is exactly what sweeps from those entry points read. */
    method Disassemble(opcodes: Opcodes, memory: seq<Byte>, outside: int -> Byte, location: Address, length: Address,
                       start: Address)
      requires length == |memory| && Usable(Image(opcodes, memory, location, outside)) && pending == []
      modifies this
      ensures var m := Image(opcodes, memory, location, outside);
              var found := Found(m, start, old(entryPoints));
              && pending == []
              && entryPoints == old(entryPoints) + found
              && instructions == old(instructions) + Listing(m, Swept(m, found))
              && touched == old(touched) + AllReads(m, found)
    {
      var m := Image(opcodes, memory, location, outside);
      ghost var run := Run(m, start, entryPoints, instructions);
      ghost var done: set<Address> := {};
      Begun(run, Knowledge(instructions, entryPoints + {start}, pending + [start]));
      NothingRead(m);
      hide Found, Swept, Listing, Usable, Underway, Unseen, AllReads, ReadsFrom;
      pending := pending + [start];
      entryPoints := entryPoints + {start};
      while pending != []
        invariant Underway(run, done, Snapshot())
        invariant Usable(m) && touched == old(touched) + AllReads(m, done)
        decreases Unseen(entryPoints), |pending|
      {
        ghost var next := SweepNext(run, done, m);
        ReadAlso(m, done, next);
        done := done + {next};
      }
      Finished(run, done, Snapshot());
    }

    /** Sweeps from the first of the pending entry points. */
    method SweepNext(ghost run: Run, ghost done: set<Address>, m: Image) returns (ghost swept: Address)
      requires run.image == m && Usable(m) && pending != [] && Underway(run, done, Snapshot())
      modifies this
      ensures Underway(run, done + {swept}, Snapshot())
      ensures touched == old(touched) + ReadsFrom(m, swept)
      ensures || Unseen(entryPoints) < Unseen(old(entryPoints))
              || (Unseen(entryPoints) == Unseen(old(entryPoints)) && |pending| < |old(pending)|)
    {
      hide Usable, Underway, Unseen, AllReads, Grown, Sweep, SweepFrom, ReadsFrom, ReadsOf, Visited;
      ghost var was := Snapshot();
      var next := pending[0];
      pending := pending[1..];
      swept := next;
      EntryIs(m, next);
      if next >= m.location {
        Parse(this, m, next % ADDRESS_SPACE);
      } else {
        NothingGrown(m, Snapshot());
      }
      Advanced(run, done, was, Snapshot());
    }
  }

  /** A disassembly: the image and start, and the entry points and instructions there were at its outset. */
  datatype Run = Run(image: Image, start: Address, known: set<Address>, recorded: map<Address, Instruction>)

  /** The state of a disassembly when some entry points have been swept. */
  ghost predicate Underway(r: Run, done: set<Address>, k: Knowledge) {
    Usable(r.image) && Queued(r, done, k) && k.instructions == r.recorded + Listing(r.image, Swept(r.image, done))
  }

  /** Every entry point found so far has been swept or is pending, and none was found in error. */
  ghost predicate Queued(r: Run, done: set<Address>, k: Knowledge)
    requires Usable(r.image)
  {
    && r.start in done + Elements(k.pending)
    && done + Elements(k.pending) <= Found(r.image, r.start, r.known)
    && k.entryPoints == r.known + done + Elements(k.pending)
    && AllLead(r.image, done, k.entryPoints)
  }

  lemma Begun(r: Run, k: Knowledge)
    requires Usable(r.image) && k == Knowledge(r.recorded, r.known + {r.start}, [r.start])
    ensures Underway(r, {}, k)
  {
    FoundIsLeast(r.image, r.start, r.known);
    hide Found, Closed, Targets, Usable;
    assert Elements([r.start]) == {r.start};
    assert r.start in Found(r.image, r.start, r.known) by {
      StartFound(r.image, r.start, r.known);
    }
    assert Listing(r.image, Swept(r.image, {})) == map[];
  }

  /** Sweeping the next entry point keeps the disassembly's invariant, and either finds a new entry point
      or leaves fewer pending. */
  lemma Advanced(r: Run, done: set<Address>, was: Knowledge, now: Knowledge)
    requires Underway(r, done, was) && was.pending != []
    requires Grown(r.image, was.(pending := was.pending[1..]), SweepFrom(r.image, was.pending[0]), now)
    ensures Underway(r, done + {was.pending[0]}, now)
    ensures || Unseen(now.entryPoints) < Unseen(was.entryPoints)
            || (Unseen(now.entryPoints) == Unseen(was.entryPoints) && |now.pending| < |was.pending|)
  {
    var m, next, rest := r.image, was.pending[0], was.pending[1..];
    TargetsAre(m, next);
    QueueAdvanced(r, done, next, rest, was, now);
    ListedAlso(m, done, next, r.recorded);
    FewerUnseen(was.entryPoints, now.entryPoints);
    hide Queued, Usable, Swept, Listing, Unseen, SweepFrom;
  }

  lemma QueueAdvanced(r: Run, done: set<Address>, next: Address, rest: seq<Address>, was: Knowledge, now: Knowledge)
    requires Usable(r.image) && Queued(r, done, was) && was.pending == [next] + rest
    requires |now.pending| >= |rest| && now.pending[..|rest|] == rest
    requires Added(was.entryPoints, Targets(r.image, next), now.entryPoints, now.pending[|rest|..])
    ensures Queued(r, done + {next}, now)
    ensures was.entryPoints <= now.entryPoints && (was.entryPoints == now.entryPoints ==> now.pending == rest)
  {
    var m, added := r.image, now.pending[|rest|..];
    hide Found, Closed, Targets, Usable, AllLead, Elements, Added;
    assert now.pending == rest + added;
    QueueAdvances(next, rest, added, was.entryPoints, Targets(m, next), now.entryPoints);
    FoundBeyond(m, r.start, r.known, next);
    LeadAlso(m, done, next, was.entryPoints, now.entryPoints);
    EntriesAdvance(r, done, next, Elements(rest), Targets(m, next), was.entryPoints, Found(m, r.start, r.known));
  }

  lemma EntriesAdvance(r: Run, done: set<Address>, next: Address, rest: set<Address>, targets: set<Address>,
                       entries: set<Address>, found: set<Address>)
    requires r.start in done + ({next} + rest) && done + ({next} + rest) <= found
    requires entries == r.known + done + ({next} + rest) && targets <= found + r.known
    ensures var now, also := rest + (targets - entries), done + {next};
            r.start in also + now && also + now <= found && entries + targets == r.known + also + now
  {
  }

  /** The addresses that are not yet entry points. */
  ghost function Unseen(entries: set<Address>): set<Address> {
    ADDRESSES - entries
  }

  lemma FewerUnseen(was: set<Address>, now: set<Address>)
    requires was <= now
    ensures Unseen(now) < Unseen(was) || (was == now && Unseen(now) == Unseen(was))
  {
    if was != now {
      var a :| a in now && a !in was;
      assert a in ADDRESSES;
    }
  }

  lemma TargetsAre(m: Image, e: Address)
    requires Usable(m)
    ensures Targets(m, e) == TargetsOf(m, SweepFrom(m, e))
  {
  }

  lemma Finished(r: Run, done: set<Address>, k: Knowledge)
    requires Underway(r, done, k) && k.pending == []
    ensures done == Found(r.image, r.start, r.known)
    ensures k.entryPoints == r.known + done
    ensures k.instructions == r.recorded + Listing(r.image, Swept(r.image, done))
  {
    hide Found, Closed, Targets, Usable, Swept, Listing;
    assert Elements(k.pending) == {};
    FoundExactly(r.image, r.start, r.known, done);
  }

  lemma EntryIs(m: Image, entry: Address)
    requires Usable(m)
    ensures if entry < m.location then SweepFrom(m, entry) == [] && ReadsFrom(m, entry) == {}
            else SweepFrom(m, entry) == Sweep(m, entry % ADDRESS_SPACE)
                 && ReadsFrom(m, entry) == ReadsOf(m, Visited(m, entry % ADDRESS_SPACE))
  {
  }

  lemma NothingRead(m: Image)
    requires Usable(m)
    ensures AllReads(m, {}) == {}
  {
  }

  lemma ReadAlso(m: Image, done: set<Address>, next: Address)
    requires Usable(m)
    ensures AllReads(m, done + {next}) == AllReads(m, done) + ReadsFrom(m, next)
  {
    hide ReadsFrom, Usable;
    forall x ensures x in AllReads(m, done + {next}) <==> x in AllReads(m, done) || x in ReadsFrom(m, next) {
      if x in ReadsFrom(m, next) {
        assert next in done + {next};
      } else if x in AllReads(m, done) {
        var e :| e in done && x in ReadsFrom(m, e);
        assert e in done + {next};
      }
    }
  }

  /** The queue loses an entry point and gains those just added. */
  lemma QueueAdvances(next: Address, rest: seq<Address>, added: seq<Address>, before: set<Address>,
                      targets: set<Address>, entries: set<Address>)
    requires Added(before, targets, entries, added)
    ensures Elements([next] + rest) == {next} + Elements(rest)
    ensures Elements(rest + added) == Elements(rest) + (targets - before)
    ensures entries == before + targets
    ensures entries == before ==> added == []
  {
    if added != [] {
      assert added[0] in Elements(added);
    }
  }

  lemma ListedAlso(m: Image, done: set<Address>, next: Address, base: map<Address, Instruction>)
    requires Usable(m)
    ensures base + Listing(m, Swept(m, done)) + Listing(m, Elements(SweepFrom(m, next)))
         == base + Listing(m, Swept(m, done + {next}))
  {
    SweptAlso(m, done, next);
    hide Swept, Elements, SweepFrom, Listing, Usable;
    var more := Elements(SweepFrom(m, next));
    ListingUnion(m, Swept(m, done), more);
    Overlaid(base, Listing(m, Swept(m, done)), Listing(m, more));
  }

  lemma SweptAlso(m: Image, done: set<Address>, next: Address)
    requires Usable(m)
    ensures forall a | a in Elements(SweepFrom(m, next)) :: At(m, a).Complete?
    ensures Swept(m, done + {next}) == Swept(m, done) + Elements(SweepFrom(m, next))
  {
    hide At, SweepFrom, Usable;
  }

  lemma ListingUnion(m: Image, s: set<Address>, t: set<Address>)
    requires Usable(m) && (forall a | a in s :: At(m, a).Complete?) && forall a | a in t :: At(m, a).Complete?
    ensures Listing(m, s) + Listing(m, t) == Listing(m, s + t)
  {
    hide At, Usable;
  }

  lemma Overlaid(a: map<Address, Instruction>, b: map<Address, Instruction>, c: map<Address, Instruction>)
    ensures a + b + c == a + (b + c)
  {
  }

  lemma TargetsAppend(m: Image, s: seq<Address>, a: Address)
    requires Usable(m) && At(m, a).Complete? && AllComplete(m, s)
    ensures AllComplete(m, s + [a])
    ensures TargetsOf(m, s + [a]) == TargetsOf(m, s) + Target(m, a, At(m, a).instruction)
  {
    hide At, Usable, Target;
  }

  lemma ListingAppend(m: Image, s: seq<Address>, a: Address, base: map<Address, Instruction>)
    requires Usable(m) && At(m, a).Complete? && AllComplete(m, s)
    ensures (base + Listing(m, Elements(s)))[a := At(m, a).instruction] == base + Listing(m, Elements(s + [a]))
  {
    hide At, Usable;
    assert Elements(s + [a]) == Elements(s) + {a};
  }

  /** A sweep has met some instructions and goes on from a start. */
  ghost predicate GoesOn(m: Image, first: int, swept: seq<Address>, start: int)
    requires Usable(m) && 0 <= first && 0 <= start
  {
    Sweep(m, first) == swept + Sweep(m, start)
  }

  /** A sweep's next instruction. */
  lemma SweepStep(m: Image, first: int, swept: seq<Address>, start: Address)
    requires Usable(m) && 0 <= first && GoesOn(m, first, swept, start)
    requires At(m, start).Complete?
    ensures if Ends(At(m, start).instruction.operation) then Sweep(m, first) == swept + [start]
            else GoesOn(m, first, swept + [start], start + At(m, start).length)
  {
    hide *;
    var d := At(m, start);
    GoesOnIs(m, first, swept, start);
    SweepUnfolds(m, start);
    Regroup(Sweep(m, first), swept, Sweep(m, start), start);
    if !Ends(d.instruction.operation) {
      GoesOnIs(m, first, swept + [start], start + d.length);
    }
  }

  lemma GoesOnIs(m: Image, first: int, swept: seq<Address>, start: int)
    requires Usable(m) && 0 <= first && 0 <= start
    ensures GoesOn(m, first, swept, start) <==> Sweep(m, first) == swept + Sweep(m, start)
  {
  }

  lemma SweepUnfolds(m: Image, start: Address)
    requires Usable(m) && At(m, start).Complete?
    ensures Ends(At(m, start).instruction.operation) ==> Sweep(m, start) == [start]
    ensures !Ends(At(m, start).instruction.operation) ==>
              Sweep(m, start) == [start] + Sweep(m, start + At(m, start).length)
  {
    hide At, Ends, Usable;
  }

  lemma Regroup(x: seq<Address>, a: seq<Address>, y: seq<Address>, b: Address)
    requires x == a + y
    ensures y == [b] ==> x == a + [b]
    ensures forall c | y == [b] + c :: x == a + [b] + c
  {
  }

  lemma SweepEnds(m: Image, first: int, swept: seq<Address>, start: int)
    requires Usable(m) && 0 <= first && 0 <= start && GoesOn(m, first, swept, start)
    requires start > m.Bound() || At(m, start).Incomplete?
    ensures Sweep(m, first) == swept
  {
  }

  /** What has been added to the entry points and to those pending, given the targets met. */
  ghost predicate Added(before: set<Address>, targets: set<Address>, entries: set<Address>, added: seq<Address>) {
    entries == before + targets && Elements(added) == targets - before
  }

  lemma AddedAlso(before: set<Address>, first: set<Address>, second: set<Address>, entries: set<Address>,
                  a: seq<Address>, b: seq<Address>)
    requires Added(before, first, entries, a) && Added(entries, second, entries + second, b)
    ensures Added(before, first + second, entries + second, a + b)
  {
    assert Elements(a + b) == Elements(a) + Elements(b);
  }

  /** What a disassembler knows. */
  datatype Knowledge = Knowledge(
    instructions: map<Address, Instruction>, entryPoints: set<Address>, pending: seq<Address>)

  /** Some code has been recorded, and its targets added. */
  ghost predicate Grown(m: Image, before: Knowledge, swept: seq<Address>, now: Knowledge)
    requires Usable(m) && AllComplete(m, swept)
  {
    && |now.pending| >= |before.pending| && now.pending[..|before.pending|] == before.pending
    && Added(before.entryPoints, TargetsOf(m, swept), now.entryPoints, now.pending[|before.pending|..])
    && now.instructions == before.instructions + Listing(m, Elements(swept))
  }

  /** One more instruction recorded, and its target added. */
  lemma GrownAlso(m: Image, before: Knowledge, swept: seq<Address>, was: Knowledge, a: Address, now: Knowledge,
                  newly: seq<Address>)
    requires Usable(m) && At(m, a).Complete? && AllComplete(m, swept) && Grown(m, before, swept, was)
    requires var target := Target(m, a, At(m, a).instruction);
             && now == Knowledge(was.instructions[a := At(m, a).instruction], was.entryPoints + target,
                                 was.pending + newly)
             && Added(was.entryPoints, target, now.entryPoints, newly)
    ensures AllComplete(m, swept + [a]) && Grown(m, before, swept + [a], now)
  {
    TargetsAppend(m, swept, a);
    ListingAppend(m, swept, a, before.instructions);
    hide At, Usable, Target, TargetsOf, Listing, Added, AllComplete, Elements;
    var n := |before.pending|;
    AddedAlso(before.entryPoints, TargetsOf(m, swept), Target(m, a, At(m, a).instruction), was.entryPoints,
              was.pending[n..], newly);
    assert now.pending[n..] == was.pending[n..] + newly;
    assert now.pending[..n] == was.pending[..n];
  }

  lemma NothingGrown(m: Image, before: Knowledge)
    requires Usable(m)
    ensures AllComplete(m, []) && Grown(m, before, [], before)
  {
    assert before.pending[|before.pending|..] == [];
  }

  /** A sweep has recorded some code, and goes on from a start. */
  ghost predicate Midway(m: Image, first: int, before: Knowledge, swept: seq<Address>, start: int, now: Knowledge)
    requires Usable(m) && 0 <= first && 0 <= start
  {
    AllComplete(m, swept) && GoesOn(m, first, swept, start) && Grown(m, before, swept, now)
  }

  lemma AtStart(m: Image, first: int, before: Knowledge)
    requires Usable(m) && 0 <= first
    ensures m.Bound() < 65536 && Midway(m, first, before, [], first, before)
  {
    NothingGrown(m, before);
    assert [] + Sweep(m, first) == Sweep(m, first);
  }

  lemma AtEnd(m: Image, first: int, before: Knowledge, swept: seq<Address>, start: int, now: Knowledge)
    requires Usable(m) && 0 <= first && 0 <= start && Midway(m, first, before, swept, start, now)
    requires start > m.Bound() || At(m, start).Incomplete?
    ensures Grown(m, before, Sweep(m, first), now)
  {
    SweepEnds(m, first, swept, start);
  }

  /** A linear sweep: every instruction is announced, and every target of one is added. */
  method Parse(target: Disassembler, m: Image, first: int)
    requires Usable(m) && 0 <= first
    modifies target
    ensures Grown(m, old(target.Snapshot()), Sweep(m, first), target.Snapshot())
    ensures target.touched == old(target.touched) + ReadsOf(m, Visited(m, first))
  {
    hide *;
    var decoder := new Decoder(m.opcodes);
    ghost var before := target.Snapshot();
    AtStart(m, first, before);
    var start := first;
    ghost var swept: seq<Address> := [];
    while start <= m.Bound()
      invariant 0 <= start && m.Bound() < 65536
      invariant decoder.Holds([]) && decoder.opcodes == m.opcodes && fresh(decoder)
      invariant Midway(m, first, before, swept, start, target.Snapshot())
      invariant target.touched + ReadsOf(m, Visited(m, start)) == old(target.touched) + ReadsOf(m, Visited(m, first))
      decreases m.Bound() - start
    {
      VisitedUnfolds(m, start);
      var count := ParseNext(target, decoder, m, start, first, before, swept);
      if count == 0 {
        return;
      }
      swept := swept + [start];
      start := start + count;
    }
    AtEnd(m, first, before, swept, start, target.Snapshot());
    VisitedUnfolds(m, start);
    NoReads(m, start);
  }

  /** What a sweep reads from here on. */
  lemma VisitedUnfolds(m: Image, start: nat)
    requires Usable(m)
    ensures ReadsOf(m, Visited(m, start)) ==
            if start <= m.Bound() && At(m, start).Complete? && !Ends(At(m, start).instruction.operation)
            then ReadsAt(m, start) + ReadsOf(m, Visited(m, start + At(m, start).length))
            else ReadsAt(m, start)
  {
    assert m.Bound() < 65535;
    hide ReadsAt, At, Usable, Ends;
    if start <= m.Bound() && At(m, start).Complete? && !Ends(At(m, start).instruction.operation) {
      ReadsOfMore(m, start, Visited(m, start + At(m, start).length));
    } else if start <= m.Bound() {
      ReadsOfMore(m, start, []);
    } else {
      NoReads(m, start);
    }
  }

  lemma ReadsOfMore(m: Image, a: Address, s: seq<Address>)
    ensures ReadsOf(m, [a] + s) == ReadsAt(m, a) + ReadsOf(m, s)
    ensures ReadsOf(m, [a]) == ReadsAt(m, a)
  {
    hide ReadsAt;
    forall x ensures x in ReadsOf(m, [a] + s) <==> x in ReadsAt(m, a) || x in ReadsOf(m, s) {
      if x in ReadsAt(m, a) {
        assert a in [a] + s;
      } else if x in ReadsOf(m, s) {
        var b :| b in s && x in ReadsAt(m, b);
        assert b in [a] + s;
      }
    }
  }

  lemma NoReads(m: Image, a: int)
    requires a > m.Bound()
    ensures ReadsAt(m, a) == {} == ReadsOf(m, [])
  {
  }

  /** Announces one instruction of a sweep and adds its target. The result is its length, or 0 if the
      sweep is over. */
  method ParseNext(target: Disassembler, decoder: Decoder, m: Image, start: Address,
                   ghost first: int, ghost before: Knowledge, ghost swept: seq<Address>) returns (count: nat)
    requires Usable(m) && 0 <= first && start <= m.Bound() < 65536 && decoder.Holds([]) && decoder.opcodes == m.opcodes
    requires Midway(m, first, before, swept, start, target.Snapshot())
    modifies target, decoder
    ensures if count == 0 then Grown(m, before, Sweep(m, first), target.Snapshot())
            else decoder.Holds([]) && Midway(m, first, before, swept + [start], start + count, target.Snapshot())
    ensures target.touched == old(target.touched) + ReadsAt(m, start)
    ensures count == if At(m, start).Complete? && !Ends(At(m, start).instruction.operation)
                     then At(m, start).length else 0
  {
    hide Target, Sweep, Grown, Ends, Usable, At, AllComplete, Added, GoesOn, ReadsAt, OperandsRead;
    ReadsAre(m, start);
    target.touched := target.touched + {start};
    var length, instruction := DecodeAt(decoder, m, start);
    if length <= 0 {
      // An overflow is announced, which nothing records.
      AtEnd(m, first, before, swept, start, target.Snapshot());
      return 0;
    }
    SweepStep(m, first, swept, start);
    ghost var was := target.Snapshot();
    target.AnnounceInstruction(start, instruction);
    var ended, newly := Follow(target, m, start, instruction);
    GrownAlso(m, before, swept, was, start, target.Snapshot(), newly);
    count := if ended then 0 else length;
  }

  lemma ReadsAre(m: Image, a: nat)
    requires a <= m.Bound()
    ensures At(m, a).Incomplete? ==> ReadsAt(m, a) == {a}
    ensures At(m, a).Complete? ==> ReadsAt(m, a) == {a} + Offset(a, OperandsRead(At(m, a).instruction))
  {
  }

  method DecodeAt(decoder: Decoder, m: Image, start: int) returns (count: int, instruction: Instruction)
    requires Usable(m) && 0 <= start <= m.Bound() && decoder.Holds([]) && decoder.opcodes == m.opcodes
    modifies decoder
    ensures if At(m, start).Incomplete? then count <= 0
            else decoder.Holds([]) && count == At(m, start).length && instruction == At(m, start).instruction
  {
    var bytes := m.View()[start..];
    assert [] + bytes == bytes;
    count, instruction := decoder.Take(bytes, []);
  }

  /** Adds an instruction's target, if it has one, announces the address it accesses, if that is fixed, and says
      whether the sweep ends with it. */
  method Follow(target: Disassembler, m: Image, start: Address, i: Instruction)
    returns (ended: bool, ghost newly: seq<Address>)
    requires Usable(m) && At(m, start).Complete? && At(m, start).instruction == i
    modifies target`entryPoints, target`pending, target`touched
    ensures ended == Ends(i.operation)
    ensures target.entryPoints == old(target.entryPoints) + Target(m, start, i)
    ensures target.pending == old(target.pending) + newly
    ensures Added(old(target.entryPoints), Target(m, start, i), target.entryPoints, newly)
    ensures target.touched == old(target.touched) + Offset(start, OperandsRead(i))
  {
    hide Usable, At, Target, Added, TargetOperands, AccessOperands;
    ended, newly := AddTarget(target, m, start, i);
    if !ended {
      AnnounceAccess(target, m, start, i);
    }
    NoAccess(i);
    hide Offset;
    OffsetSum(start, TargetOperands(i), AccessOperands(i));
  }

  lemma NoAccess(i: Instruction)
    ensures Ends(i.operation) ==> AccessOperands(i) == {}
  {
  }

  lemma Offsets(a: int)
    ensures Offset(a, {}) == {} && Offset(a, {1}) == {a + 1} && Offset(a, {2}) == {a + 2}
    ensures Offset(a, {1, 2}) == {a + 1, a + 2}
  {
  }

  lemma OffsetSum(a: int, s: set<nat>, t: set<nat>)
    ensures Offset(a, s + t) == Offset(a, s) + Offset(a, t)
  {
  }

  method AddTarget(target: Disassembler, m: Image, start: Address, i: Instruction)
    returns (ended: bool, ghost newly: seq<Address>)
    requires Usable(m) && At(m, start).Complete? && At(m, start).instruction == i
    modifies target`entryPoints, target`pending, target`touched
    ensures ended == Ends(i.operation)
    ensures target.entryPoints == old(target.entryPoints) + Target(m, start, i)
    ensures target.pending == old(target.pending) + newly
    ensures Added(old(target.entryPoints), Target(m, start, i), target.entryPoints, newly)
    ensures target.touched == old(target.touched) + Offset(start, TargetOperands(i))
  {
    Operands(m, start);
    Offsets(start);
    NoneAdded(target.entryPoints);
    hide At, Usable, Offset, Added;
    var o := i.operation;
    ended, newly := false, [];
    if o.RTS? || o.RTI? || o.BRK? {
      ended := true;
    } else if o.JMP? {
      if i.mode.Absolute? {
        var a := ReadWord(target, m, start);
        newly := target.AddEntry(a);
      }
      ended := true;
    } else if o.BRA? {
      var b := Read(target, m, start + 1);
      newly := target.AddEntry((start + 2 + Signed(b)) % 65536);
      ended := true;
    } else if o.BCC? || o.BCS? || o.BVC? || o.BVS? || o.BMI? || o.BPL? || o.BNE? || o.BEQ? {
      var b := Read(target, m, start + 1);
      newly := target.AddEntry((start + 2 + Signed(b)) % 65536);
    } else if o.JSR? {
      if i.mode.Absolute? {
        var a := ReadWord(target, m, start);
        newly := target.AddEntry(a);
      } else if i.mode.SpecialPage? {
        var low := Read(target, m, start + 1);
        newly := target.AddEntry(Word(low, 0x1f));
      }
    } else if o.BBS? || o.BBC? {
      if i.mode.AccumulatorRelative? {
        var b := Read(target, m, start + 1);
        newly := target.AddEntry((start + 2 + Signed(b)) % 65536);
      } else if i.mode.ZeroPageRelative? {
        var b := Read(target, m, start + 2);
        newly := target.AddEntry((start + 3 + Signed(b)) % 65536);
      }
    }
  }

  lemma NoneAdded(before: set<Address>)
    ensures Added(before, {}, before, [])
  {
  }

  /** Nothing records what is announced. */
  method AnnounceAccess(target: Disassembler, m: Image, start: Address, i: Instruction)
    requires !Ends(i.operation)
    modifies target`touched
    ensures target.touched == old(target.touched) + Offset(start, AccessOperands(i))
  {
    Offsets(start);
    hide Offset, Ends;
    if i.mode.Absolute? {
      var address := ReadWord(target, m, start);
    } else if i.mode.ZeroPage? || i.mode.ZeroPageRelative? {
      var address := Read(target, m, start + 1);
    } else if i.mode.ImmediateZeroPage? {
      var address := Read(target, m, start + 2);
    }
  }

  method Read(target: Disassembler, m: Image, a: int) returns (b: Byte)
    modifies target`touched
    ensures b == m.ByteAt(a) && target.touched == old(target.touched) + {a}
  {
    target.touched := target.touched + {a};
    b := m.ByteAt(a);
  }

  /** The absolute address that follows an opcode. */
  method ReadWord(target: Disassembler, m: Image, start: Address) returns (a: Address)
    modifies target`touched
    ensures a == Word(m.ByteAt(start + 1), m.ByteAt(start + 2))
    ensures target.touched == old(target.touched) + {start + 1, start + 2}
  {
    var low := Read(target, m, start + 1);
    var high := Read(target, m, start + 2);
    a := Word(low, high);
  }

  // Whether it stays within the caller's memory.

  /** An instruction's last operand byte is looked at. */
  predicate LastRead(i: Instruction) {
    Size(i.mode) in OperandsRead(i)
  }

  /** A sweep from an entry point that passes as being within the memory, but does so below it. */
  predicate SweptBelow(m: Image, e: Address) {
    e >= m.location && e % ADDRESS_SPACE < m.location && e % ADDRESS_SPACE <= m.Bound()
  }

  /** The byte at the bound is an opcode that is come to, or the last byte of an instruction that is looked at. */
  predicate BoundRead(m: Image, a: Address) {
    || a == m.Bound()
    || (At(m, a).Complete? && a + At(m, a).length == m.Bound() + 1 && LastRead(At(m, a).instruction))
  }

  predicate SweptBeyond(m: Image, e: Address)
    requires Usable(m)
  {
    e >= m.location && exists a | a in Visited(m, e % ADDRESS_SPACE) :: BoundRead(m, a)
  }

  ghost predicate Within(m: Image, addresses: set<int>) {
    forall x | x in addresses :: m.location <= x < m.location + |m.memory|
  }

  /** All that a disassembly reads is within the memory it is given exactly if no entry point found is swept from
      below it, and no sweep reaches the byte at the closing bound, which is one past its end or, if that is beyond
      16 bits, below it. */
  lemma ReadsWithin(m: Image, entries: set<Address>)
    requires Usable(m)
    ensures Within(m, AllReads(m, entries)) <==> forall e | e in entries :: !SweptBelow(m, e) && !SweptBeyond(m, e)
  {
    hide Usable, ReadsFrom, SweptBelow, SweptBeyond;
    forall e | e in entries
      ensures Within(m, ReadsFrom(m, e)) <==> !SweptBelow(m, e) && !SweptBeyond(m, e)
      ensures ReadsFrom(m, e) <= AllReads(m, entries)
    {
      ReadsFromWithin(m, e);
      assert entries == entries + {e};
      ReadAlso(m, entries, e);
    }
    if forall e | e in entries :: Within(m, ReadsFrom(m, e)) {
      forall x | x in AllReads(m, entries) ensures m.location <= x < m.location + |m.memory| {
        var e :| e in entries && x in ReadsFrom(m, e);
      }
    }
  }

  lemma ReadsFromWithin(m: Image, e: Address)
    requires Usable(m)
    ensures Within(m, ReadsFrom(m, e)) <==> !SweptBelow(m, e) && !SweptBeyond(m, e)
  {
    hide *;
    if SweptBelow(m, e) {
      BelowLeaves(m, e);
    } else if SweptBeyond(m, e) {
      BeyondLeaves(m, e);
    } else {
      OtherwiseWithin(m, e);
    }
  }

  lemma BelowLeaves(m: Image, e: Address)
    requires Usable(m) && SweptBelow(m, e)
    ensures !Within(m, ReadsFrom(m, e))
  {
    var first := e % ADDRESS_SPACE;
    hide Usable, ReadsFrom;
    VisitedFirst(m, first);
    ReadsAtBound(m, first);
    ReadInSweep(m, e, first, first);
  }

  lemma BeyondLeaves(m: Image, e: Address)
    requires Usable(m) && SweptBeyond(m, e)
    ensures !Within(m, ReadsFrom(m, e)) && m.Bound() in ReadsFrom(m, e)
  {
    var a :| a in Visited(m, e % ADDRESS_SPACE) && BoundRead(m, a);
    hide Usable, ReadsFrom, ReadsAt, BoundRead, Visited, Image.Bound;
    BoundIs(m);
    ReadsAtBound(m, a);
    ReadInSweep(m, e, a, m.Bound());
  }

  lemma OtherwiseWithin(m: Image, e: Address)
    requires Usable(m) && !SweptBelow(m, e) && !SweptBeyond(m, e)
    ensures Within(m, ReadsFrom(m, e))
  {
    hide Usable, ReadsAt, BoundRead, Visited, Image.Bound;
    forall x | x in ReadsFrom(m, e) ensures m.location <= x < m.location + |m.memory| {
      BoundIs(m);
      var a :| a in Visited(m, e % ADDRESS_SPACE) && x in ReadsAt(m, a);
      ReadsAtBound(m, a);
    }
  }

  lemma VisitedFirst(m: Image, a: Address)
    requires Usable(m) && a <= m.Bound()
    ensures a in Visited(m, a)
  {
  }

  lemma ReadInSweep(m: Image, e: Address, a: Address, x: int)
    requires Usable(m) && e >= m.location && a in Visited(m, e % ADDRESS_SPACE) && x in ReadsAt(m, a)
    ensures x in ReadsFrom(m, e)
  {
    hide ReadsAt, Visited, Usable;
  }

  lemma ReadsAtBound(m: Image, a: Address)
    requires Usable(m) && a <= m.Bound()
    ensures forall x | x in ReadsAt(m, a) :: a <= x <= m.Bound()
    ensures a in ReadsAt(m, a)
    ensures m.Bound() in ReadsAt(m, a) <==> BoundRead(m, a)
  {
    OperandsFit(m.opcodes);
    if At(m, a).Complete? {
      Operands(m, a);
      LengthIs(m, a);
    }
    hide At, OperandsRead, Usable;
  }

  /** No operand is looked at beyond an instruction's own. */
  lemma OperandsFit(opcodes: Opcodes)
    requires Regular(opcodes)
    ensures forall b: Byte, n | n in OperandsRead(opcodes(b)) :: 1 <= n <= Size(opcodes(b).mode)
    ensures forall b: Byte | opcodes(b).operation.Invalid? :: OperandsRead(opcodes(b)) == {}
  {
  }

  lemma LengthIs(m: Image, a: Address)
    requires Usable(m) && At(m, a).Complete?
    ensures exists b: Byte :: At(m, a).instruction == m.opcodes(b)
    ensures At(m, a).length == 1 + Size(At(m, a).instruction.mode)
  {
  }

  /** An entry point above the range of the program counter, at a location within it. */
  lemma SweepBelow(m: Image)
    requires Usable(m) && m.location == 0x1000 && m.Bound() >= 5
    ensures SweptBelow(m, 0x2005) && SweepFrom(m, 0x2005) == Sweep(m, 5) && 5 in ReadsFrom(m, 0x2005)
  {
    ReadsAtBound(m, 5);
    VisitedFirst(m, 5);
    ReadInSweep(m, 0x2005, 5, 5);
  }

  /** Memory that is all NOP, wherever it is within the program counter's range and however long it is without
      passing 16 bits: a sweep from its start reads the byte after its end. */
  lemma SweepBeyond(m: Image)
    requires Usable(m) && m.location < ADDRESS_SPACE && m.location + |m.memory| < 65536
    requires m.opcodes(0xea).operation.Other? && m.opcodes(0xea).mode.Implied?
    requires forall i | 0 <= i < |m.memory| :: m.memory[i] == 0xea
    ensures SweptBeyond(m, m.location) && m.location + |m.memory| in ReadsFrom(m, m.location)
  {
    hide *;
    BoundIs(m);
    NopsVisited(m, m.location);
    BeyondIf(m, m.location);
    BeyondLeaves(m, m.location);
  }

  lemma BoundIs(m: Image)
    ensures m.location + |m.memory| < 65536 ==> m.Bound() == m.location + |m.memory|
    ensures 65536 <= m.location + |m.memory| && |m.memory| < 65536 ==> m.Bound() < m.location
    ensures Usable(m) ==> m.Bound() < 65535 && |m.memory| < 65536
  {
  }

  lemma BeyondIf(m: Image, e: Address)
    requires Usable(m) && m.location <= e < ADDRESS_SPACE && m.Bound() in Visited(m, e)
    ensures SweptBeyond(m, e)
  {
    assert e % ADDRESS_SPACE == e;
    assert BoundRead(m, m.Bound());
  }

  lemma {:induction false} NopsVisited(m: Image, a: nat)
    requires Usable(m) && m.location <= a <= m.Bound() == m.location + |m.memory|
    requires m.opcodes(0xea).operation.Other? && m.opcodes(0xea).mode.Implied?
    requires forall i | 0 <= i < |m.memory| :: m.memory[i] == 0xea
    ensures m.Bound() in Visited(m, a)
    decreases m.Bound() - a
  {
    if a < m.Bound() {
      NopAt(m, a);
      NopsVisited(m, a + 1);
    }
  }

  // What it means to be found.

  /** A chain of entry points, each named by code swept from the one before, and none after the first known. */
  ghost predicate Chain(m: Image, known: set<Address>, chain: seq<Address>)
    requires Usable(m)
  {
    chain != [] && forall i | 0 < i < |chain| :: chain[i] in Targets(m, chain[i - 1]) && chain[i] !in known
  }

  ghost predicate Reachable(m: Image, start: Address, known: set<Address>, e: Address)
    requires Usable(m)
  {
    exists chain :: Chain(m, known, chain) && chain[0] == start && chain[|chain| - 1] == e
  }

  lemma {:induction false} ChainFound(m: Image, start: Address, known: set<Address>, chain: seq<Address>)
    requires Usable(m) && Chain(m, known, chain) && chain[0] == start
    ensures chain[|chain| - 1] in Found(m, start, known)
    decreases |chain|
  {
    hide Targets, Found;
    if |chain| == 1 {
      StartFound(m, start, known);
    } else {
      ChainFound(m, start, known, chain[..|chain| - 1]);
      FoundBeyond(m, start, known, chain[|chain| - 2]);
    }
  }

  /** The entry points found are exactly those that a chain leads to from the start. */
  lemma FoundIsReachable(m: Image, start: Address, known: set<Address>, e: Address)
    requires Usable(m)
    ensures e in Found(m, start, known) <==> Reachable(m, start, known, e)
  {
    hide Targets, Found;
    if Reachable(m, start, known, e) {
      var chain :| Chain(m, known, chain) && chain[0] == start && chain[|chain| - 1] == e;
      ChainFound(m, start, known, chain);
    }
    var reachable := set a | a in ADDRESSES && Reachable(m, start, known, a);
    assert Closed(m, start, known, reachable) by {
      assert Chain(m, known, [start]) && [start][0] == start;
      assert start in ADDRESSES;
      forall a, t | a in reachable && t in Targets(m, a) && t !in known ensures t in reachable {
        var chain :| Chain(m, known, chain) && chain[0] == start && chain[|chain| - 1] == a;
        assert Chain(m, known, chain + [t]);
        assert t in ADDRESSES;
      }
    }
    FoundIsLeast(m, start, known);
  }

  /** Once nothing is left to find from a start, finding it all again adds nothing. */
  lemma NothingMoreToFind(m: Image, start: Address)
    requires Usable(m)
    ensures Found(m, start, Found(m, start, {})) == {start}
  {
    hide Targets, Found;
    var found := Found(m, start, {});
    FoundIsLeast(m, start, {});
    FoundIsLeast(m, start, found);
    assert Closed(m, start, found, {start});
    StartFound(m, start, found);
  }

  // A sweep to the end of the program counter's range.

  /** Where a sweep's program counter is after n instructions that do not end it: it is 16 bits wide. */
  function Position(m: Image, start: Address, n: nat): Address
  {
    if n == 0 then start
    else
      var a := Position(m, start, n - 1);
      if At(m, a).Incomplete? then a else (a + At(m, a).length) % 65536
  }

  /** With the closing bound at the very top of the address space, which Usable excludes, a sweep need never
      end: over memory full of NOP it meets instruction after instruction, none of them ending it. */
  lemma {:induction false} SweepForever(m: Image, n: nat)
    requires m.Bound() == 65535
    requires m.opcodes(0xea).operation.Other? && m.opcodes(0xea).mode.Implied?
    requires forall a | 0 <= a <= 65535 :: m.ByteAt(a) == 0xea
    ensures Position(m, 0, n) == n % 65536 <= m.Bound()
    ensures At(m, Position(m, 0, n)).Complete? && !Ends(At(m, Position(m, 0, n)).instruction.operation)
  {
    hide *;
    PositionNext(m, 0);
    NopAt(m, n % 65536);
    if n > 0 {
      SweepForever(m, n - 1);
      NopAt(m, (n - 1) % 65536);
      PositionNext(m, n - 1);
      Successive(n);
    }
  }

  lemma PositionNext(m: Image, n: nat)
    ensures Position(m, 0, 0) == 0
    ensures At(m, Position(m, 0, n)).Complete? ==>
              Position(m, 0, n + 1) == (Position(m, 0, n) + At(m, Position(m, 0, n)).length) % 65536
  {
  }

  lemma Successive(n: nat)
    requires n > 0
    ensures ((n - 1) % 65536 + 1) % 65536 == n % 65536
  {
  }

  lemma NopAt(m: Image, a: Address)
    requires a <= m.Bound() && m.ByteAt(a) == 0xea
    requires m.opcodes(0xea).operation.Other? && m.opcodes(0xea).mode.Implied?
    ensures At(m, a) == Complete(1, m.opcodes(0xea)) && !Ends(m.opcodes(0xea).operation)
  {
  }
}
