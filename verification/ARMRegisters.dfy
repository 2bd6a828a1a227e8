/** The ARMv2 register file: sixteen active registers, shadow copies held lazily in overlapping
    arrays, and status flags held as the words they were last computed from. */
module ARMRegisters {
  import opened Arithmetic

  // Words are integers below 2^32 with every wrap written out; the status and address masks are
  // written as the division and remainder they amount to.
  type Word = x: int | 0 <= x < 0x1_0000_0000

  function Wrap(x: int): Word {
    x % 0x1_0000_0000
  }

  /** A register's number. */
  type Index = n: nat | n < 16

  lemma WrapReduced(a: int, d: int)
    ensures Wrap(Wrap(a) + d) == Wrap(a + d)
  {
    ReducedBefore(a, d, 0x1_0000_0000);
  }

  lemma WrapWord(w: Word)
    ensures Wrap(w) == w
  {
  }

  datatype Mode = User | FIQ | IRQ | Supervisor

  function ModeBits(m: Mode): (bits: Word)
    ensures bits < 4
  {
    match m
    case User => 0
    case FIQ => 1
    case IRQ => 2
    case Supervisor => 3
  }

  function ModeFrom(status: Word): Mode {
    var bits := status % 4;
    if bits == 0 then User else if bits == 1 then FIQ else if bits == 2 then IRQ else Supervisor
  }

  const NEGATIVE: Word := 0x8000_0000
  const ZERO: Word := 0x4000_0000
  const CARRY: Word := 0x2000_0000
  const OVERFLOW: Word := 0x1000_0000
  const IRQ_DISABLE: Word := 0x0800_0000
  const FIQ_DISABLE: Word := 0x0400_0000

  predicate TopBit(w: Word) {
    w >= NEGATIVE
  }

  predicate ZeroBit(w: Word) {
    w / 0x4000_0000 % 2 == 1
  }

  predicate CarryBit(w: Word) {
    w / 0x2000_0000 % 2 == 1
  }

  predicate OverflowBit(w: Word) {
    w / 0x1000_0000 % 2 == 1
  }

  predicate IrqDisableBit(w: Word) {
    w / 0x0800_0000 % 2 == 1
  }

  predicate FiqDisableBit(w: Word) {
    w / 0x0400_0000 % 2 == 1
  }

  /** The 26-bit, word-aligned address field: bits 2 to 25. */
  function AddressField(w: int): Word {
    w / 4 % 0x0100_0000 * 4
  }

  datatype Exception =
    | Reset | UndefinedInstruction | SoftwareInterrupt | PrefetchAbort
    | DataAbort | AddressException | IRQException | FIQException

  function Vector(e: Exception): Word {
    match e
    case Reset => 0x00
    case UndefinedInstruction => 0x04
    case SoftwareInterrupt => 0x08
    case PrefetchAbort => 0x0c
    case DataAbort => 0x10
    case AddressException => 0x14
    case IRQException => 0x18
    case FIQException => 0x1c
  }

  function PcOffsetDuring(e: Exception): Word {
    if e.SoftwareInterrupt? || e.UndefinedInstruction? || e.Reset? then 0 else 4
  }

  function ModeDuring(e: Exception): Mode {
    if e.IRQException? then IRQ else if e.FIQException? then FIQ else Supervisor
  }

  // The specification: a plain bank with a cell of its own for every physical register.

  /** Cells 0 to 15 are the user registers, 16 to 22 FIQ's r8 to r14, then r13 and r14 of IRQ and supervisor mode. */
  const CELLS := 27

  function Cell(m: Mode, n: nat): (c: nat)
    requires n < 16
    ensures c < CELLS
  {
    if m == FIQ && 8 <= n < 15 then n + 8
    else if m == IRQ && 13 <= n < 15 then n + 10
    else if m == Supervisor && 13 <= n < 15 then n + 12
    else n
  }

  datatype Flags = Flags(n: bool, z: bool, c: bool, v: bool)

  datatype Condition = EQ | NE | CS | CC | MI | PL | VS | VC | HI | LS | GE | LT | GT | LE | AL | NV

  predicate Holds(condition: Condition, f: Flags) {
    match condition
    case EQ => f.z
    case NE => !f.z
    case CS => f.c
    case CC => !f.c
    case MI => f.n
    case PL => !f.n
    case VS => f.v
    case VC => !f.v
    case HI => f.c && !f.z
    case LS => !f.c || f.z
    case GE => f.n == f.v
    case LT => f.n != f.v
    case GT => !f.z && f.n == f.v
    case LE => f.z || f.n != f.v
    case AL => true
    case NV => false
  }

  function FlagBits(f: Flags): Word {
    (if f.n then NEGATIVE else 0) + (if f.z then ZERO else 0)
    + (if f.c then CARRY else 0) + (if f.v then OVERFLOW else 0)
  }

  /** Which of the two interrupts are disabled. */
  datatype Masks = Masks(irq: bool, fiq: bool)

  function MaskBits(k: Masks): Word {
    (if k.irq then IRQ_DISABLE else 0) + (if k.fiq then FIQ_DISABLE else 0)
  }

  function FlagsFrom(status: Word): Flags {
    Flags(TopBit(status), ZeroBit(status), CarryBit(status), OverflowBit(status))
  }

  function MasksFrom(status: Word): Masks {
    Masks(IrqDisableBit(status), FiqDisableBit(status))
  }

  /** R15 read as a whole: the address field with the status bits around it. */
  function PcAndStatus(pc: Word, offset: Word, m: Mode, f: Flags, k: Masks): Word {
    AddressField(pc + offset) + ModeBits(m) + FlagBits(f) + MaskBits(k)
  }

  datatype Cpu = Cpu(mode: Mode, bank: seq<Word>, flags: Flags, masks: Masks) {
    /** The program counter is always an address field. */
    ghost predicate Valid() {
      && |bank| == CELLS
      && AddressField(bank[15]) == bank[15]
    }

    function Read(n: nat): Word
      requires n < 16 && |bank| == CELLS
    {
      bank[Cell(mode, n)]
    }

    function Write(n: nat, value: Word): Cpu
      requires n < 16 && |bank| == CELLS
    {
      this.(bank := bank[Cell(mode, n) := value])
    }

    function PcStatus(offset: Word): Word
      requires |bank| == CELLS
    {
      PcAndStatus(bank[15], offset, mode, flags, masks)
    }

    function SetPc(value: Word): Cpu
      requires |bank| == CELLS
    {
      this.(bank := bank[15 := AddressField(value)])
    }

    /** User mode may change only the condition flags; the others also the mode and interrupt masks. */
    function SetStatus(status: Word): Cpu {
      if mode == User then this.(flags := FlagsFrom(status))
      else this.(flags := FlagsFrom(status), mode := ModeFrom(status), masks := MasksFrom(status))
    }

    function Take(e: Exception): Cpu
      requires |bank| == CELLS
    {
      var r14 := PcStatus(PcOffsetDuring(e));
      this.(mode := ModeDuring(e), masks := Masks(true, masks.fiq || e.Reset? || e.FIQException?))
      .Write(14, r14).SetPc(Vector(e))
    }
  }

  class Registers {
    var mode: Mode
    var zeroResult: Word
    var negativeFlag: Word
    var masks: Masks
    var carryFlag: Word
    var overflowFlag: Word

    // Shadow registers, and the active set.
    const user: array<Word>
    const fiq: array<Word>
    const irq: array<Word>
    const supervisor: array<Word>
    const active: array<Word>

    ghost predicate Valid() {
      && user.Length == 7 && fiq.Length == 7 && irq.Length == 2 && supervisor.Length == 2 && active.Length == 16
      && user != fiq && user != irq && user != supervisor && user != active && fiq != irq
      && fiq != supervisor && fiq != active && irq != supervisor && irq != active && supervisor != active
    }

    /** The whole bank, each cell read from wherever it is currently held. */
    ghost function Bank(): (bank: seq<Word>)
      requires Valid()
      reads `mode, user, fiq, irq, supervisor, active
      ensures |bank| == CELLS
    {
      active[..8]
      + (if mode == FIQ then user[..5] else active[8..13])
      + (if mode == User then active[13..15] else user[5..])
      + [active[15]]
      + (if mode == FIQ then active[8..15] else fiq[..])
      + (if mode == IRQ then active[13..15] else irq[..])
      + (if mode == Supervisor then active[13..15] else supervisor[..])
    }

    /** Where cell c is currently held. */
    ghost function Held(c: nat): Word
      requires Valid() && c < CELLS
      reads `mode, user, fiq, irq, supervisor, active
    {
      if c < 8 || c == 15 then active[c]
      else if c < 13 then (if mode == FIQ then user[c - 8] else active[c])
      else if c < 15 then (if mode == User then active[c] else user[c - 8])
      else if c < 23 then (if mode == FIQ then active[c - 8] else fiq[c - 16])
      else if c < 25 then (if mode == IRQ then active[c - 10] else irq[c - 23])
      else (if mode == Supervisor then active[c - 12] else supervisor[c - 25])
    }

    lemma BankHolds()
      requires Valid()
      ensures forall c: nat | c < CELLS :: Bank()[c] == Held(c)
    {
      forall c: nat | c < CELLS
        ensures Bank()[c] == Held(c)
      {
        if c < 13 {
        } else if c < 16 {
        } else if c < 23 {
        } else {
        }
      }
    }

    ghost function Abstract(): (a: Cpu)
      requires Valid()
      reads this, user, fiq, irq, supervisor, active
      ensures |a.bank| == CELLS
    {
      Cpu(mode, Bank(),
          Flags(TopBit(negativeFlag), zeroResult == 0, carryFlag != 0, TopBit(overflowFlag)),
          masks)
    }

    constructor ()
      ensures Valid() && fresh(user) && fresh(fiq) && fresh(irq) && fresh(supervisor) && fresh(active)
      ensures Abstract() == Cpu(Supervisor, seq(CELLS, _ => 0), Flags(false, false, false, false), Masks(true, true))
    {
      mode, zeroResult, negativeFlag, carryFlag, overflowFlag := Supervisor, 1, 0, 0, 0;
      masks := Masks(true, true);
      user := new Word[7](_ => 0);
      fiq := new Word[7](_ => 0);
      irq := new Word[2](_ => 0);
      supervisor := new Word[2](_ => 0);
      active := new Word[16](_ => 0);
      new;
      hide Bank;
      Cleared();
    }

    lemma Cleared()
      requires Valid()
      requires (forall i | 0 <= i < 7 :: user[i] == fiq[i] == 0) && (forall i | 0 <= i < 16 :: active[i] == 0)
      requires forall i | 0 <= i < 2 :: irq[i] == supervisor[i] == 0
      ensures Bank() == seq(CELLS, _ => 0)
    {
      hide Bank;
      BankHolds();
    }

    /** std::copy of source[from..to] to target, starting at position at. */
    static method Copy(source: array<Word>, from: nat, to: nat, target: array<Word>, at: nat)
      requires from <= to <= source.Length && at + (to - from) <= target.Length && source != target
      modifies target
      ensures forall i | 0 <= i < target.Length ::
                target[i] == if at <= i < at + (to - from) then source[from + (i - at)] else old(target[i])
    {
      forall i | from <= i < to {
        target[at + (i - from)] := source[i];
      }
    }

    /** A mode change moves values between the active and shadow registers but alters no cell of the bank. */
    method SetMode(target: Mode)
      requires Valid()
      modifies `mode, user, fiq, irq, supervisor, active
      ensures Abstract() == old(Abstract()).(mode := target)
    {
      hide Bank;
      BankHolds();
      if mode == target {
        return;
      }
      SaveOutgoing();
      RestoreIncoming(target);
      mode := target;
      BankHolds();
    }

    /** FIQ saves r8 to r14 up front; the other modes only r13 and r14. */
    method SaveOutgoing()
      requires Valid()
      modifies user, fiq, irq, supervisor
      ensures forall i | 0 <= i < 7 :: fiq[i] == if mode == FIQ then active[i + 8] else old(fiq[i])
      ensures forall i | 0 <= i < 7 :: user[i] == if mode == User && i >= 5 then active[i + 8] else old(user[i])
      ensures forall i | 0 <= i < 2 :: irq[i] == if mode == IRQ then active[i + 13] else old(irq[i])
      ensures forall i | 0 <= i < 2 ::
                supervisor[i] == if mode == Supervisor then active[i + 13] else old(supervisor[i])
    {
      match mode {
        case FIQ => Copy(active, 8, 15, fiq, 0);
        case User => Copy(active, 13, 15, user, 5);
        case Supervisor => Copy(active, 13, 15, supervisor, 0);
        case IRQ => Copy(active, 13, 15, irq, 0);
      }
    }

    /** An incoming FIQ saves r8 to r12 to the user registers, then overwrites seven; the other modes
        overwrite two, and another five if FIQ is outgoing. */
    method RestoreIncoming(target: Mode)
      requires Valid() && target != mode
      modifies user, active
      ensures forall i | 0 <= i < 7 :: user[i] == if target == FIQ && i < 5 then old(active[i + 8]) else old(user[i])
      ensures forall i | 0 <= i < 8 :: active[i] == old(active[i])
      ensures forall i | 8 <= i < 13 ::
                active[i] == if target == FIQ then fiq[i - 8]
                             else if mode == FIQ then old(user[i - 8])
                             else old(active[i])
      ensures forall i | 13 <= i < 15 ::
                active[i] == match target
                  case FIQ => fiq[i - 8]
                  case User => old(user[i - 8])
                  case IRQ => irq[i - 13]
                  case Supervisor => supervisor[i - 13]
      ensures active[15] == old(active[15])
    {
      match target {
        case FIQ =>
          Copy(active, 8, 13, user, 0);
          Copy(fiq, 0, 7, active, 8);
        case User => Copy(user, 5, 7, active, 13);
        case Supervisor => Copy(supervisor, 0, 2, active, 13);
        case IRQ => Copy(irq, 0, 2, active, 13);
      }
      if mode == FIQ {
        Copy(user, 0, 5, active, 8);
      }
    }

    /** N and Z are kept as the result they are to be taken from. */
    method SetNZ(value: Word)
      requires Valid()
      modifies `zeroResult, `negativeFlag
      ensures var was := old(Abstract()); Abstract() == was.(flags := was.flags.(n := TopBit(value), z := value == 0))
    {
      hide Bank;
      zeroResult := value;
      negativeFlag := value;
    }

    method SetC(value: Word)
      requires Valid()
      modifies `carryFlag
      ensures var was := old(Abstract()); Abstract() == was.(flags := was.flags.(c := value != 0))
    {
      hide Bank;
      carryFlag := value;
    }

    method SetV(value: Word)
      requires Valid()
      modifies `overflowFlag
      ensures var was := old(Abstract()); Abstract() == was.(flags := was.flags.(v := TopBit(value)))
    {
      hide Bank;
      overflowFlag := value;
    }

    /** Whether a condition holds, from the words the flags are kept as. */
    method Test(condition: Condition) returns (holds: bool)
      requires Valid()
      ensures holds == Holds(condition, Abstract().flags)
    {
      hide Bank;
      var ne, cs, mi, vs := zeroResult != 0, carryFlag != 0, TopBit(negativeFlag), TopBit(overflowFlag);
      var hi := carryFlag != 0 && zeroResult != 0;
      var lt := TopBit(negativeFlag) != TopBit(overflowFlag);
      var le := zeroResult == 0 || lt;
      match condition {
        case EQ => holds := !ne;
        case NE => holds := ne;
        case CS => holds := cs;
        case CC => holds := !cs;
        case MI => holds := mi;
        case PL => holds := !mi;
        case VS => holds := vs;
        case VC => holds := !vs;
        case HI => holds := hi;
        case LS => holds := !hi;
        case GE => holds := !lt;
        case LT => holds := lt;
        case GT => holds := !le;
        case LE => holds := le;
        case AL => holds := true;
        case NV => holds := false;
      }
    }

    function PcStatus(offset: Word): Word
      requires active.Length == 16
      reads this, active
    {
      PcAndStatus(active[15], offset, mode,
                  Flags(TopBit(negativeFlag), zeroResult == 0, carryFlag != 0, TopBit(overflowFlag)), masks)
    }

    lemma PcStatusMatches(offset: Word)
      requires Valid()
      ensures PcStatus(offset) == Abstract().PcStatus(offset)
    {
      hide Bank, PcAndStatus;
      assert Bank()[15] == active[15] by {
        BankHolds();
      }
    }

    method SetStatus(status: Word)
      requires Valid()
      modifies this, user, fiq, irq, supervisor, active
      ensures Abstract() == old(Abstract()).SetStatus(status)
    {
      hide Bank, ModeFrom, MasksFrom;
      SetFlags(status);
      if mode != User {
        SetMode(ModeFrom(status));
        masks := MasksFrom(status);
      }
    }

    method SetFlags(status: Word)
      requires Valid()
      modifies `negativeFlag, `overflowFlag, `carryFlag, `zeroResult
      ensures Abstract() == old(Abstract()).(flags := FlagsFrom(status))
    {
      hide Bank, Wrap, OverflowBit;
      OverflowMoved(status);
      negativeFlag := status;
      overflowFlag := Wrap(status * 8);
      carryFlag := if CarryBit(status) then CARRY else 0;
      zeroResult := if ZeroBit(status) then 0 else ZERO;
    }

    method SetPc(value: Word)
      requires Valid()
      modifies active
      ensures Abstract() == old(Abstract()).SetPc(value)
    {
      hide Bank, AddressField;
      BankHolds();
      active[15] := AddressField(value);
      BankHolds();
    }

    /** Begins an exception. */
    method TakeException(e: Exception)
      requires Valid()
      modifies this, user, fiq, irq, supervisor, active
      ensures Abstract() == old(Abstract()).Take(e)
    {
      hide Bank, PcStatus, Cpu.PcStatus, Cpu.SetPc, Cell, Vector, PcOffsetDuring;
      ghost var was := Abstract();
      var r14 := PcStatus(PcOffsetDuring(e));
      PcStatusMatches(PcOffsetDuring(e));
      match e {
        case IRQException => SetMode(IRQ);
        case FIQException => SetMode(FIQ);
        case _ => SetMode(Supervisor);
      }
      SetActive(14, r14);
      assert Abstract() == was.(mode := ModeDuring(e)).Write(14, r14);
      masks := masks.(irq := true);
      if e == Reset || e == FIQException {
        masks := masks.(fiq := true);
      }
      SetPc(Vector(e));
    }

    /** The register named by reg(forceUser, n); with forceUser it is user mode's whatever the current mode. */
    method Reg(forceUser: bool, n: nat) returns (value: Word)
      requires Valid() && n < 16
      ensures value == Abstract().bank[Cell(if forceUser then User else mode, n)]
    {
      hide Bank;
      BankHolds();
      assert Bank()[Cell(if forceUser then User else mode, n)] == Held(Cell(if forceUser then User else mode, n));
      value := match mode
        case User => active[n]
        case FIQ => if forceUser && 8 <= n < 15 then user[n - 8] else active[n]
        case _ => if forceUser && (n == 13 || n == 14) then user[n - 8] else active[n];
    }

    /** Assignment through the reference returned by reg(forceUser, n). */
    method SetReg(forceUser: bool, n: nat, value: Word)
      requires Valid() && n < 16
      modifies user, active
      ensures var was := old(Abstract());
              Abstract() == was.(bank := was.bank[Cell(if forceUser then User else mode, n) := value])
    {
      hide Bank;
      BankHolds();
      if mode == FIQ && forceUser && 8 <= n < 15 {
        user[n - 8] := value;
      } else if (mode == IRQ || mode == Supervisor) && forceUser && (n == 13 || n == 14) {
        user[n - 8] := value;
      } else {
        active[n] := value;
      }
      BankHolds();
    }

    /** Assignment through operator []. */
    method SetActive(n: nat, value: Word)
      requires Valid() && n < 16
      modifies active
      ensures Abstract() == old(Abstract()).Write(n, value)
    {
      hide Bank;
      BankHolds();
      active[n] := value;
      BankHolds();
    }
  }

  // Exception entry and return.

  /** MOVS PC,R14 or SUBS PC,R14,#offset. */
  function Return(a: Cpu, offset: Word): Cpu
    requires |a.bank| == CELLS
  {
    var value := Wrap(a.Read(14) - offset);
    a.SetPc(value).SetStatus(value)
  }

  /** Whether cell c belongs to mode m alone. */
  predicate PrivateTo(m: Mode, c: nat) {
    match m
    case User => false
    case FIQ => 16 <= c < 23
    case IRQ => 23 <= c < 25
    case Supervisor => 25 <= c < 27
  }

  function StatusField(f: Flags, k: Masks): nat {
    (if f.n then 32 else 0) + (if f.z then 16 else 0) + (if f.c then 8 else 0)
    + (if f.v then 4 else 0) + (if k.irq then 2 else 0) + (if k.fiq then 1 else 0)
  }

  lemma HighBits(w: Word, status: nat, rest: nat)
    requires rest < 0x0400_0000 && w == status * 0x0400_0000 + rest
    ensures w / 0x0400_0000 == status && w / 0x0800_0000 == status / 2 && w / 0x1000_0000 == status / 4
    ensures w / 0x2000_0000 == status / 8 && w / 0x4000_0000 == status / 16
    ensures TopBit(w) <==> status >= 32
  {
  }

  lemma OverflowMoved(w: Word)
    ensures TopBit(Wrap(w * 8)) <==> OverflowBit(w)
  {
    var high, low := w / 0x2000_0000, w % 0x2000_0000;
    FloorDivides(w, 0x2000_0000);
    DivisionIsUnique(w * 8, 0x1_0000_0000, high, low * 8);
    DivisionIsUnique(w, 0x1000_0000, high * 2 + low / 0x1000_0000, low % 0x1000_0000);
  }

  lemma FieldDecodes(f: Flags, k: Masks)
    ensures FlagBits(f) + MaskBits(k) == StatusField(f, k) * 0x0400_0000
    ensures StatusField(f, k) >= 32 <==> f.n
    ensures StatusField(f, k) / 16 % 2 == 1 <==> f.z
    ensures StatusField(f, k) / 8 % 2 == 1 <==> f.c
    ensures StatusField(f, k) / 4 % 2 == 1 <==> f.v
    ensures StatusField(f, k) / 2 % 2 == 1 <==> k.irq
    ensures StatusField(f, k) % 2 == 1 <==> k.fiq
    ensures StatusField(f, k) < 64
  {
    FieldSum(f, k);
    FieldParts(StatusField(f, k), f.n, f.z, f.c, f.v, k.irq, k.fiq);
    hide FlagBits, MaskBits;
  }

  lemma FieldSum(f: Flags, k: Masks)
    ensures FlagBits(f) + MaskBits(k) == StatusField(f, k) * 0x0400_0000
  {
  }

  lemma FieldParts(s: int, n: bool, z: bool, c: bool, v: bool, irq: bool, fiq: bool)
    requires s == (if n then 32 else 0) + (if z then 16 else 0) + (if c then 8 else 0)
               + (if v then 4 else 0) + (if irq then 2 else 0) + (if fiq then 1 else 0)
    ensures (s >= 32 <==> n) && s < 64
    ensures (s / 16 % 2 == 1 <==> z) && (s / 8 % 2 == 1 <==> c) && (s / 4 % 2 == 1 <==> v)
    ensures (s / 2 % 2 == 1 <==> irq) && (s % 2 == 1 <==> fiq)
  {
    hide *;
    assert s / 2 == (if n then 16 else 0) + (if z then 8 else 0) + (if c then 4 else 0)
                  + (if v then 2 else 0) + (if irq then 1 else 0);
    assert s / 4 == (if n then 8 else 0) + (if z then 4 else 0) + (if c then 2 else 0) + (if v then 1 else 0);
    assert s / 8 == (if n then 4 else 0) + (if z then 2 else 0) + (if c then 1 else 0);
    assert s / 16 == (if n then 2 else 0) + (if z then 1 else 0);
  }

  lemma StatusDecodes(field: int, m: Mode, f: Flags, k: Masks)
    requires 0 <= field < 0x0400_0000 && field % 4 == 0
    ensures var w := field + ModeBits(m) + FlagBits(f) + MaskBits(k);
            && 0 <= w < 0x1_0000_0000
            && AddressField(w) == field && ModeFrom(w) == m && FlagsFrom(w) == f && MasksFrom(w) == k
  {
    hide StatusField, FlagBits, MaskBits, AddressField, FlagsFrom, MasksFrom;
    var status := StatusField(f, k);
    FieldDecodes(f, k);
    BitsDecode(f, k, field + ModeBits(m));
    AddressDecodes(status, field, ModeBits(m));
  }

  lemma BitsDecode(f: Flags, k: Masks, rest: nat)
    requires rest < 0x0400_0000
    ensures var w := StatusField(f, k) * 0x0400_0000 + rest;
            && 0 <= w < 0x1_0000_0000
            && FlagsFrom(w) == f && MasksFrom(w) == k
  {
    hide StatusField, TopBit;
    FieldDecodes(f, k);
    HighBits(StatusField(f, k) * 0x0400_0000 + rest, StatusField(f, k), rest);
  }

  lemma AddressDecodes(status: nat, field: nat, low: nat)
    requires field < 0x0400_0000 && field % 4 == 0 && low < 4
    ensures AddressField(status * 0x0400_0000 + field + low) == field
    ensures (status * 0x0400_0000 + field + low) % 4 == low
  {
    assert (status * 0x0400_0000 + field + low) / 4 == status * 0x0100_0000 + field / 4;
  }

  /** Subtracting the offset again recovers the program counter and status, unless the address field
      wrapped to zero: then the borrow always damages the status. */
  lemma OffsetUndone(pc: Word, offset: Word, m: Mode, f: Flags, k: Masks)
    requires AddressField(pc) == pc && (offset == 0 || offset == 4)
    ensures var w := Wrap(PcAndStatus(pc, offset, m, f, k) - offset);
            && ModeFrom(w) == m
            && (AddressField(w) == pc && FlagsFrom(w) == f && MasksFrom(w) == k
                <==> offset == 0 || AddressField(pc + 4) != 0)
  {
    hide FlagBits, MaskBits, FlagsFrom, MasksFrom, ModeFrom, ModeBits, AddressField, Wrap;
    FieldAfter(pc);
    StatusDecodes(pc, m, f, k);
    WrapWord(pc + ModeBits(m) + FlagBits(f) + MaskBits(k));
    if offset == 4 && AddressField(pc + 4) == 0 {
      BorrowDamagesStatus(m, f, k);
    }
  }

  lemma FieldAfter(pc: Word)
    requires AddressField(pc) == pc
    ensures pc < 0x0400_0000 && pc % 4 == 0
    ensures AddressField(pc + 4) == 0 || AddressField(pc + 4) == pc + 4
  {
  }

  lemma BorrowDamagesStatus(m: Mode, f: Flags, k: Masks)
    ensures var w := Wrap(ModeBits(m) + FlagBits(f) + MaskBits(k) - 4);
            ModeFrom(w) == m && MasksFrom(w) != k
  {
    hide StatusField, FlagBits, MaskBits;
    var status := StatusField(f, k);
    var borrowed := if status == 0 then 63 else status - 1;
    FieldDecodes(f, k);
    HighBits(Wrap(ModeBits(m) + FlagBits(f) + MaskBits(k) - 4), borrowed, 0x03ff_fffc + ModeBits(m));
    AddressDecodes(borrowed, 0x03ff_fffc, ModeBits(m));
  }

  /** An exception into a different mode followed by the prescribed return restores the mode, flags,
      masks, program counter and every visible register, whatever a handler that preserves its own r14
      and the registers that are not its mode's does in between; unless the return address wrapped to
      zero and the return subtracts from it, when the masks always come back wrong. */
  lemma ExceptionReturn(a: Cpu, e: Exception, h: Cpu)
    requires a.Valid() && |h.bank| == CELLS
    requires h.mode == ModeDuring(e) && h.Read(14) == a.Take(e).Read(14)
    requires forall c | 0 <= c < CELLS && c != 15 && !PrivateTo(h.mode, c) :: h.bank[c] == a.bank[c]
    ensures var back := Return(h, PcOffsetDuring(e));
            && back.mode == a.mode
            && (back.flags == a.flags && back.masks == a.masks && back.bank[15] == a.bank[15]
                <==> PcOffsetDuring(e) == 0 || AddressField(a.bank[15] + 4) != 0)
            && (a.mode != ModeDuring(e) ==> forall n | 0 <= n < 15 :: back.Read(n) == a.Read(n))
  {
    hide PcAndStatus, AddressField, FlagsFrom, MasksFrom, ModeFrom, Wrap;
    OffsetUndone(a.bank[15], PcOffsetDuring(e), a.mode, a.flags, a.masks);
    assert a.Take(e).Read(14) == a.PcStatus(PcOffsetDuring(e));
  }
}
