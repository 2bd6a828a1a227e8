/** The ARM's data processing instructions. Carry and overflow are found by comparing top bits, as
    Numeric/Carry.hpp does; the specification states them as facts about unsigned and signed integers. */
module ARMDataProcessing {
  import opened ARMRegisters
  import opened ARMBarrelShifter

  datatype Operation = AND | EOR | SUB | RSB | ADD | ADC | SBC | RSC | TST | TEQ | CMP | CMN | ORR | MOV | BIC | MVN


  datatype Operand2 =
    | Immediate(value: Word, rotate: nat)
    | ByConstant(register: Index, shift: ShiftType, amount: nat)
    | ByRegister(register: Index, shift: ShiftType, amountRegister: Index)

  datatype DataProcessing = DataProcessing(
    operation: Operation, setFlags: bool, destination: Index, operand1: Index, operand2: Operand2)

  predicate IsLogical(op: Operation) {
    op.AND? || op.EOR? || op.TST? || op.TEQ? || op.ORR? || op.MOV? || op.BIC? || op.MVN?
  }

  predicate IsComparison(op: Operation) {
    op.TST? || op.TEQ? || op.CMP? || op.CMN?
  }

  predicate IsAddition(op: Operation) {
    op.ADD? || op.ADC? || op.CMN?
  }

  predicate IsReversed(op: Operation) {
    op.RSB? || op.RSC?
  }

  predicate TakesBorrow(op: Operation) {
    op.SBC? || op.RSC?
  }

  // Numeric/Carry.hpp, with bit 31 of each argument as a boolean.

  predicate CarriedOut(subtract: bool, lhs: Word, rhs: Word, result: Word) {
    var adjusted := TopBit(rhs) != subtract;
    var carry := (TopBit(lhs) || adjusted) && ((TopBit(lhs) && adjusted) || !TopBit(result));
    carry != subtract
  }

  function OverflowOf(subtract: bool, lhs: Word, rhs: Word, result: Word): Word {
    var outputChanged := TopBit(result) != TopBit(lhs);
    var inputDiffered := TopBit(lhs) != TopBit(rhs);
    if outputChanged && inputDiffered == subtract then NEGATIVE else 0
  }

  // The specification.

  function Signed(w: Word): int {
    if TopBit(w) then w - 0x1_0000_0000 else w
  }

  function Unit(b: bool): int {
    if b then 1 else 0
  }

  /** The exact sum or difference an arithmetic operation computes. */
  function Exact(op: Operation, x: int, y: int, carry: bool): int {
    match op
    case ADC => x + y + Unit(carry)
    case SUB => x - y
    case CMP => x - y
    case SBC => x - y - 1 + Unit(carry)
    case RSB => y - x
    case RSC => y - x - 1 + Unit(carry)
    case _ => x + y
  }

  predicate IsSubtraction(op: Operation) {
    op.SUB? || op.CMP? || op.SBC? || op.RSB? || op.RSC?
  }

  function Logical(op: Operation, x: Word, y: Word): Word {
    match op
    case AND => ((x as bv32) & (y as bv32)) as int
    case TST => ((x as bv32) & (y as bv32)) as int
    case EOR => ((x as bv32) ^ (y as bv32)) as int
    case TEQ => ((x as bv32) ^ (y as bv32)) as int
    case ORR => ((x as bv32) | (y as bv32)) as int
    case BIC => ((x as bv32) & !(y as bv32)) as int
    case MVN => 0xffff_ffff - y
    case _ => y
  }

  function Result(op: Operation, x: Word, y: Word, carry: bool): Word {
    if IsLogical(op) then Logical(op, x, y) else Wrap(Exact(op, x, y, carry))
  }

  /** N and Z describe the result; C is the carry, or for subtractions the absence of a borrow, or the
      shifter's carry; V is set when the signed result is out of range. */
  function FlagsAfter(op: Operation, x: Word, y: Word, f: Flags, shiftCarry: bool): Flags {
    var result := Result(op, x, y, f.c);
    if IsLogical(op) then Flags(TopBit(result), result == 0, shiftCarry, f.v)
    else
      var unsigned, signed := Exact(op, x, y, f.c), Exact(op, Signed(x), Signed(y), f.c);
      Flags(TopBit(result), result == 0,
            if IsSubtraction(op) then unsigned >= 0 else unsigned >= 0x1_0000_0000,
            !(-0x8000_0000 <= signed < 0x8000_0000))
  }

  function PcOffset(i: DataProcessing): Word {
    if i.operand2.ByRegister? then 8 else 4
  }

  function Operand1Of(i: DataProcessing, a: Cpu): Word
    requires |a.bank| == CELLS
  {
    if i.operand1 == 15 then AddressField(a.bank[15] + PcOffset(i)) else a.Read(i.operand1)
  }

  /** R15 reads with its status bits here, but without them as a shift amount. */
  function Operand2Of(i: DataProcessing, a: Cpu): Shifted
    requires |a.bank| == CELLS
  {
    match i.operand2
    case Immediate(value, rotate) => ShiftBy(RotateRight, false, value, rotate, a.flags.c)
    case ByConstant(r, shift, amount) =>
      ShiftBy(shift, true, if r == 15 then a.PcStatus(4) else a.Read(r), amount, a.flags.c)
    case ByRegister(r, shift, s) =>
      ShiftBy(shift, false, if r == 15 then a.PcStatus(8) else a.Read(r),
              (if s == 15 then AddressField(a.bank[15] as int + 4) else a.Read(s)) % 256, a.flags.c)
  }

  function Stored(i: DataProcessing, a: Cpu, result: Word): (b: Cpu)
    requires |a.bank| == CELLS
    ensures |b.bank| == CELLS && b.flags == a.flags && b.mode == a.mode
  {
    if IsComparison(i.operation) then a
    else if i.destination == 15 then a.SetPc(result)
    else a.Write(i.destination, result)
  }

  function Execute(i: DataProcessing, a: Cpu): (b: Cpu)
    requires |a.bank| == CELLS
    ensures |b.bank| == CELLS
  {
    var x, y := Operand1Of(i, a), Operand2Of(i, a);
    var result := Result(i.operation, x, y.value, a.flags.c);
    var stored := Stored(i, a, result);
    if !i.setFlags then stored
    else if i.destination == 15 then stored.SetStatus(result)
    else stored.(flags := FlagsAfter(i.operation, x, y.value, a.flags, y.carry))
  }

  // Top-bit tests against integers.

  lemma AdditionFlags(x: Word, y: Word, carry: bool)
    ensures var result := Wrap(x + y + Unit(carry));
            && (CarriedOut(false, x, y, result) <==> x + y + Unit(carry) >= 0x1_0000_0000)
            && (TopBit(OverflowOf(false, x, y, result))
                <==> !(-0x8000_0000 <= Signed(x) + Signed(y) + Unit(carry) < 0x8000_0000))
  {
  }

  lemma SubtractionFlags(x: Word, y: Word, borrow: bool)
    ensures var result := Wrap(x - y - Unit(borrow));
            && (CarriedOut(true, x, y, result) <==> x - y - Unit(borrow) < 0)
            && (TopBit(OverflowOf(true, x, y, result))
                <==> !(-0x8000_0000 <= Signed(x) - Signed(y) - Unit(borrow) < 0x8000_0000))
  {
  }

  /** Storing a result and changing the flags do not affect one another. */
  lemma StoredApart(i: DataProcessing, a: Cpu, f: Flags, result: Word)
    requires |a.bank| == CELLS
    ensures Stored(i, a.(flags := f), result) == Stored(i, a, result).(flags := f)
  {
    hide Cell, AddressField;
  }

  /** The shifter's carry comes through only where there is no other. */
  lemma FlagsInParts(op: Operation, x: Word, y: Word, f: Flags, shiftCarry: bool)
    ensures var after, result := FlagsAfter(op, x, y, f, f.c), Result(op, x, y, f.c);
            FlagsAfter(op, x, y, f, shiftCarry)
              == Flags(TopBit(result), result == 0, if IsLogical(op) then shiftCarry else after.c, after.v)
            && (IsLogical(op) ==> after.c == f.c && after.v == f.v)
  {
    hide Result, Exact, Signed;
  }

  lemma ReversedOperands(op: Operation)
    requires IsSubtraction(op)
    ensures forall carry: bool, x: int, y: int ::
              Exact(op, x, y, carry) == (if IsReversed(op) then y - x else x - y) - Unit(TakesBorrow(op) && !carry)
  {
  }

  class Executor {
    const registers: Registers

    ghost predicate Valid() {
      registers.Valid()
    }

    constructor ()
      ensures Valid() && fresh(registers)
    {
      registers := new Registers();
    }

    /** The destination, operand and flag updates of perform(DataProcessing), in the source's order. */
    method Perform(i: DataProcessing)
      requires Valid()
      modifies registers, registers.user, registers.fiq, registers.irq, registers.supervisor, registers.active
      ensures registers.Abstract() == Execute(i, old(registers.Abstract()))
    {
      hide Registers.Bank, Registers.Abstract, FlagsAfter, Result, Operand1Of, Operand2Of, Stored;
      var op := i.operation;
      var operand1 := ReadOperand1(i);
      var operand2, rotateCarry := DecodeShift(i);
      ghost var a := registers.Abstract();
      FlagsInParts(op, operand1, operand2, a.flags, rotateCarry);
      var conditions := Calculate(i, operand1, operand2);
      StoredApart(i, a, registers.Abstract().flags, conditions);
      StoreResult(i, conditions);
      StoreFlags(i, conditions, rotateCarry);
    }

    method StoreResult(i: DataProcessing, conditions: Word)
      requires Valid()
      modifies registers.active
      ensures registers.Abstract() == Stored(i, old(registers.Abstract()), conditions)
    {
      hide Registers.Bank, AddressField;
      if !IsComparison(i.operation) {
        if i.destination == 15 {
          registers.SetPc(conditions);
        } else {
          registers.SetActive(i.destination, conditions);
        }
      }
    }

    method StoreFlags(i: DataProcessing, conditions: Word, rotateCarry: bool)
      requires Valid()
      modifies registers, registers.user, registers.fiq, registers.irq, registers.supervisor, registers.active
      ensures var was := old(registers.Abstract());
              var c := if IsLogical(i.operation) then rotateCarry else was.flags.c;
              registers.Abstract() ==
                if !i.setFlags then was
                else if i.destination == 15 then was.SetStatus(conditions)
                else was.(flags := Flags(TopBit(conditions), conditions == 0, c, was.flags.v))
    {
      hide Registers.Bank;
      if i.setFlags {
        if i.destination == 15 {
          registers.SetStatus(conditions);
        } else {
          registers.SetNZ(conditions);
          if IsLogical(i.operation) {
            registers.SetC(Unit(rotateCarry));
          }
        }
      }
    }

    method ReadOperand1(i: DataProcessing) returns (value: Word)
      requires Valid()
      ensures value == Operand1Of(i, registers.Abstract())
    {
      hide AddressField;
      registers.BankHolds();
      if i.operand1 == 15 {
        value := AddressField(registers.active[15] + PcOffset(i));
      } else {
        value := registers.Reg(false, i.operand1);
      }
    }

    method DecodeShift(i: DataProcessing) returns (value: Word, carry: bool)
      requires Valid()
      ensures Shifted(value, carry) == Operand2Of(i, registers.Abstract())
    {
      hide AddressField, ShiftBy, PcAndStatus;
      var c := registers.carryFlag != 0;
      match i.operand2 {
        case Immediate(v, rotate) =>
          value, carry := ShiftRotateRight(false, v, rotate, c);
        case ByConstant(r, shift, amount) =>
          var source := ReadShifted(r, 4);
          value, carry := Shift(shift, true, source, amount, c);
        case ByRegister(r, shift, s) =>
          var source := ReadShifted(r, 8);
          var amount: Word;
          if s == 15 {
            registers.BankHolds();
            amount := AddressField(registers.active[15] as int + 4);
          } else {
            amount := registers.Reg(false, s);
          }
          value, carry := Shift(shift, false, source, amount % 256, c);
      }
    }

    method ReadShifted(r: Index, offset: Word) returns (value: Word)
      requires Valid()
      ensures var a := registers.Abstract(); value == if r == 15 then a.PcStatus(offset) else a.Read(r)
    {
      hide PcAndStatus;
      if r == 15 {
        registers.PcStatusMatches(offset);
        value := registers.PcStatus(offset);
      } else {
        value := registers.Reg(false, r);
      }
    }

    /** The operation itself, with C and V where it is arithmetic. */
    method Calculate(i: DataProcessing, operand1: Word, operand2: Word) returns (conditions: Word)
      requires Valid()
      modifies registers
      ensures var was := old(registers.Abstract());
              var after := FlagsAfter(i.operation, operand1, operand2, was.flags, was.flags.c);
              && conditions == Result(i.operation, operand1, operand2, was.flags.c)
              && registers.Abstract() ==
                   if i.setFlags then was.(flags := was.flags.(c := after.c, v := after.v)) else was
    {
      hide Registers.Bank, Logical, Exact, Signed, TopBit, Wrap;
      if IsLogical(i.operation) {
        conditions := Logical(i.operation, operand1, operand2);
      } else if IsAddition(i.operation) {
        conditions := Add(i.operation, i.setFlags, operand1, operand2);
      } else if IsReversed(i.operation) {
        conditions := Subtract(i.operation, i.setFlags, operand2, operand1);
        ReversedOperands(i.operation);
      } else {
        conditions := Subtract(i.operation, i.setFlags, operand1, operand2);
        ReversedOperands(i.operation);
      }
    }

    method Add(op: Operation, setFlags: bool, lhs: Word, rhs: Word) returns (conditions: Word)
      requires Valid() && IsAddition(op)
      modifies registers
      ensures conditions == Wrap(Exact(op, lhs, rhs, old(registers.Abstract()).flags.c))
      ensures var was := old(registers.Abstract());
              var signed := Exact(op, Signed(lhs), Signed(rhs), was.flags.c);
              registers.Abstract() ==
                if !setFlags then was
                else was.(flags := was.flags.(c := Exact(op, lhs, rhs, was.flags.c) >= 0x1_0000_0000,
                                              v := !(-0x8000_0000 <= signed < 0x8000_0000)))
    {
      hide Registers.Bank, Signed;
      var carry := op == ADC && registers.carryFlag != 0;
      conditions := Wrap(lhs + rhs);
      if op == ADC {
        conditions := Wrap(conditions + Unit(registers.carryFlag != 0));
      }
      assert conditions == Wrap(lhs + rhs + Unit(carry));
      if setFlags {
        SetFlagsAfterAddition(lhs, rhs, conditions, carry);
      }
    }

    /** The sub lambda: C and V describe lhs - rhs, whichever of them was the first operand. */
    method Subtract(op: Operation, setFlags: bool, lhs: Word, rhs: Word) returns (conditions: Word)
      requires Valid() && IsSubtraction(op)
      modifies registers
      ensures var was := old(registers.Abstract());
              var borrow := TakesBorrow(op) && !was.flags.c;
              var signed := Signed(lhs) - Signed(rhs) - Unit(borrow);
              && conditions == Wrap(lhs - rhs - Unit(borrow))
              && registers.Abstract() ==
                   if !setFlags then was
                   else was.(flags := was.flags.(c := lhs - rhs - Unit(borrow) >= 0,
                                                 v := !(-0x8000_0000 <= signed < 0x8000_0000)))
    {
      hide Registers.Bank, Signed;
      ghost var borrow := TakesBorrow(op) && registers.carryFlag == 0;
      conditions := Wrap(lhs - rhs);
      if TakesBorrow(op) {
        conditions := Wrap(conditions + Unit(registers.carryFlag != 0) - 1);
      }
      assert conditions == Wrap(lhs - rhs - Unit(borrow));
      if setFlags {
        SetFlagsAfterSubtraction(lhs, rhs, conditions, borrow);
      }
    }

    method SetFlagsAfterAddition(lhs: Word, rhs: Word, result: Word, ghost carry: bool)
      requires Valid() && result == Wrap(lhs + rhs + Unit(carry))
      modifies registers
      ensures var was := old(registers.Abstract());
              registers.Abstract() == was.(flags := was.flags.(
                c := lhs + rhs + Unit(carry) >= 0x1_0000_0000,
                v := !(-0x8000_0000 <= Signed(lhs) + Signed(rhs) + Unit(carry) < 0x8000_0000)))
    {
      hide Registers.Bank, CarriedOut, OverflowOf, Wrap;
      AdditionFlags(lhs, rhs, carry);
      registers.SetC(Unit(CarriedOut(false, lhs, rhs, result)));
      registers.SetV(OverflowOf(false, lhs, rhs, result));
    }

    method SetFlagsAfterSubtraction(lhs: Word, rhs: Word, result: Word, ghost borrow: bool)
      requires Valid() && result == Wrap(lhs - rhs - Unit(borrow))
      modifies registers
      ensures var was := old(registers.Abstract());
              registers.Abstract() == was.(flags := was.flags.(
                c := lhs - rhs - Unit(borrow) >= 0,
                v := !(-0x8000_0000 <= Signed(lhs) - Signed(rhs) - Unit(borrow) < 0x8000_0000)))
    {
      hide Registers.Bank, CarriedOut, OverflowOf, Wrap;
      SubtractionFlags(lhs, rhs, borrow);
      registers.SetC(Unit(!CarriedOut(true, lhs, rhs, result)));
      registers.SetV(OverflowOf(true, lhs, rhs, result));
    }
  }

  // What the flags are for.

  /** Whatever its operands, CMP leaves the conditions to say exactly how they compare, as signed and as
      unsigned integers. */
  lemma CompareThenTest(i: DataProcessing, a: Cpu)
    requires |a.bank| == CELLS && i.operation == CMP && i.setFlags && i.destination != 15
    ensures var f, x, y := Execute(i, a).flags, Operand1Of(i, a), Operand2Of(i, a).value;
            && (Holds(EQ, f) <==> x == y) && (Holds(NE, f) <==> x != y)
            && (Holds(CS, f) <==> x >= y) && (Holds(CC, f) <==> x < y)
            && (Holds(HI, f) <==> x > y) && (Holds(LS, f) <==> x <= y)
            && (Holds(GE, f) <==> Signed(x) >= Signed(y)) && (Holds(LT, f) <==> Signed(x) < Signed(y))
            && (Holds(GT, f) <==> Signed(x) > Signed(y)) && (Holds(LE, f) <==> Signed(x) <= Signed(y))
    ensures Execute(i, a) == a.(flags := Execute(i, a).flags)
  {
    var y := Operand2Of(i, a);
    ComparedFlags(Operand1Of(i, a), y.value, a.flags, y.carry);
    hide ShiftBy, PcAndStatus, AddressField, Operand1Of, Operand2Of, FlagsAfter, Result, Signed, Holds;
  }

  lemma ComparedFlags(x: Word, y: Word, before: Flags, shiftCarry: bool)
    ensures var f := FlagsAfter(CMP, x, y, before, shiftCarry);
            && (Holds(EQ, f) <==> x == y) && (Holds(NE, f) <==> x != y)
            && (Holds(CS, f) <==> x >= y) && (Holds(CC, f) <==> x < y)
            && (Holds(HI, f) <==> x > y) && (Holds(LS, f) <==> x <= y)
            && (Holds(GE, f) <==> Signed(x) >= Signed(y)) && (Holds(LT, f) <==> Signed(x) < Signed(y))
            && (Holds(GT, f) <==> Signed(x) > Signed(y)) && (Holds(LE, f) <==> Signed(x) <= Signed(y))
  {
    WrappedDifference(x, y);
    hide Wrap;
  }

  lemma WrappedDifference(x: Word, y: Word)
    ensures Wrap(x - y) == if x >= y then x - y else x - y + 0x1_0000_0000
  {
  }

  /** The number held in words, least significant first. */
  function Number(words: seq<Word>): nat {
    if words == [] then 0 else words[0] + 0x1_0000_0000 * Number(words[1..])
  }

  /** The weight of a carry or borrow out of n words. */
  function Beyond(carried: bool, n: nat): nat {
    if !carried then 0 else if n == 0 then 1 else 0x1_0000_0000 * Beyond(true, n - 1)
  }

  function Step(op: Operation, d: Index, x: Index, y: Index): DataProcessing {
    DataProcessing(op, true, d, x, ByConstant(y, LogicalLeft, 0))
  }

  /** A chain over registers d, x and y: each pair of words is loaded and then combined, by the first
      operation for the first pair and by the second, which takes the carry into account, for the rest. */
  function Chain(first: Operation, rest: Operation, xs: seq<Word>, ys: seq<Word>, a: Cpu,
                 d: Index, x: Index, y: Index): (r: (Cpu, seq<Word>))
    requires |a.bank| == CELLS && |xs| == |ys|
    ensures |r.0.bank| == CELLS && |r.1| == |xs|
    decreases |xs|
  {
    if xs == [] then (a, [])
    else
      var b := Execute(Step(first, d, x, y), a.Write(x, xs[0]).Write(y, ys[0]));
      var (end, tail) := Chain(rest, rest, xs[1..], ys[1..], b, d, x, y);
      (end, [b.Read(d)] + tail)
  }

  lemma StepExecutes(op: Operation, a: Cpu, d: Index, x: Index, y: Index, p: Word, q: Word)
    requires |a.bank| == CELLS && x != 15 && y != 15 && d != 15 && x != y && !IsLogical(op) && !IsComparison(op)
    ensures var b := Execute(Step(op, d, x, y), a.Write(x, p).Write(y, q));
            b.Read(d) == Wrap(Exact(op, p, q, a.flags.c))
            && b.flags.c == if IsSubtraction(op) then Exact(op, p, q, a.flags.c) >= 0
                            else Exact(op, p, q, a.flags.c) >= 0x1_0000_0000
  {
    hide Exact, Wrap, PcAndStatus, AddressField;
    var loaded := a.Write(x, p).Write(y, q);
    var i := Step(op, d, x, y);
    assert Operand1Of(i, loaded) == p;
    assert Operand2Of(i, loaded).value == q;
  }

  lemma SumWraps(exact: int)
    requires 0 <= exact < 0x2_0000_0000
    ensures exact == Wrap(exact) + (if exact >= 0x1_0000_0000 then 0x1_0000_0000 else 0)
  {
  }

  lemma DifferenceWraps(exact: int)
    requires -0x1_0000_0000 <= exact < 0x1_0000_0000
    ensures exact == Wrap(exact) - (if exact < 0 then 0x1_0000_0000 else 0)
  {
  }

  /** ADDS then ADCS, over any number of words, computes their sum; C is the carry out of the top word. */
  lemma {:induction false} AdditionChain(
      first: Operation, xs: seq<Word>, ys: seq<Word>, a: Cpu, d: Index, x: Index, y: Index)
    requires |a.bank| == CELLS && |xs| == |ys| && x != 15 && y != 15 && d != 15 && x != y
    requires first == ADC || (first == ADD && xs != [])
    ensures var (end, sum) := Chain(first, ADC, xs, ys, a, d, x, y);
            Number(sum) + Beyond(end.flags.c, |xs|) == Number(xs) + Number(ys) + Unit(first == ADC && a.flags.c)
    decreases |xs|
  {
    hide Execute, Wrap;
    if xs != [] {
      StepExecutes(first, a, d, x, y, xs[0], ys[0]);
      SumWraps(Exact(first, xs[0], ys[0], a.flags.c));
      var b := Execute(Step(first, d, x, y), a.Write(x, xs[0]).Write(y, ys[0]));
      AdditionChain(ADC, xs[1..], ys[1..], b, d, x, y);
      assert Chain(first, ADC, xs, ys, a, d, x, y).1[1..] == Chain(ADC, ADC, xs[1..], ys[1..], b, d, x, y).1;
    }
  }

  /** SUBS then SBCS likewise computes the difference; C is set exactly when nothing was borrowed. */
  lemma {:induction false} SubtractionChain(
      first: Operation, xs: seq<Word>, ys: seq<Word>, a: Cpu, d: Index, x: Index, y: Index)
    requires |a.bank| == CELLS && |xs| == |ys| && x != 15 && y != 15 && d != 15 && x != y
    requires first == SBC || (first == SUB && xs != [])
    ensures var (end, difference) := Chain(first, SBC, xs, ys, a, d, x, y);
            Number(difference) - Beyond(!end.flags.c, |xs|)
            == Number(xs) - Number(ys) - Unit(first == SBC && !a.flags.c)
    decreases |xs|
  {
    hide Execute, Wrap;
    if xs != [] {
      StepExecutes(first, a, d, x, y, xs[0], ys[0]);
      DifferenceWraps(Exact(first, xs[0], ys[0], a.flags.c));
      var b := Execute(Step(first, d, x, y), a.Write(x, xs[0]).Write(y, ys[0]));
      SubtractionChain(SBC, xs[1..], ys[1..], b, d, x, y);
      assert Chain(first, SBC, xs, ys, a, d, x, y).1[1..] == Chain(SBC, SBC, xs[1..], ys[1..], b, d, x, y).1;
    }
  }

  /** MOVS PC,R14 and SUBS PC,R14,#4, the returns an exception handler is to use, are data processing
      instructions that do what Return says. */
  lemma ReturnInstructions(a: Cpu)
    requires |a.bank| == CELLS
    ensures Execute(DataProcessing(MOV, true, 15, 0, ByConstant(14, LogicalLeft, 0)), a) == Return(a, 0)
    ensures Execute(DataProcessing(SUB, true, 15, 14, Immediate(4, 0)), a) == Return(a, 4)
  {
    hide AddressField, PcAndStatus, FlagsFrom, MasksFrom, ModeFrom, Wrap, Cpu.SetStatus, Cpu.SetPc, FlagsAfter;
    var move := DataProcessing(MOV, true, 15, 0, ByConstant(14, LogicalLeft, 0));
    assert Operand2Of(move, a).value == a.Read(14);
    assert Wrap(a.Read(14)) == a.Read(14) by {
      WrapWord(a.Read(14));
    }
    var subtract := DataProcessing(SUB, true, 15, 14, Immediate(4, 0));
    assert Operand1Of(subtract, a) == a.Read(14) && Operand2Of(subtract, a).value == 4;
  }
}
