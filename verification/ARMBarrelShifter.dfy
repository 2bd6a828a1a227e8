/** The ARM barrel shifter: one closed-form step per shift type, against repeated one-bit shifts. */
module ARMBarrelShifter {
  import opened ARMRegisters
  import opened Arithmetic

  datatype ShiftType = LogicalLeft | LogicalRight | ArithmeticRight | RotateRight

  datatype Shifted = Shifted(value: Word, carry: bool)

  predicate Bit(x: Word, n: nat) {
    x / Pow2(n) % 2 == 1
  }

  // The specification.

  /** A shift by one place; carry is the bit shifted out. */
  function ShiftOnce(t: ShiftType, x: Word): Shifted {
    match t
    case LogicalLeft => Shifted(Wrap(2 * x), TopBit(x))
    case LogicalRight => Shifted(x / 2, x % 2 == 1)
    case ArithmeticRight => Shifted(x / 2 + (if TopBit(x) then NEGATIVE else 0), x % 2 == 1)
    case RotateRight => Shifted(x / 2 + x % 2 * NEGATIVE, x % 2 == 1)
  }

  function ShiftRepeatedly(t: ShiftType, x: Word, n: nat, carry: bool): Shifted {
    if n == 0 then Shifted(x, carry) else ShiftOnce(t, ShiftRepeatedly(t, x, n - 1, carry).value)
  }

  /** Immediate counts of zero mean thirty-two for the right shifts, and a rotation through carry for RotateRight. */
  function ShiftBy(t: ShiftType, immediate: bool, x: Word, amount: nat, carry: bool): Shifted {
    if amount == 0 && immediate && (t == LogicalRight || t == ArithmeticRight) then ShiftRepeatedly(t, x, 32, carry)
    else if amount == 0 && immediate && t == RotateRight then
      Shifted(x / 2 + (if carry then NEGATIVE else 0), x % 2 == 1)
    else ShiftRepeatedly(t, x, amount, carry)
  }

  // Arithmetic.

  lemma Pow2Splits(n: nat, k: nat)
    requires n <= k
    ensures Pow2(n) * Pow2(k - n) == Pow2(k)
  {
    Pow2Sum(n, k - n);
  }

  lemma Pow2Values()
    ensures Pow2(0) == 1 && Pow2(1) == 2 && Pow2(31) == NEGATIVE && Pow2(32) == 0x1_0000_0000
  {
    assert Pow2(8) == 0x100;
    assert Pow2(16) == 0x1_0000;
    assert Pow2(24) == 0x100_0000;
  }

  lemma Spread(high: int, q: int, low: int, p: int)
    ensures (high * q + low) * p == high * (p * q) + low * p
  {
  }

  /** Splitting off one more bit: the quotient halves, and the bit joins the remainder. */
  lemma Halve(x: nat, n: nat)
    ensures x / Pow2(n + 1) == x / Pow2(n) / 2
    ensures x % Pow2(n + 1) == x / Pow2(n) % 2 * Pow2(n) + x % Pow2(n)
  {
    var p := Pow2(n);
    Doubles(n);
    hide Pow2;
    FloorDivides(x, p);
    HalvedParts(x / p, p, x % p);
    DivisionIsUnique(x, 2 * p, x / p / 2, x / p % 2 * p + x % p);
  }

  lemma HalvedParts(a: int, p: int, r: int)
    requires p >= 1 && 0 <= r < p
    ensures a * p + r == a / 2 * (2 * p) + (a % 2 * p + r) && 0 <= a % 2 * p + r < 2 * p
  {
    Spread(a / 2, 2, a % 2, p);
  }

  lemma {:induction false} QuotientBound(x: Word, n: nat)
    ensures 0 <= x / Pow2(n) <= x
    ensures n <= 32 ==> x / Pow2(n) < Pow2(32 - n)
  {
    if n == 0 {
      Pow2Values();
    } else {
      QuotientBound(x, n - 1);
      Halve(x, n - 1);
    }
  }

  lemma {:induction false} WordQuotient(x: Word, n: nat)
    requires n >= 32
    ensures x / Pow2(n) == 0
  {
    if n == 32 {
      Pow2Values();
    } else {
      WordQuotient(x, n - 1);
      Halve(x, n - 1);
    }
  }

  // The four shift types in closed form.

  function Right(x: Word, n: nat): Word {
    QuotientBound(x, n);
    x / Pow2(n)
  }

  lemma {:induction false} LogicalRightClosed(x: Word, n: nat, carry: bool)
    requires n > 0
    ensures ShiftRepeatedly(LogicalRight, x, n, carry) == Shifted(Right(x, n), Bit(x, n - 1))
  {
    if n > 1 {
      LogicalRightClosed(x, n - 1, carry);
    }
    Halve(x, n - 1);
  }

  /** A product of a value below 2^a by 2^b, itself below 2^(a + b). */
  lemma ProductBound(low: nat, a: nat, b: nat)
    requires low < Pow2(a)
    ensures 0 <= low * Pow2(b) <= Pow2(a + b) - Pow2(b)
  {
    Pow2Splits(a, a + b);
    Monotonic(low, Pow2(a) - 1, Pow2(b));
  }

  function LeftValue(x: Word, n: nat): Word
    requires n <= 32
  {
    ProductBound(x % Pow2(32 - n), 32 - n, n);
    Pow2Values();
    x % Pow2(32 - n) * Pow2(n)
  }

  lemma LeftStep(x: Word, n: nat)
    requires n < 32
    ensures ShiftOnce(LogicalLeft, LeftValue(x, n)) == Shifted(LeftValue(x, n + 1), Bit(x, 31 - n))
  {
    hide Pow2;
    Halve(x, 31 - n);
    LeftStepSplit(n, x / Pow2(31 - n) % 2, x % Pow2(31 - n));
  }

  /** A top bit and the bits below it, moved up by n places and then by one more. */
  lemma LeftStepSplit(n: nat, b: int, low: int)
    requires n < 32 && 0 <= b < 2 && 0 <= low < Pow2(31 - n)
    ensures 0 <= low * Pow2(n) < NEGATIVE
    ensures (b * Pow2(31 - n) + low) * Pow2(n) == b * NEGATIVE + low * Pow2(n)
    ensures low * Pow2(n + 1) == 2 * (low * Pow2(n))
  {
    hide Pow2;
    Pow2Splits(n, 31);
    Pow2Values();
    Doubles(n);
    Spread(b, Pow2(31 - n), low, Pow2(n));
    ProductBound(low, 31 - n, n);
  }

  lemma {:induction false} LeftClosed(x: Word, n: nat, carry: bool)
    requires 0 < n <= 32
    ensures ShiftRepeatedly(LogicalLeft, x, n, carry) == Shifted(LeftValue(x, n), Bit(x, 32 - n))
  {
    hide Pow2, LeftValue, Bit, ShiftOnce;
    if n > 1 {
      LeftClosed(x, n - 1, carry);
    } else {
      LeftEnds(x);
    }
    LeftStep(x, n - 1);
  }

  lemma LeftEnds(x: Word)
    ensures LeftValue(x, 0) == x && LeftValue(x, 32) == 0 && (Bit(x, 0) <==> x % 2 == 1)
  {
    hide Pow2;
    Pow2Values();
  }

  lemma {:induction false} LeftBeyond(x: Word, n: nat, carry: bool)
    requires n > 32
    ensures ShiftRepeatedly(LogicalLeft, x, n, carry) == Shifted(0, false)
  {
    hide Pow2, LeftValue, Bit;
    if n == 33 {
      LeftClosed(x, 32, carry);
      LeftEnds(x);
    } else {
      LeftBeyond(x, n - 1, carry);
    }
  }

  function SignFill(x: Word, n: nat): int
    requires n <= 32
  {
    if TopBit(x) then 0x1_0000_0000 - Pow2(32 - n) else 0
  }

  lemma {:induction false} ArithmeticClosed(x: Word, n: nat, carry: bool)
    requires 0 < n <= 32
    ensures 0 <= x / Pow2(n) + SignFill(x, n) < 0x1_0000_0000
    ensures ShiftRepeatedly(ArithmeticRight, x, n, carry) == Shifted(x / Pow2(n) + SignFill(x, n), Bit(x, n - 1))
  {
    hide Pow2, SignFill, ShiftOnce, TopBit;
    if n > 1 {
      ArithmeticClosed(x, n - 1, carry);
    } else {
      NoFill(x);
    }
    ArithmeticStep(x, n - 1);
  }

  lemma NoFill(x: Word)
    ensures x / Pow2(0) == x && SignFill(x, 0) == 0
  {
    hide Pow2;
    Pow2Values();
  }

  lemma FillRange(x: Word, n: nat)
    requires n <= 32
    ensures 0 <= x / Pow2(n) + SignFill(x, n) < 0x1_0000_0000
    ensures TopBit(x / Pow2(n) + SignFill(x, n)) <==> TopBit(x)
  {
    hide Pow2;
    QuotientBound(x, n);
    if n == 0 {
      NoFill(x);
    } else {
      Pow2Values();
      Pow2AtMost(32 - n, 31);
    }
  }

  lemma ArithmeticStep(x: Word, n: nat)
    requires n < 32
    ensures 0 <= x / Pow2(n) + SignFill(x, n) < 0x1_0000_0000
    ensures 0 <= x / Pow2(n + 1) + SignFill(x, n + 1) < 0x1_0000_0000
    ensures ShiftOnce(ArithmeticRight, x / Pow2(n) + SignFill(x, n))
         == Shifted(x / Pow2(n + 1) + SignFill(x, n + 1), Bit(x, n))
  {
    hide Pow2, SignFill, TopBit;
    FillRange(x, n);
    FillRange(x, n + 1);
    Halve(x, n);
    FillNext(x, n);
    var fill := SignFill(x, n + 1) - (if TopBit(x) then NEGATIVE else 0);
    HalfSum(x / Pow2(n), fill);
  }

  lemma FillNext(x: Word, n: nat)
    requires n < 32
    ensures SignFill(x, n) == 2 * (SignFill(x, n + 1) - (if TopBit(x) then NEGATIVE else 0))
  {
    Doubles(31 - n);
    hide Pow2;
  }

  lemma HalfSum(a: int, y: int)
    ensures (a + 2 * y) / 2 == a / 2 + y && (a + 2 * y) % 2 == a % 2
  {
  }

  lemma {:induction false} ArithmeticBeyond(x: Word, n: nat, carry: bool)
    requires n >= 32
    ensures ShiftRepeatedly(ArithmeticRight, x, n, carry) == Shifted(if TopBit(x) then 0xffff_ffff else 0, TopBit(x))
  {
    hide Pow2, Bit;
    if n == 32 {
      FillRange(x, 32);
      ArithmeticClosed(x, 32, carry);
      WordQuotient(x, 32);
      TopIsBit31(x);
      Pow2Values();
    } else {
      ArithmeticBeyond(x, n - 1, carry);
    }
  }

  function Rotated(x: Word, n: nat): Word
    requires n <= 32
  {
    QuotientBound(x, n);
    ProductBound(x % Pow2(n), n, 32 - n);
    Pow2Values();
    x / Pow2(n) + x % Pow2(n) * Pow2(32 - n)
  }

  lemma RotateStep(x: Word, n: nat)
    requires n < 32
    ensures ShiftOnce(RotateRight, Rotated(x, n)) == Shifted(Rotated(x, n + 1), Bit(x, n))
  {
    hide Pow2;
    Halve(x, n);
    RotateStepSplit(n, x / Pow2(n) % 2, x % Pow2(n));
    HalfSum(x / Pow2(n), x % Pow2(n) * Pow2(31 - n));
    RotatedIs(x, n);
    RotatedIs(x, n + 1);
    hide Rotated;
  }

  lemma RotatedIs(x: Word, n: nat)
    requires n <= 32
    ensures Rotated(x, n) == x / Pow2(n) + x % Pow2(n) * Pow2(32 - n)
  {
  }

  /** The bits already rotated to the top, and the one about to join them. */
  lemma RotateStepSplit(n: nat, b: int, low: int)
    requires n < 32
    ensures low * Pow2(32 - n) == 2 * (low * Pow2(31 - n))
    ensures (b * Pow2(n) + low) * Pow2(31 - n) == b * NEGATIVE + low * Pow2(31 - n)
  {
    hide Pow2;
    Doubles(31 - n);
    Pow2Values();
    Pow2Splits(n, 31);
    Spread(b, Pow2(n), low, Pow2(31 - n));
  }

  lemma RotatedEnds(x: Word)
    ensures Rotated(x, 0) == x && Rotated(x, 32) == x
  {
    RotatedIs(x, 0);
    RotatedIs(x, 32);
    hide Pow2, Rotated;
    Pow2Values();
    NoneOrAll(x, Pow2(0), Pow2(32));
  }

  lemma NoneOrAll(x: Word, one: int, all: int)
    requires one == 1 && all == 0x1_0000_0000
    ensures x / one + x % one * all == x && x / all + x % all * one == x
  {
    assert x / one == x && x % one == 0;
    assert x / all == 0 && x % all == x;
  }

  lemma RotateCount(n: nat)
    requires n > 0
    ensures (n - 1) % 32 == if n % 32 > 0 then n % 32 - 1 else 31
  {
  }

  lemma TopIsBit31(x: Word)
    ensures Bit(x, 31) <==> TopBit(x)
  {
    Pow2Values();
  }

  lemma {:induction false} RotateClosed(x: Word, n: nat, carry: bool)
    requires n > 0
    ensures ShiftRepeatedly(RotateRight, x, n, carry) == Shifted(Rotated(x, n % 32), Bit(x, (n - 1) % 32))
  {
    hide Rotated, Bit, ShiftOnce;
    RotatedEnds(x);
    if n > 1 {
      RotateClosed(x, n - 1, carry);
    }
    RotateStep(x, (n - 1) % 32);
    RotateCount(n);
  }

  // The implementation, one method a shift type; the arguments changed in place are returned.

  method ShiftLogicalLeft(source: Word, amount: nat, carryIn: bool) returns (value: Word, carry: bool)
    ensures Shifted(value, carry) == ShiftRepeatedly(LogicalLeft, source, amount, carryIn)
  {
    NoShift(LogicalLeft, source, carryIn);
    hide Pow2, Bit, LeftValue, ShiftRepeatedly, Wrap;
    value, carry := source, carryIn;
    if amount > 32 {
      value, carry := 0, false;
      LeftBeyond(source, amount, carryIn);
    } else if amount == 32 {
      carry := source % 2 == 1;
      value := 0;
      LeftClosed(source, 32, carryIn);
      LeftEnds(source);
    } else if amount > 0 {
      carry := Bit(source, 32 - amount);
      value := Wrap(source * Pow2(amount));
      LeftClosed(source, amount, carryIn);
      LeftWraps(source, amount);
    }
  }

  lemma NoShift(t: ShiftType, x: Word, carry: bool)
    ensures ShiftRepeatedly(t, x, 0, carry) == Shifted(x, carry)
  {
  }

  method ShiftLogicalRight(immediate: bool, source: Word, count: nat, carryIn: bool)
    returns (value: Word, carry: bool)
    ensures Shifted(value, carry) == ShiftBy(LogicalRight, immediate, source, count, carryIn)
  {
    NoShift(LogicalRight, source, carryIn);
    hide Pow2, Bit, Right, ShiftRepeatedly, TopBit;
    value, carry := source, carryIn;
    var amount := if count == 0 && immediate then 32 else count;
    if amount > 0 {
      LogicalRightClosed(source, amount, carryIn);
      RightBeyond(source, amount);
    }
    if amount > 32 {
      value, carry := 0, false;
    } else if amount == 32 {
      value, carry := 0, TopBit(source);
    } else if amount > 0 {
      carry := Bit(source, amount - 1);
      value := Right(source, amount);
    }
  }

  lemma RightBeyond(x: Word, n: nat)
    ensures n >= 32 ==> Right(x, n) == 0
    ensures n > 32 ==> !Bit(x, n - 1)
    ensures Bit(x, 31) <==> TopBit(x)
  {
    hide Pow2;
    TopIsBit31(x);
    if n >= 32 {
      WordQuotient(x, n);
    }
    if n > 32 {
      WordQuotient(x, n - 1);
    }
  }

  method ShiftArithmeticRight(immediate: bool, source: Word, count: nat, carryIn: bool)
    returns (value: Word, carry: bool)
    ensures Shifted(value, carry) == ShiftBy(ArithmeticRight, immediate, source, count, carryIn)
  {
    NoShift(ArithmeticRight, source, carryIn);
    hide Pow2, Bit, ShiftRepeatedly;
    value, carry := source, carryIn;
    var amount := if count == 0 && immediate then 32 else count;
    var sign := if TopBit(source) then 0xffff_ffff else 0;
    if amount >= 32 {
      value, carry := sign, TopBit(source);
      ArithmeticBeyond(source, amount, carryIn);
    } else if amount > 0 {
      ArithmeticClosed(source, amount, carryIn);
      SignShift(amount);
      carry := Bit(source, amount - 1);
      value := Right(source, amount) + Wrap(sign * Pow2(32 - amount));
    }
  }

  method ShiftRotateRight(immediate: bool, source: Word, count: nat, carryIn: bool)
    returns (value: Word, carry: bool)
    ensures Shifted(value, carry) == ShiftBy(RotateRight, immediate, source, count, carryIn)
  {
    NoShift(RotateRight, source, carryIn);
    value, carry := source, carryIn;
    if count == 0 {
      if immediate {
        value, carry := source / 2 + (if carryIn then NEGATIVE else 0), source % 2 == 1;
      }
      return;
    }
    hide Rotated, Bit, Pow2, ShiftRepeatedly;
    RotateClosed(source, count, carryIn);
    RotatedEnds(source);
    TopIsBit31(source);
    RotateCount(count);
    var amount := count % 32;
    if amount > 0 {
      carry := Bit(source, amount - 1);
      value := Rotated(source, amount);
    } else {
      carry := TopBit(source);
    }
  }

  method Shift(t: ShiftType, immediate: bool, source: Word, amount: nat, carryIn: bool)
    returns (value: Word, carry: bool)
    ensures Shifted(value, carry) == ShiftBy(t, immediate, source, amount, carryIn)
  {
    hide ShiftRepeatedly;
    match t {
      case LogicalLeft => value, carry := ShiftLogicalLeft(source, amount, carryIn);
      case LogicalRight => value, carry := ShiftLogicalRight(immediate, source, amount, carryIn);
      case ArithmeticRight => value, carry := ShiftArithmeticRight(immediate, source, amount, carryIn);
      case RotateRight => value, carry := ShiftRotateRight(immediate, source, amount, carryIn);
    }
  }

  lemma LeftWraps(x: Word, n: nat)
    requires n <= 32
    ensures Wrap(x * Pow2(n)) == LeftValue(x, n)
  {
    hide Pow2;
    LeftWrapsSplit(x, x / Pow2(32 - n), x % Pow2(32 - n), n);
  }

  lemma LeftWrapsSplit(x: Word, high: int, low: int, n: nat)
    requires n <= 32 && 0 <= low < Pow2(32 - n) && x == high * Pow2(32 - n) + low
    ensures x * Pow2(n) % 0x1_0000_0000 == low * Pow2(n)
  {
    hide Pow2;
    Pow2Splits(n, 32);
    Pow2Values();
    Spread(high, Pow2(32 - n), low, Pow2(n));
    ProductBound(low, 32 - n, n);
    DivisionIsUnique(x * Pow2(n), 0x1_0000_0000, high, low * Pow2(n));
  }

  lemma SignShift(n: nat)
    requires 0 < n < 32
    ensures Wrap(0xffff_ffff * Pow2(32 - n)) == 0x1_0000_0000 - Pow2(32 - n)
  {
    hide Pow2;
    var p := Pow2(32 - n);
    Pow2AtMost(32 - n, 31);
    Pow2Values();
    assert 0xffff_ffff * p == (p - 1) * 0x1_0000_0000 + (0x1_0000_0000 - p);
    DivisionIsUnique(0xffff_ffff * p, 0x1_0000_0000, p - 1, 0x1_0000_0000 - p);
  }
}
