/** Counts of clocks, and the conversions between their scales, which keep behind whatever they do not convert. */
module ClockReceiver {
  import opened Arithmetic

  /** The most significant bits of a number in two's complement, and the rest of it. */
  lemma Masked(v: int, shift: nat)
    ensures v / Pow2(shift) * Pow2(shift) + v % Pow2(shift) == v
    ensures 0 <= v % Pow2(shift) < Pow2(shift)
    ensures v >= 0 ==> v / Pow2(shift) >= 0
  {
    FloorDivides(v, Pow2(shift));
  }

  /** Shifting by the difference of two denominators, as the conversions do, is the exchange of one of the finer
      clocks for as much of the coarser. */
  predicate Faithful(fine: nat, coarse: nat) {
    coarse <= fine && Pow2(fine - coarse) * coarse == fine
  }

  /** Among denominators that are powers of two it is so only for clocks of one scale, and for half and whole
      cycles. */
  lemma FaithfulExactly(m: nat, n: nat)
    requires n <= m
    ensures Faithful(Pow2(m), Pow2(n)) <==> m == n || (m == 1 && n == 0)
  {
    hide Pow2;
    var fine, coarse, k := Pow2(m), Pow2(n), m - n;
    Pow2Sum(k, n);
    Pow2Grows(k);
    Pow2Grows(n);
    Pow2AtMost(n, m);
    Pow2Injective(fine - coarse, k);
    Exchanged(coarse, Pow2(fine - coarse), Pow2(k), k);
  }

  lemma Exchanged(c: int, u: int, p: int, k: int)
    requires c >= 1 && k >= 0 && p > k && (p == k + 1 <==> k <= 1)
    requires u == p <==> p * c - c == k
    ensures u * c == p * c <==> k == 0 || (k == 1 && c == 1)
  {
    SameProduct(c, u, p);
    SmallProduct(c, p, k);
    Distribute(p, -1, c);
  }

  lemma SmallProduct(c: int, p: int, k: int)
    requires c >= 1 && k >= 0 && p > k && (p == k + 1 <==> k <= 1)
    ensures (p - 1) * c == k <==> k == 0 || (k == 1 && c == 1)
  {
    Monotonic(1, c, p - 1);
    if c > 1 {
      Monotonic(2, c, p - 1);
    }
  }

  lemma Pow2Injective(a: nat, b: nat)
    ensures Pow2(a) == Pow2(b) <==> a == b
  {
    if a < b {
      Pow2Increases(a, b);
    } else if b < a {
      Pow2Increases(b, a);
    }
  }

  lemma {:induction false} Pow2Grows(k: nat)
    ensures Pow2(k) > k && (Pow2(k) == k + 1 <==> k <= 1)
  {
    if k > 0 {
      Pow2Grows(k - 1);
    }
  }

  /** A conversion by shifting keeps the time there was, in cycles, if it converts nothing or is faithful. */
  lemma TimeKept(was: int, result: int, divider: int, left: int, fine: nat, coarse: nat)
    requires coarse <= fine && divider > 0 && result * (divider * Pow2(fine - coarse)) + left == was
    ensures was * coarse == result * divider * fine + left * coarse <==> result == 0 || Faithful(fine, coarse)
  {
    hide Pow2;
    var unit, share := Pow2(fine - coarse), result * divider;
    Distribute(share * unit, left, coarse);
    assert was * coarse == share * (unit * coarse) + left * coarse;
    SameProduct(share, unit * coarse, fine);
    SameProduct(result, divider, 0);
  }

  lemma ScaledUp(was: int, coarse: nat, fine: nat)
    requires coarse <= fine
    ensures var result := was * Pow2(fine - coarse);
            was * fine == result * coarse <==> was == 0 || Faithful(fine, coarse)
  {
    hide Pow2;
    var unit := Pow2(fine - coarse);
    assert was * unit * coarse == was * (unit * coarse);
    SameProduct(was, unit * coarse, fine);
  }

  /** What is too little to make one of the coarser clocks. */
  lemma NothingConverted(length: int, divider: int, unit: int)
    requires divider > 0 && unit >= 1
    ensures Truncated(length, divider) / unit == 0 <==> -divider < length < divider * unit
    ensures divider == 1 ==> Truncated(length, divider) == length
  {
    var native := Truncated(length, divider);
    TruncatedRemainder(length, divider);
    hide Truncated;
    NoQuotient(native, unit);
    Monotonic(native, -1, divider);
    Monotonic(0, native, divider);
    Monotonic(unit, native, divider);
    Monotonic(native + 1, unit, divider);
    Distribute(native, 1, divider);
  }

  lemma NoQuotient(n: int, unit: int)
    requires unit >= 1
    ensures n / unit == 0 <==> 0 <= n < unit
  {
    FloorDivides(n, unit);
    Monotonic(1, n / unit, unit);
    Monotonic(n / unit, -1, unit);
  }

  lemma SameProduct(a: int, x: int, y: int)
    ensures a * x == a * y <==> a == 0 || x == y
  {
    if a * x == a * y && x != y {
      Distribute(x, -y, a);
      if a > 0 {
        Monotonic(1, x - y, a);
        Monotonic(x - y, -1, a);
      } else {
        Monotonic(1, x - y, -a);
        Monotonic(x - y, -1, -a);
      }
    }
  }

  class Clocks {
    var length: int
    const denominator: nat

    constructor (length: int, denominator: nat)
      ensures this.length == length && this.denominator == denominator
    {
      this.length := length;
      this.denominator := denominator;
    }

    method Add(rhs: int)
      modifies this
      ensures length == old(length) + rhs
    {
      length := length + rhs;
    }

    /** Converts to another scale and divides, and keeps exactly what that leaves over. The division is towards
        zero, and the conversion down. It is the same time, in cycles, exactly if the scales are faithful or there
        is too little to convert. */
    method Divide(divider: int, destination: nat) returns (result: int)
      requires divider > 0 && destination <= denominator
      modifies this
      ensures var period := divider * Pow2(denominator - destination);
              && result * period + length == old(length)
              && (old(length) >= 0 ==> 0 <= length < period)
              && (old(length) < 0 ==> -divider < length < period)
              && (result == 0 <==> -divider < old(length) < period)
      ensures result == Truncated(old(length), divider) / Pow2(denominator - destination)
      ensures old(length) * destination == result * divider * denominator + length * destination
              <==> Faithful(denominator, destination)
                   || -divider < old(length) < divider * Pow2(denominator - destination)
    {
      var shift := denominator - destination;
      var nativePeriod := Truncated(length, divider);
      TruncatedRemainder(length, divider);
      length := length - nativePeriod * divider;
      ghost var remainder := length;
      Masked(nativePeriod, shift);
      if shift != 0 {
        var furtherResidue := nativePeriod % Pow2(shift);
        length := length + furtherResidue * divider;
      }
      result := nativePeriod / Pow2(shift);
      Residue(result, nativePeriod % Pow2(shift), Pow2(shift), divider, remainder);
      TimeKept(old(length), result, divider, length, denominator, destination);
      NothingConverted(old(length), divider, Pow2(shift));
    }

    /** Extracts a whole number of another scale's clocks, keeping the rest. It is the same time, in cycles, exactly
        if the scales are faithful or there is too little to convert. */
    method Flush(destination: nat) returns (result: int)
      modifies this
      ensures destination >= denominator ==> result == old(length) * Pow2(destination - denominator) && length == 0
      ensures destination < denominator ==>
                var unit := Pow2(denominator - destination);
                result * unit + length == old(length) && 0 <= length < unit
      ensures old(length) * destination == result * denominator + length * destination
              <==> || Faithful(denominator, destination) || Faithful(destination, denominator)
                   || if destination >= denominator then old(length) == 0
                      else 0 <= old(length) < Pow2(denominator - destination)
    {
      if destination >= denominator {
        result := length * Pow2(destination - denominator);
        ScaledUp(length, denominator, destination);
        length := 0;
      } else {
        var shift := denominator - destination;
        Masked(length, shift);
        result := length / Pow2(shift);
        length := length % Pow2(shift);
        TimeKept(old(length), result, 1, length, denominator, destination);
        NothingConverted(old(length), 1, Pow2(shift));
      }
    }
  }

  /** Four quarter cycles are a cycle, and yet they flush to none, and are all kept. */
  method FourQuarterCycles() returns (result: int, left: int)
    ensures result == 0 && left == 4
  {
    var quarters := new Clocks(4, 4);
    assert Pow2(3) == 8;
    result := quarters.Flush(1);
    left := quarters.length;
  }

  lemma Residue(high: int, low: int, unit: int, divider: int, remainder: int)
    requires divider > 0 && unit >= 1 && 0 <= low < unit
    ensures high * (divider * unit) + (remainder + low * divider) == (high * unit + low) * divider + remainder
    ensures -divider < remainder < divider ==> -divider < remainder + low * divider < divider * unit
    ensures 0 <= remainder < divider ==> 0 <= remainder + low * divider
  {
    Monotonic(low + 1, unit, divider);
    Monotonic(0, low, divider);
    assert high * (divider * unit) == high * unit * divider;
  }
}
