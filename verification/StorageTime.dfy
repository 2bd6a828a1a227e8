/** Times held as a quotient of 32-bit numbers, against the rational numbers they stand for. */
module StorageTime {
  import opened Arithmetic

  const MAXIMUM := 0xffff_ffff
  const WRAP := 0x1_0000_0000_0000_0000

  type Word = x: int | 0 <= x <= MAXIMUM
  type Long = x: int | 0 <= x < WRAP

  /** Two quotients with non-zero denominators are the same number. */
  predicate Same(length: int, rate: int, numerator: int, denominator: int) {
    length * denominator == numerator * rate
  }

  /** Some quotient of 32-bit numbers is a given number. */
  ghost predicate Representable(numerator: int, denominator: int) {
    exists length: Word, rate: Word :: rate > 0 && Same(length, rate, numerator, denominator)
  }

  // The greatest common divisor.

  function Gcd(a: nat, b: nat): nat
    decreases b
  {
    if b == 0 then a else Gcd(b, a % b)
  }

  /** It divides both numbers and is a combination of them, and so is divided by all that divide both. */
  lemma {:induction false} GcdDivides(a: nat, b: nat) returns (p: nat, q: nat, x: int, y: int)
    ensures a == p * Gcd(a, b) && b == q * Gcd(a, b) && x * a + y * b == Gcd(a, b)
    ensures a > 0 || b > 0 ==> Gcd(a, b) > 0
    decreases b
  {
    if b == 0 {
      p, q, x, y := 1, 0, 1, 0;
    } else {
      var m := a / b;
      var p', q', x', y' := GcdDivides(b, a % b);
      p, q, x, y := m * p' + q', p', y', x' - y' * m;
      Euclid(a, b, m, a % b, p', q', x', y', Gcd(b, a % b));
    }
  }

  lemma Euclid(a: int, b: int, m: int, r: int, p: int, q: int, x: int, y: int, g: int)
    requires a == m * b + r && b == p * g && r == q * g && x * b + y * r == g
    ensures a == (m * p + q) * g && y * a + (x - y * m) * b == g
  {
    assert m * b == m * p * g;
    assert y * a == y * m * b + y * r;
  }

  lemma Scaled(length: int, rate: int, k: int, numerator: int, denominator: int)
    requires numerator == length * k && denominator == rate * k
    ensures Same(length, rate, numerator, denominator)
  {
    assert length * (rate * k) == length * k * rate;
  }

  /** Whether a number is representable depends only on the number. */
  lemma RepresentableScaled(numerator: int, denominator: int, k: int)
    requires k > 0
    ensures Representable(numerator * k, denominator * k) <==> Representable(numerator, denominator)
  {
    forall length: Word, rate: Word
      ensures Same(length, rate, numerator * k, denominator * k) <==> Same(length, rate, numerator, denominator)
    {
      Cancelled(length * denominator, numerator * rate, k);
      assert length * (denominator * k) == length * denominator * k;
      assert numerator * k * rate == numerator * rate * k;
    }
  }

  lemma Cancelled(a: int, b: int, k: int)
    requires k > 0
    ensures a * k == b * k <==> a == b
  {
  }

  /** A number in its lowest terms is representable only if those terms are 32-bit numbers. */
  lemma LowestTermsFit(p: nat, q: nat, x: int, y: int)
    requires p > 0 && q > 0 && x * p + y * q == 1
    ensures Representable(p, q) <==> p <= MAXIMUM && q <= MAXIMUM
  {
    if p <= MAXIMUM && q <= MAXIMUM {
      assert Same(p as Word, q as Word, p, q);
    }
    if Representable(p, q) {
      var length: Word, rate: Word :| rate > 0 && Same(length, rate, p, q);
      Multiples(p, q, x, y, length, rate);
    }
  }

  lemma Multiples(p: int, q: int, x: int, y: int, length: int, rate: int)
    requires p > 0 && q > 0 && x * p + y * q == 1 && length * q == p * rate && rate > 0
    ensures p <= length && q <= rate
  {
    var k := x * length + y * rate;
    assert length == length * (x * p + y * q) == x * length * p + y * (length * q);
    assert length == k * p;
    assert rate == rate * (x * p + y * q) == x * (p * rate) + y * rate * q;
    assert rate == k * q;
    AtLeastOnce(k, q, rate);
    AtLeast(k, p);
    AtLeast(k, q);
  }

  lemma AtLeastOnce(k: int, q: int, rate: int)
    requires rate == k * q && rate > 0 && q > 0
    ensures k >= 1
  {
  }

  lemma AtLeast(k: int, p: int)
    requires k >= 1 && p > 0
    ensures p <= k * p
  {
  }

  /** A quotient is no further from a number than one more in its length or in its rate would be, but for the
      greatest quotient, which stands for any number above it. */
  predicate Near(length: int, rate: int, numerator: int, denominator: int) {
    && length * denominator < numerator * (rate + 1)
    && ((length == MAXIMUM && rate == 1) || numerator * rate < (length + 1) * denominator)
  }

  /** All but at most one of the 32 bits are in use, in the length or in the rate. */
  predicate Precise(length: int, rate: int) {
    length > MAXIMUM / 2 || rate > MAXIMUM / 2
  }

  /** A number above zero is near to itself. */
  lemma SameIsNear(length: int, rate: int, numerator: int, denominator: int)
    requires Same(length, rate, numerator, denominator) && numerator > 0 && denominator > 0
    ensures Near(length, rate, numerator, denominator)
  {
    Distribute(length, 1, denominator);
    Distribute(rate, 1, numerator);
  }

  /** Both terms of a quotient halved as often, and what that drops. */
  predicate Halved(l: int, c: int, l0: int, c0: int, w: int) {
    w > 0 && l * w <= l0 < (l + 1) * w && c * w <= c0 < (c + 1) * w
  }

  lemma HalvedAgain(l: int, c: int, l0: int, c0: int, w: int)
    requires l >= 0 && c >= 0 && Halved(l, c, l0, c0, w)
    ensures Halved(l / 2, c / 2, l0, c0, 2 * w)
  {
    HalvedOne(l, l0, w);
    HalvedOne(c, c0, w);
  }

  lemma HalvedOne(l: int, l0: int, w: int)
    requires l >= 0 && w > 0 && l * w <= l0 < (l + 1) * w
    ensures l / 2 * (2 * w) <= l0 < (l / 2 + 1) * (2 * w)
  {
    var h := l / 2;
    Associate(h, 2, w);
    Associate(h + 1, 2, w);
    Monotonic(h * 2, l, w);
    Monotonic(l + 1, (h + 1) * 2, w);
  }

  lemma HalvedIsNear(l: int, c: int, l0: int, c0: int, w: int)
    requires Halved(l, c, l0, c0, w) && l0 > 0 && c0 > 0
    ensures Near(l, c, l0, c0)
    ensures c == 1 && l > MAXIMUM ==> Near(MAXIMUM, 1, l0, c0)
  {
    Crossed(l, c + 1, l0, c0, w);
    Crossed(c, l + 1, c0, l0, w);
    if c == 1 && l > MAXIMUM {
      Monotonic(MAXIMUM, l, w);
      Crossed(MAXIMUM, 2, l0, c0, w);
    }
  }

  lemma NearScaled(l: int, c: int, numerator: int, denominator: int, k: int)
    requires Near(l, c, numerator, denominator) && k > 0
    ensures Near(l, c, numerator * k, denominator * k)
  {
    Strictly(l * denominator, numerator * (c + 1), k);
    assert l * (denominator * k) == l * denominator * k && numerator * k * (c + 1) == numerator * (c + 1) * k;
    if numerator * c < (l + 1) * denominator {
      Strictly(numerator * c, (l + 1) * denominator, k);
      assert numerator * k * c == numerator * c * k && (l + 1) * (denominator * k) == (l + 1) * denominator * k;
    }
  }

  /** Of two fractions of a width, one below and one above. */
  lemma Crossed(below: int, above: int, x: int, y: int, w: int)
    requires w > 0 && below * w <= x && y < above * w && x > 0 && y > 0
    ensures below * y < x * above
  {
    Monotonic(below * w, x, y);
    Strictly(y, above * w, x);
    assert below * w * y == below * y * w && above * w * x == x * above * w;
    Monotonic(x * above, below * y, w);
  }

  lemma Strictly(a: int, b: int, k: int)
    requires a < b && k > 0
    ensures a * k < b * k
  {
    Monotonic(1, b - a, k);
    Distribute(b, -a, k);
  }

  /** The last resort for lowest terms, which gives up accuracy. */
  method Trim(l0: nat, c0: nat) returns (length: Word, clockRate: Word)
    requires l0 > 0 && (c0 == 0 ==> l0 == 1)
    ensures clockRate > 0 <==> c0 > 0
    ensures if l0 <= MAXIMUM && c0 <= MAXIMUM then length == l0 && clockRate == c0 else Precise(length, clockRate)
    ensures c0 > 0 ==> Near(length, clockRate, l0, c0)
  {
    hide Near, Halved;
    var l, c: int := l0, c0;
    ghost var w := 1;
    NotHalved(l, c);
    while (l > MAXIMUM || c > MAXIMUM) && c > 1
      invariant l >= 0 && c >= 0 && (c > 0 <==> c0 > 0)
      invariant Halved(l, c, l0, c0, w)
      invariant (l == l0 && c == c0) || (Precise(l, c) && !(l0 <= MAXIMUM && c0 <= MAXIMUM))
      decreases c
    {
      HalvedAgain(l, c, l0, c0, w);
      w := 2 * w;
      l, c := l / 2, c / 2;
    }
    if c0 > 0 {
      HalvedIsNear(l, c, l0, c0, w);
    }
    if l <= MAXIMUM && c <= MAXIMUM {
      length, clockRate := l, c;
    } else {
      length, clockRate := MAXIMUM, 1;
    }
  }

  lemma NotHalved(l: nat, c: nat)
    ensures Halved(l, c, l, c, 1)
  {
  }

  /** The 32-bit quotient chosen for a 64-bit one: never one with a rate of zero, if the rate was not; exactly
      right if and only if any would be; and otherwise as near as the last bit of 32, in one term or the other. */
  method Install(longLength: Long, longClockRate: Long) returns (length: Word, clockRate: Word)
    ensures clockRate > 0 <==> longClockRate > 0
    ensures longLength == 0 ==> length == 0
    ensures longClockRate > 0 ==>
              (Same(length, clockRate, longLength, longClockRate) <==> Representable(longLength, longClockRate))
    ensures longClockRate > 0 && longLength > 0 ==>
              && Near(length, clockRate, longLength, longClockRate)
              && (Same(length, clockRate, longLength, longClockRate) || Precise(length, clockRate))
  {
    hide Same, Representable, Near, Precise, Gcd;
    var l, c: int := longLength, longClockRate;
    if l <= MAXIMUM && c <= MAXIMUM {
      if c > 0 {
        Found(l, c, l, c, 1);
      }
      return l, c;
    }
    if l == 0 {
      Found(0, 1, l, c, c);
      return 0, 1;
    }
    ghost var k := 1;
    while l % 16 == 0 && c % 16 == 0
      invariant l > 0 && k > 0 && longLength == l * k && longClockRate == c * k && c >= 0
      decreases l
    {
      k := Shifted(l, c, k, 16);
      l, c := l / 16, c / 16;
    }
    while l % 2 == 0 && c % 2 == 0
      invariant l > 0 && k > 0 && longLength == l * k && longClockRate == c * k && c >= 0
      decreases l
    {
      k := Shifted(l, c, k, 2);
      l, c := l / 2, c / 2;
    }
    if l > MAXIMUM || c > MAXIMUM {
      ghost var factor;
      l, c, factor := LowestTerms(l, c);
      Associate(l, factor, k);
      Associate(c, factor, k);
      k := factor * k;
      length, clockRate := Trim(l, c);
      if c > 0 {
        RepresentableScaled(l, c, k);
        NearScaled(length, clockRate, l, c, k);
        if l <= MAXIMUM && c <= MAXIMUM {
          Found(length, clockRate, longLength, longClockRate, k);
        } else {
          NotSame(length, clockRate, longLength, longClockRate);
        }
      }
      return;
    }
    if c > 0 {
      Found(l, c, longLength, longClockRate, k);
    }
    return l, c;
  }

  /** Division by the greatest common divisor. */
  method LowestTerms(l: nat, c: nat) returns (p: nat, q: nat, ghost factor: nat)
    requires l > 0
    ensures p > 0 && factor > 0 && l == p * factor && c == q * factor
    ensures c > 0 ==> q > 0 && (Representable(p, q) <==> p <= MAXIMUM && q <= MAXIMUM)
    ensures c == 0 ==> p == 1 && q == 0
  {
    hide Representable;
    var divisor := Gcd(l, c);
    ghost var p', q', x, y := GcdDivides(l, c);
    Divided(l, divisor, p');
    Divided(c, divisor, q');
    hide Gcd;
    Reduced(l, c, p', q', x, y, divisor);
    p, q, factor := l / divisor, c / divisor, divisor;
    if c > 0 {
      LowestTermsFit(p, q, x, y);
    }
  }

  lemma Found(length: Word, rate: Word, numerator: int, denominator: int, k: int)
    requires rate > 0 && numerator == length * k && denominator == rate * k
    ensures Same(length, rate, numerator, denominator) && Representable(numerator, denominator)
    ensures numerator > 0 && denominator > 0 ==> Near(length, rate, numerator, denominator)
  {
    Scaled(length, rate, k, numerator, denominator);
    hide Same, Near;
    if numerator > 0 && denominator > 0 {
      SameIsNear(length, rate, numerator, denominator);
    }
  }

  lemma NotSame(length: Word, rate: Word, numerator: int, denominator: int)
    requires rate > 0 && !Representable(numerator, denominator)
    ensures !Same(length, rate, numerator, denominator)
  {
  }

  lemma Shifted(l: int, c: int, k: int, n: int) returns (more: int)
    requires (n == 2 || n == 16) && l % n == 0 && c % n == 0 && l > 0 && c >= 0 && k > 0
    ensures more > 0 && l * k == l / n * more && c * k == c / n * more && 0 < l / n < l && c / n >= 0
    ensures c > 0 ==> c / n > 0
  {
    more := n * k;
    Associate(l / n, n, k);
    Associate(c / n, n, k);
  }

  lemma Divided(a: int, d: int, p: int)
    requires d > 0 && a == p * d
    ensures a / d == p
  {
    DivisionIsUnique(a, d, p, 0);
  }

  lemma Reduced(l: int, c: int, p: int, q: int, x: int, y: int, g: int)
    requires g > 0 && l == p * g && c == q * g && x * l + y * c == g && l > 0
    ensures x * p + y * q == 1 && p > 0 && (c > 0 ==> q > 0)
    ensures c == 0 && q >= 0 ==> q == 0 && (g == l ==> p == 1)
  {
    assert (x * p + y * q) * g == g;
  }

  // Arithmetic.

  /** A 64-bit product of 32-bit numbers: it always fits. */
  function Product(a: Word, b: Word): (p: Long)
    ensures p == a * b
  {
    ProductFits(a, b);
    a * b
  }

  lemma ProductFits(a: Word, b: Word)
    ensures 0 <= a * b < WRAP
  {
    Monotonic(a, MAXIMUM, b);
    Monotonic(0, a, b);
    Monotonic(b, MAXIMUM, MAXIMUM);
  }

  /** 64-bit addition and subtraction. */
  function Plus64(a: Long, b: Long): Long {
    (a + b) % WRAP
  }

  function Minus64(a: Long, b: Long): Long {
    (a - b) % WRAP
  }

  lemma Sum64(a: Long, b: Long)
    ensures Plus64(a, b) == if a + b < WRAP then a + b else a + b - WRAP
  {
  }

  /** A quotient of 32-bit numbers that is a given number if any is. */
  ghost predicate Best(length: Word, rate: Word, numerator: int, denominator: int) {
    rate > 0 && (Same(length, rate, numerator, denominator) <==> Representable(numerator, denominator))
  }

  lemma BestScaled(length: Word, rate: Word, numerator: int, denominator: int, k: int)
    requires k > 0 && Best(length, rate, numerator, denominator)
    ensures Best(length, rate, numerator * k, denominator * k)
  {
    RepresentableScaled(numerator, denominator, k);
    Cancelled(length * denominator, numerator * rate, k);
    assert length * (denominator * k) == length * denominator * k;
    assert numerator * k * rate == numerator * rate * k;
    hide Representable;
  }

  /** Whether the 64-bit intermediates of a sum, or of a difference, hold what they should. */
  predicate SumFits(l1: Word, c1: Word, l2: Word, c2: Word) {
    c1 == c2 || l1 * c2 + l2 * c1 < WRAP
  }

  /** A sum is right exactly if its intermediates fit and it can be represented. */
  ghost predicate IsSum(length: Word, rate: Word, l1: Word, c1: Word, l2: Word, c2: Word) {
    && rate > 0
    && (Same(length, rate, l1 * c2 + l2 * c1, c1 * c2)
        <==> SumFits(l1, c1, l2, c2) && Representable(l1 * c2 + l2 * c1, c1 * c2))
  }

  ghost predicate IsDifference(length: Word, rate: Word, l1: Word, c1: Word, l2: Word, c2: Word) {
    Best(length, rate, l1 * c2 - l2 * c1, c1 * c2)
  }

  /** The sum or difference of two quotients, when their rates are the same. */
  lemma AtOneRate(l1: int, l2: int, c: int)
    ensures (l1 + l2) * c == l1 * c + l2 * c && (l1 - l2) * c == l1 * c - l2 * c
  {
  }

  class Time {
    var length: Word
    var clockRate: Word

    constructor (length: Word, clockRate: Word)
      ensures this.length == length && this.clockRate == clockRate
    {
      this.length, this.clockRate := length, clockRate;
    }

    // Comparisons are of the rational numbers.

    predicate Less(other: Time): (r: bool)
      reads this, other
      ensures clockRate > 0 && other.clockRate > 0 ==> (r <==> Value() < other.Value())
    {
      InOrder(length, clockRate, other.length, other.clockRate);
      Product(other.clockRate, length) < Product(clockRate, other.length)
    }

    predicate AtMost(other: Time): (r: bool)
      reads this, other
      ensures clockRate > 0 && other.clockRate > 0 ==> (r <==> Value() <= other.Value())
    {
      InOrder(other.length, other.clockRate, length, clockRate);
      Product(other.clockRate, length) <= Product(clockRate, other.length)
    }

    predicate Equal(other: Time): (r: bool)
      reads this, other
      ensures clockRate > 0 && other.clockRate > 0 ==> (r <==> Value() == other.Value())
    {
      InOrder(length, clockRate, other.length, other.clockRate);
      InOrder(other.length, other.clockRate, length, clockRate);
      Product(other.clockRate, length) == Product(clockRate, other.length)
    }

    ghost function Value(): real
      reads this
      requires clockRate > 0
    {
      length as real / clockRate as real
    }

    /** Reduces a time to its lowest terms. */
    method Simplify()
      requires clockRate > 0
      modifies this
      ensures clockRate > 0 && Same(length, clockRate, old(length), old(clockRate))
      ensures forall l: nat, c: nat | c > 0 && Same(l, c, old(length), old(clockRate)) :: length <= l && clockRate <= c
    {
      ghost var l0, c0 := length, clockRate;
      var divisor := Gcd(length, clockRate);
      ghost var p, q, x, y := GcdDivides(length, clockRate);
      Divided(length, divisor, p);
      Divided(clockRate, divisor, q);
      Quotients(l0, c0, p, q, x, y, divisor);
      length := length / divisor;
      clockRate := clockRate / divisor;
    }

    method InstallResult(longLength: Long, longClockRate: Long)
      modifies this
      ensures clockRate > 0 <==> longClockRate > 0
      ensures longClockRate > 0 ==> Best(length, clockRate, longLength, longClockRate)
      ensures longClockRate > 0 ==> longLength == 0 || Near(length, clockRate, longLength, longClockRate)
      ensures longLength == 0 ==> length == 0
    {
      hide Near;
      var l, c := Install(longLength, longClockRate);
      length, clockRate := l, c;
    }

    method AddAssign(other: Time)
      requires clockRate > 0 && other.clockRate > 0
      modifies this
      ensures IsSum(length, clockRate, old(length), old(clockRate), old(other.length), old(other.clockRate))
    {
      hide IsSum, Best, SumFits, Near, Product, Plus64;
      ghost var l1, c1, l2, c2 := length, clockRate, other.length, other.clockRate;
      if other.length == 0 {
        SumWithZero(l1, c1, c2);
        BestIsSum(length, clockRate, l1, c1, l2, c2);
        return;
      }
      if length == 0 {
        SumWithZero(l2, c2, c1);
        BestIsSum(l2, c2, l1, c1, l2, c2);
        length, clockRate := other.length, other.clockRate;
        return;
      }
      if clockRate == other.clockRate {
        var sum := Plus64(length, other.length);
        InstallResult(sum, clockRate);
        SumAtOneRate(length, clockRate, l1, l2, c1);
        BestIsSum(length, clockRate, l1, c1, l2, c2);
      } else {
        var sum := Plus64(Product(length, other.clockRate), Product(other.length, clockRate));
        var rate := Product(clockRate, other.clockRate);
        InstallResult(sum, rate);
        SumAtTwoRates(length, clockRate, l1, c1, l2, c2);
      }
    }

    method Plus(other: Time) returns (r: Time)
      requires clockRate > 0 && other.clockRate > 0
      ensures fresh(r)
      ensures IsSum(r.length, r.clockRate, length, clockRate, other.length, other.clockRate)
    {
      hide IsSum, Best, SumFits, Near, Product, Plus64;
      if other.length == 0 {
        r := new Time(length, clockRate);
        SumWithZero(length, clockRate, other.clockRate);
        BestIsSum(length, clockRate, length, clockRate, 0, other.clockRate);
        return;
      }
      var sum, rate;
      if clockRate == other.clockRate {
        sum, rate := Plus64(length, other.length), clockRate;
      } else {
        sum := Plus64(Product(length, other.clockRate), Product(other.length, clockRate));
        rate := Product(clockRate, other.clockRate);
      }
      r := new Time(0, 0);
      r.InstallResult(sum, rate);
      if clockRate == other.clockRate {
        SumAtOneRate(r.length, r.clockRate, length, other.length, clockRate);
        BestIsSum(r.length, r.clockRate, length, clockRate, other.length, other.clockRate);
      } else {
        SumAtTwoRates(r.length, r.clockRate, length, clockRate, other.length, other.clockRate);
      }
    }

    /** A difference below zero, which cannot be represented, is not what is left either. */
    method SubtractAssign(other: Time)
      requires clockRate > 0 && other.clockRate > 0
      modifies this
      ensures IsDifference(length, clockRate, old(length), old(clockRate), old(other.length), old(other.clockRate))
    {
      hide IsDifference, Best, Near, Product, Minus64;
      ghost var l1, c1, l2, c2 := length, clockRate, other.length, other.clockRate;
      if other.length == 0 {
        LessNothing(l1, c1, c2);
        return;
      }
      if clockRate == other.clockRate {
        var difference := Minus64(length, other.length);
        InstallResult(difference, clockRate);
        DifferenceAtOneRate(length, clockRate, l1, l2, c1);
      } else {
        var difference := Minus64(Product(length, other.clockRate), Product(other.length, clockRate));
        var rate := Product(clockRate, other.clockRate);
        InstallResult(difference, rate);
        DifferenceAtTwoRates(length, clockRate, l1, c1, l2, c2);
      }
    }

    method MultiplyAssign(other: Time)
      requires clockRate > 0 && other.clockRate > 0
      modifies this
      ensures Best(length, clockRate, old(length) * old(other.length), old(clockRate) * old(other.clockRate))
    {
      Positive(clockRate, other.clockRate);
      InstallResult(Product(length, other.length), Product(clockRate, other.clockRate));
    }

    /** Division by zero leaves a rate of zero, which is for the caller to avoid. */
    method DivideAssign(other: Time)
      requires clockRate > 0 && other.clockRate > 0
      modifies this
      ensures old(other.length) > 0 ==>
                Best(length, clockRate, old(length) * old(other.clockRate), old(clockRate) * old(other.length))
      ensures old(other.length) == 0 ==> clockRate == 0
    {
      if other.length > 0 {
        Positive(clockRate, other.length);
      }
      InstallResult(Product(length, other.clockRate), Product(clockRate, other.length));
    }
  }

  lemma SumWithZero(l: Word, c: Word, rate: Word)
    requires c > 0 && rate > 0
    ensures Best(l, c, l * rate + 0 * c, c * rate) && Best(l, c, 0 * c + l * rate, rate * c)
  {
    Found(l, c, l * rate, c * rate, rate);
  }

  lemma SumAtOneRate(l: Word, r: Word, l1: Word, l2: Word, c: Word)
    requires c > 0 && Best(l, r, Plus64(l1, l2), c)
    ensures Best(l, r, l1 * c + l2 * c, c * c)
  {
    AtOneRate(l1, l2, c);
    hide Best;
    BestScaled(l, r, l1 as int + l2 as int, c, c);
  }

  lemma BestIsSum(l: Word, r: Word, l1: Word, c1: Word, l2: Word, c2: Word)
    requires Best(l, r, l1 * c2 + l2 * c1, c1 * c2) && (l1 == 0 || l2 == 0 || c1 == c2)
    ensures IsSum(l, r, l1, c1, l2, c2)
  {
    ProductFits(l1, c2);
    ProductFits(l2, c1);
    hide Same, Representable;
  }

  lemma SumAtTwoRates(l: Word, r: Word, l1: Word, c1: Word, l2: Word, c2: Word)
    requires c1 > 0 && c2 > 0 && c1 != c2 && (Product(c1, c2) > 0 ==> r > 0)
    requires var sum, rate := Plus64(Product(l1, c2), Product(l2, c1)), Product(c1, c2);
             rate > 0 ==>
             && Best(l, r, sum, rate)
             && (sum == 0 || Near(l, r, sum, rate)) && (sum == 0 ==> l == 0)
    ensures IsSum(l, r, l1, c1, l2, c2) && Product(c1, c2) > 0
  {
    Positive(c1, c2);
    var a, b := Product(l1, c2), Product(l2, c1);
    Sum64(a, b);
    hide Representable, Near, Product, Same, Plus64;
    if a + b >= WRAP {
      Wrapped(l, r, a + b, Product(c1, c2));
    }
  }

  /** A quotient near to a number less 2^64 is not that number. */
  lemma Wrapped(l: Word, r: Word, sum: int, rate: int)
    requires r > 0 && rate > 0 && WRAP <= sum < 2 * WRAP
    requires sum == WRAP ==> l == 0
    requires sum > WRAP ==> Near(l, r, sum - WRAP, rate)
    ensures !Same(l, r, sum, rate)
  {
    Positive(sum, r);
    if sum > WRAP {
      var wrapped := sum - WRAP;
      Monotonic(r + 1, 2 * r, wrapped);
      Strictly(2 * wrapped, sum, r);
    }
  }

  /** Nothing that is held is below zero. */
  lemma BestBelowZero(l: Word, r: Word, numerator: int, denominator: int)
    requires r > 0 && numerator < 0 && denominator > 0
    ensures Best(l, r, numerator, denominator)
  {
    forall length: Word, rate: Word | rate > 0 ensures !Same(length, rate, numerator, denominator) {
      Strictly(numerator, 0, rate);
      Monotonic(0, length, denominator);
    }
  }

  lemma LessNothing(l: Word, c: Word, rate: Word)
    requires c > 0 && rate > 0
    ensures IsDifference(l, c, l, c, 0, rate)
  {
    Found(l, c, l * rate, c * rate, rate);
  }

  lemma DifferenceAtOneRate(l: Word, r: Word, l1: Word, l2: Word, c: Word)
    requires c > 0 && Best(l, r, Minus64(l1, l2), c)
    ensures IsDifference(l, r, l1, c, l2, c)
  {
    AtOneRate(l1, l2, c);
    Positive(c, c);
    if l1 >= l2 {
      hide Best;
      BestScaled(l, r, l1 as int - l2 as int, c, c);
    } else {
      Strictly(l1, l2, c);
      BestBelowZero(l, r, l1 * c - l2 * c, c * c);
      hide Best;
    }
  }

  lemma DifferenceAtTwoRates(l: Word, r: Word, l1: Word, c1: Word, l2: Word, c2: Word)
    requires c1 > 0 && c2 > 0 && Product(c1, c2) > 0
    requires Best(l, r, Minus64(Product(l1, c2), Product(l2, c1)), Product(c1, c2))
    ensures IsDifference(l, r, l1, c1, l2, c2)
  {
    if l1 * c2 < l2 * c1 {
      BestBelowZero(l, r, l1 * c2 - l2 * c1, c1 * c2);
    }
    hide Best;
  }

  lemma Positive(a: int, b: int)
    requires a > 0 && b > 0
    ensures a * b > 0
  {
  }

  lemma InOrder(l1: Word, c1: Word, l2: Word, c2: Word)
    ensures c1 > 0 && c2 > 0 ==> (c2 * l1 < c1 * l2 <==> l1 as real / c1 as real < l2 as real / c2 as real)
  {
    if c1 > 0 && c2 > 0 {
      Quotient(l1, c1, l2, c2, l1 as real / c1 as real, l2 as real / c2 as real);
    }
  }

  lemma Quotient(l1: int, c1: int, l2: int, c2: int, x: real, y: real)
    requires c1 > 0 && c2 > 0 && x * c1 as real == l1 as real && y * c2 as real == l2 as real
    ensures c2 * l1 < c1 * l2 <==> x < y
  {
    var scale := c1 as real * c2 as real;
    assert (c2 * l1) as real == x * scale;
    assert (c1 * l2) as real == y * scale;
    RealOrder(x, y, scale);
  }

  lemma RealOrder(x: real, y: real, scale: real)
    requires scale > 0.0
    ensures x * scale < y * scale <==> x < y
  {
  }

  lemma UnitCombination(l: nat, c: nat, p: nat, q: nat, x: int, y: int, g: nat)
    requires g > 0 && l == p * g && c == q * g && x * l + y * c == g
    ensures x * p + y * q == 1
  {
    assert (x * p + y * q) * g == g;
  }

  lemma Quotients(l: nat, c: nat, p: nat, q: nat, x: int, y: int, g: nat)
    requires c > 0 && g > 0 && l == p * g && c == q * g && x * l + y * c == g
    ensures q > 0 && p <= l && q <= c && Same(p, q, l, c)
    ensures forall l': nat, c': nat | c' > 0 && Same(l', c', l, c) :: p <= l' && q <= c'
  {
    AtLeast(g, p + 1);
    AtLeast(g, q + 1);
    Scaled(p, q, g, l, c);
    UnitCombination(l, c, p, q, x, y, g);
    forall l': nat, c': nat | c' > 0 && Same(l', c', l, c) ensures p <= l' && q <= c' {
      LeastTerms(l, c, p, q, x, y, g, l', c');
    }
  }

  lemma LeastTerms(l: nat, c: nat, p: nat, q: nat, x: int, y: int, g: nat, l': nat, c': nat)
    requires g > 0 && l == p * g && c == q * g && x * p + y * q == 1 && q > 0 && c' > 0 && Same(l', c', l, c)
    ensures p <= l' && q <= c'
  {
    Associate(l', q, g);
    Associate(p, c', g);
    Cancelled(l' * q, p * c', g);
    if p > 0 {
      Multiples(p, q, x, y, l', c');
    } else {
      UnitFactor(y, q);
    }
  }

  lemma UnitFactor(y: int, q: nat)
    requires y * q == 1
    ensures q == 1
  {
  }

  /** Sums at different rates can need more than 64 bits, and then a sum that is a 32-bit number is missed. */
  lemma SumsCanWrap()
    ensures !SumFits(MAXIMUM, MAXIMUM, MAXIMUM - 1, MAXIMUM - 1)
    ensures Representable(MAXIMUM * (MAXIMUM - 1) + (MAXIMUM - 1) * MAXIMUM, MAXIMUM * (MAXIMUM - 1))
  {
    assert Same(2 as Word, 1 as Word, MAXIMUM * (MAXIMUM - 1) + (MAXIMUM - 1) * MAXIMUM, MAXIMUM * (MAXIMUM - 1));
  }

  /** Two whole units, each at a rate of its own, do not make two. */
  method OneAndOne() returns (length: Word, clockRate: Word)
    ensures clockRate > 0 && length != 2 * clockRate
  {
    var one := new Time(MAXIMUM, MAXIMUM);
    var another := new Time(MAXIMUM - 1, MAXIMUM - 1);
    one.AddAssign(another);
    SumsCanWrap();
    length, clockRate := one.length, one.clockRate;
  }
}
