/** Integer arithmetic that several of the components share. */
module Arithmetic {

  function Pow2(n: nat): (p: nat)
    ensures p >= 1
  {
    if n == 0 then 1 else 2 * Pow2(n - 1)
  }

  lemma Doubles(n: nat)
    ensures Pow2(n + 1) == 2 * Pow2(n)
  {
  }

  lemma Associate(a: int, b: int, c: int)
    ensures a * b * c == a * (b * c)
  {
  }

  lemma {:induction false} Pow2Sum(a: nat, b: nat)
    ensures Pow2(a + b) == Pow2(a) * Pow2(b)
  {
    if a == 0 {
    } else {
      Doubles(a - 1);
      Doubles(a + b - 1);
      hide Pow2;
      Pow2Sum(a - 1, b);
      Associate(2, Pow2(a - 1), Pow2(b));
    }
  }

  lemma {:induction false} Pow2Increases(a: nat, b: nat)
    requires a < b
    ensures Pow2(a) < Pow2(b)
  {
    if a > 0 {
      Pow2Increases(a - 1, b - 1);
    }
  }

  lemma Pow2AtMost(a: nat, b: nat)
    requires a <= b
    ensures Pow2(a) <= Pow2(b)
  {
    if a < b {
      Pow2Increases(a, b);
    }
  }

  function Sum(terms: seq<int>): int {
    if terms == [] then 0 else Sum(terms[..|terms| - 1]) + terms[|terms| - 1]
  }

  lemma SumAppend(terms: seq<int>, x: int)
    ensures Sum(terms + [x]) == Sum(terms) + x
  {
    assert (terms + [x])[..|terms|] == terms;
  }

  /** Division as C++ does it, towards zero. */
  function Truncated(a: int, b: int): int
    requires b > 0
  {
    if a >= 0 then a / b else -((-a) / b)
  }

  lemma TruncatedRemainder(a: int, b: int)
    requires b > 0
    ensures a >= 0 ==> 0 <= a - Truncated(a, b) * b < b
    ensures a < 0 ==> -b < a - Truncated(a, b) * b <= 0
    ensures a >= 0 ==> Truncated(a, b) >= 0
  {
    var n := if a >= 0 then a else -a;
    Divides(n, b);
  }

  lemma Divides(n: nat, b: int)
    requires b > 0
    ensures 0 <= n - n / b * b < b && n / b >= 0 && n % b == n - n / b * b
  {
    assert n == n / b * b + n % b;
  }

  lemma FloorDivides(v: int, p: int)
    requires p >= 1
    ensures v / p * p + v % p == v && 0 <= v % p < p && (v >= 0 ==> v / p >= 0)
  {
  }

  /** A quotient and remainder are the only ones there are. */
  lemma DivisionIsUnique(n: int, p: int, q: int, r: int)
    requires p > 0 && q * p + r == n && 0 <= r < p
    ensures q == n / p && r == n % p
  {
    assert n / p * p + n % p == n;
    Monotonic(q + 1, n / p, p);
    Monotonic(n / p + 1, q, p);
  }

  /** Reducing a part of a sum beforehand makes no difference. */
  lemma ReducedBefore(a: int, d: int, m: int)
    requires m > 0
    ensures (a % m + d) % m == (a + d) % m
  {
    var r := a % m + d;
    FloorDivides(a, m);
    FloorDivides(r, m);
    Distribute(a / m, r / m, m);
    DivisionIsUnique(a + d, m, a / m + r / m, r % m);
  }

  lemma Monotonic(a: int, b: int, p: int)
    requires p >= 0
    ensures a <= b ==> a * p <= b * p
  {
  }

  lemma Distribute(a: int, b: int, c: int)
    ensures (a + b) * c == a * c + b * c
  {
  }
}
