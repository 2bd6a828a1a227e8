/** The errors a 16-bit check is sure to detect: any that are confined to 16 consecutive bits. */
module CRC16Bursts {
  import opened CRC16

  // A message as bits, which need not be divided where its bytes are.

  function BitsOf(b: bv8): (bits: seq<bool>)
    ensures |bits| == 8
  {
    [b & 0x80 != 0, b & 0x40 != 0, b & 0x20 != 0, b & 0x10 != 0,
     b & 0x08 != 0, b & 0x04 != 0, b & 0x02 != 0, b & 0x01 != 0]
  }

  function MessageBits(message: seq<bv8>): (bits: seq<bool>)
    ensures |bits| == 8 * |message|
    decreases |message|
  {
    if message == [] then [] else MessageBits(message[..|message| - 1]) + BitsOf(message[|message| - 1])
  }

  function Steps(v: bv16, bits: seq<bool>): bv16
    decreases |bits|
  {
    if bits == [] then v else Steps(Step(v, bits[0]), bits[1..])
  }

  lemma {:induction false} StepsConcat(v: bv16, a: seq<bool>, b: seq<bool>)
    ensures Steps(v, a + b) == Steps(Steps(v, a), b)
    decreases |a|
  {
    hide Step;
    if a == [] {
      assert a + b == b;
    } else {
      assert (a + b)[1..] == a[1..] + b;
      StepsConcat(Step(v, a[0]), a[1..], b);
    }
  }

  lemma ByteIsSteps(v: bv16, b: bv8)
    ensures Byte(v, b) == Steps(v, BitsOf(b))
  {
    hide Step, Steps;
    var bits := BitsOf(b);
    var v4 := Step(Step(Step(Step(v, bits[0]), bits[1]), bits[2]), bits[3]);
    assert bits[..4] == [bits[0], bits[1], bits[2], bits[3]] && bits[4..] == [bits[4], bits[5], bits[6], bits[7]];
    assert bits == bits[..4] + bits[4..];
    StepsConcat(v, bits[..4], bits[4..]);
    FourSteps(v, bits[0], bits[1], bits[2], bits[3]);
    FourSteps(v4, bits[4], bits[5], bits[6], bits[7]);
  }

  lemma FirstStep(v: bv16, bits: seq<bool>)
    requires bits != []
    ensures Steps(v, bits) == Steps(Step(v, bits[0]), bits[1..])
  {
  }

  lemma FourSteps(v: bv16, a: bool, b: bool, c: bool, d: bool)
    ensures Steps(v, [a, b, c, d]) == Step(Step(Step(Step(v, a), b), c), d)
  {
    hide Step, Steps;
    assert [a, b, c, d][1..] == [b, c, d] && [b, c, d][1..] == [c, d] && [c, d][1..] == [d] && [d][1..] == [];
    FirstStep(v, [a, b, c, d]);
    FirstStep(Step(v, a), [b, c, d]);
    FirstStep(Step(Step(v, a), b), [c, d]);
    FirstStep(Step(Step(Step(v, a), b), c), [d]);
    NoSteps(Step(Step(Step(Step(v, a), b), c), d));
  }

  lemma NoSteps(v: bv16)
    ensures Steps(v, []) == v
  {
  }

  lemma {:induction false} RemainderIsSteps(v: bv16, message: seq<bv8>)
    ensures Remainder(v, message) == Steps(v, MessageBits(message))
    decreases |message|
  {
    hide Byte, BitsOf, Step;
    if message != [] {
      var before, last := message[..|message| - 1], message[|message| - 1];
      RemainderIsSteps(v, before);
      StepsConcat(v, MessageBits(before), BitsOf(last));
      ByteIsSteps(Remainder(v, before), last);
    }
  }

  // Which differences between remainders can be lost.

  function Halved(v: bv16): bv16 {
    v >> 1
  }

  function And(a: bv16, b: bv16): bv16 {
    a & b
  }

  predicate Odd(v: bv16) {
    v & 1 == 1
  }

  /** The low 16 - k bits. */
  function Mask(k: nat): bv16 {
    if k == 0 then 0xffff else Halved(Mask(k - 1))
  }

  lemma MaskOdd(k: nat)
    requires k <= 15
    ensures Odd(Mask(k))
  {
    assert Mask(1) == 0x7fff && Mask(2) == 0x3fff;
    assert Mask(3) == 0x1fff && Mask(4) == 0x0fff;
    assert Mask(5) == 0x07ff && Mask(6) == 0x03ff;
    assert Mask(7) == 0x01ff && Mask(8) == 0x00ff;
    assert Mask(9) == 0x007f && Mask(10) == 0x003f;
    assert Mask(11) == 0x001f && Mask(12) == 0x000f;
    assert Mask(13) == 0x0007 && Mask(14) == 0x0003 && Mask(15) == 0x0001;
  }

  /** If a shift leaves nothing in the low bits then it did not bring the polynomial in, which is odd, and there
      was nothing in one bit fewer. */
  lemma ShiftCleared(e: bv16, mask: bv16)
    requires Odd(mask) && And(Shift(e), mask) == 0
    ensures And(e, Halved(mask)) == 0
  {
  }

  lemma TopUnmasked(e: bv16, mask: bv16)
    ensures And(Xor(e, 0x8000), Halved(mask)) == And(e, Halved(mask))
  {
  }

  lemma NothingMasked(mask: bv16)
    ensures And(0, mask) == 0
  {
  }

  /** A difference between remainders that k bits cannot put right unless its low 16 - k bits are clear. */
  lemma {:induction false} DifferenceLost(v: bv16, w: bv16, a: seq<bool>, b: seq<bool>)
    requires |a| == |b| <= 16 && Steps(v, a) == Steps(w, b)
    ensures And(Xor(v, w), Mask(|a|)) == 0
    decreases |a|
  {
    hide Step, Shift, Xor, And, Odd, Halved;
    if a == [] {
      XorSelf(v);
      NothingMasked(Mask(0));
    } else {
      var e, mask := Xor(v, w), Mask(|a| - 1);
      DifferenceLost(Step(v, a[0]), Step(w, b[0]), a[1..], b[1..]);
      StepLinear(v, w, a[0], b[0]);
      StepIs(e, a[0] != b[0]);
      MaskOdd(|a| - 1);
      ShiftCleared(if a[0] != b[0] then Xor(e, 0x8000) else e, mask);
      TopUnmasked(e, mask);
    }
  }

  lemma StepIs(v: bv16, bit: bool)
    ensures Step(v, bit) == Shift(if bit then Xor(v, 0x8000) else v)
  {
  }

  /** Different sequences of at most 16 bits take a remainder to different remainders. */
  lemma {:induction false} ShortDifference(v: bv16, a: seq<bool>, b: seq<bool>)
    requires |a| == |b| <= 16 && a != b
    ensures Steps(v, a) != Steps(v, b)
    decreases |a|
  {
    hide Step, Xor, And, Odd, Halved;
    if a[0] == b[0] {
      assert a == [a[0]] + a[1..] && b == [b[0]] + b[1..];
      ShortDifference(Step(v, a[0]), a[1..], b[1..]);
    } else if Steps(v, a) == Steps(v, b) {
      DifferenceLost(Step(v, a[0]), Step(v, b[0]), a[1..], b[1..]);
      StepLinear(v, v, a[0], b[0]);
      XorSelf(v);
      MaskOdd(|a| - 1);
      PolynomialKept(Mask(|a| - 1));
    }
  }

  lemma PolynomialKept(mask: bv16)
    requires Odd(mask)
    ensures And(Step(0, true), mask) != 0
  {
    assert Step(0, true) == POLYNOMIAL;
  }

  /** Nor does any number of equal bits take different remainders to the same one. */
  lemma {:induction false} StepsKeepDifference(v: bv16, w: bv16, bits: seq<bool>)
    requires v != w
    ensures Steps(v, bits) != Steps(w, bits)
    decreases |bits|
  {
    hide Step, Shift, Xor;
    if bits != [] {
      StepLinear(v, w, bits[0], bits[0]);
      StepIs(Xor(v, w), false);
      XorZero(v, w);
      XorZero(Step(v, bits[0]), Step(w, bits[0]));
      if Step(v, bits[0]) == Step(w, bits[0]) {
        ShiftLosesNothing(Xor(v, w));
      }
      StepsKeepDifference(Step(v, bits[0]), Step(w, bits[0]), bits[1..]);
    }
  }

  lemma BitsBurst(v: bv16, before: seq<bool>, a: seq<bool>, b: seq<bool>, after: seq<bool>)
    requires |a| == |b| <= 16 && a != b
    ensures Steps(v, before + (a + after)) != Steps(v, before + (b + after))
  {
    hide *;
    var r := Steps(v, before);
    StepsConcat(v, before, a + after);
    StepsConcat(v, before, b + after);
    StepsConcat(r, a, after);
    StepsConcat(r, b, after);
    ShortDifference(r, a, b);
    StepsKeepDifference(Steps(r, a), Steps(r, b), after);
  }

  /** Different messages are of different bits. */
  lemma {:induction false} BitsDiffer(m: seq<bv8>, n: seq<bv8>)
    requires |m| == |n| && m != n
    ensures MessageBits(m) != MessageBits(n)
    decreases |m|
  {
    hide BitsOf;
    var k := |m| - 1;
    assert m == m[..k] + [m[k]] && n == n[..k] + [n[k]];
    var x, y := MessageBits(m[..k]), MessageBits(n[..k]);
    if MessageBits(m) == MessageBits(n) {
      assert x == MessageBits(m)[..8 * k] == y;
      assert BitsOf(m[k]) == MessageBits(m)[8 * k..] == BitsOf(n[k]);
      ByteIsItsBits(m[k], n[k]);
      if m[..k] != n[..k] {
        BitsDiffer(m[..k], n[..k]);
      }
    }
  }

  lemma ByteIsItsBits(x: bv8, y: bv8)
    requires BitsOf(x) == BitsOf(y)
    ensures x == y
  {
    assert forall i | 0 <= i < 8 :: BitsOf(x)[i] == BitsOf(y)[i];
    SameBits(x, y);
  }

  lemma SameBits(x: bv8, y: bv8)
    requires (x & 0x80 != 0 <==> y & 0x80 != 0) && (x & 0x40 != 0 <==> y & 0x40 != 0)
    requires (x & 0x20 != 0 <==> y & 0x20 != 0) && (x & 0x10 != 0 <==> y & 0x10 != 0)
    requires (x & 0x08 != 0 <==> y & 0x08 != 0) && (x & 0x04 != 0 <==> y & 0x04 != 0)
    requires (x & 0x02 != 0 <==> y & 0x02 != 0) && (x & 0x01 != 0 <==> y & 0x01 != 0)
    ensures x == y
  {
  }

  lemma InThree(x: seq<bool>, from: nat, end: nat)
    requires from <= end <= |x|
    ensures x == x[..from] + (x[from..end] + x[end..])
  {
  }

  /** Any error confined to 16 consecutive bits of a message, of which it may have any number wrong and which may
      lie across three bytes, changes the check, wherever it is and whatever follows. */
  lemma BurstDetected(v: bv16, m: seq<bv8>, n: seq<bv8>, start: nat)
    requires |m| == |n| && m != n
    requires forall i | 0 <= i < 8 * |m| && !(start <= i < start + 16) :: MessageBits(m)[i] == MessageBits(n)[i]
    ensures Remainder(v, m) != Remainder(v, n)
  {
    hide MessageBits, Steps, Remainder;
    RemainderIsSteps(v, m);
    RemainderIsSteps(v, n);
    BitsDiffer(m, n);
    var x, y := MessageBits(m), MessageBits(n);
    var from := if start < |x| then start else |x|;
    var end := if start + 16 < |x| then start + 16 else |x|;
    InThree(x, from, end);
    InThree(y, from, end);
    assert x[..from] == y[..from];
    assert x[end..] == y[end..];
    BitsBurst(v, x[..from], x[from..end], y[from..end], x[end..]);
  }
}
