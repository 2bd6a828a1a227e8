/** The 32-bit generator of cyclic redundancy checks: the source divides with the most significant bit first
    and reverses its inputs and its output, and so computes the check of section 8 of RFC 1952. */
module CRC32 {

  const POLYNOMIAL: bv32 := 0x04c11db7
  const RESET: bv32 := 0xffff_ffff

  function Xor(a: bv32, b: bv32): bv32 {
    a ^ b
  }

  function Doubled(v: bv32): bv32 {
    v << 1
  }

  predicate Top(v: bv32) {
    v & 0x8000_0000 != 0
  }

  // The specification: division by the polynomial, a bit of the message at a time.

  /** One step of the division, with nothing more of the message to bring in. */
  function Shift(v: bv32): bv32 {
    Xor(Doubled(v), if Top(v) then POLYNOMIAL else 0)
  }

  /** One step of the division with the next bit of the message. */
  function Step(v: bv32, bit: bool): bv32 {
    Shift(if bit then Xor(v, 0x8000_0000) else v)
  }

  /** Eight steps, most significant bit first. */
  function Byte(v: bv32, byte: bv8): bv32 {
    Step(Step(Step(Step(Step(Step(Step(Step(v,
      byte & 0x80 != 0), byte & 0x40 != 0), byte & 0x20 != 0), byte & 0x10 != 0),
      byte & 0x08 != 0), byte & 0x04 != 0), byte & 0x02 != 0), byte & 0x01 != 0)
  }

  function Remainder(v: bv32, message: seq<bv8>): bv32
    decreases |message|
  {
    if message == [] then v else Byte(Remainder(v, message[..|message| - 1]), message[|message| - 1])
  }

  // Laws.

  lemma XorLaws(a: bv32, b: bv32, c: bv32)
    ensures Xor(Xor(a, b), c) == Xor(a, Xor(b, c)) && Xor(a, b) == Xor(b, a)
    ensures Xor(a, a) == 0 && Xor(a, 0) == a
  {
    hide *;
    XorAssociates(a, b, c);
    XorCommutes(a, b);
    XorSelf(a);
    XorNothing(a);
  }

  lemma XorAssociates(a: bv32, b: bv32, c: bv32)
    ensures Xor(Xor(a, b), c) == Xor(a, Xor(b, c))
  {
  }

  lemma XorCommutes(a: bv32, b: bv32)
    ensures Xor(a, b) == Xor(b, a)
  {
  }

  lemma XorSelf(a: bv32)
    ensures Xor(a, a) == 0
  {
  }

  lemma XorNothing(a: bv32)
    ensures Xor(a, 0) == a
  {
  }

  lemma DoubledLinear(a: bv32, b: bv32)
    ensures Doubled(Xor(a, b)) == Xor(Doubled(a), Doubled(b))
  {
  }

  lemma TopLinear(a: bv32, b: bv32)
    ensures Top(Xor(a, b)) == (Top(a) != Top(b))
  {
  }

  lemma ShiftLinear(a: bv32, b: bv32)
    ensures Shift(Xor(a, b)) == Xor(Shift(a), Shift(b))
  {
    hide Xor, Doubled, Top;
    DoubledLinear(a, b);
    TopLinear(a, b);
    Regroup(Doubled(a), if Top(a) then POLYNOMIAL else 0, Doubled(b), if Top(b) then POLYNOMIAL else 0);
    XorLaws(POLYNOMIAL, 0, 0);
    XorLaws(0, POLYNOMIAL, 0);
  }

  lemma Regroup(a: bv32, b: bv32, c: bv32, d: bv32)
    ensures Xor(Xor(a, b), Xor(c, d)) == Xor(Xor(a, c), Xor(b, d))
  {
    hide Xor;
    XorLaws(a, b, Xor(c, d));
    XorLaws(b, c, d);
    XorLaws(c, b, d);
    XorLaws(a, c, Xor(b, d));
  }

  lemma StepLinear(v: bv32, w: bv32, x: bool, y: bool)
    ensures Step(Xor(v, w), x != y) == Xor(Step(v, x), Step(w, y))
  {
    hide Xor, Shift;
    XorLaws(0x8000_0000, 0, 0);
    XorLaws(0, 0x8000_0000, 0);
    XorLaws(Xor(v, w), 0, 0);
    XorLaws(v, 0, 0);
    XorLaws(w, 0, 0);
    var p: bv32, q: bv32 := if x then 0x8000_0000 else 0, if y then 0x8000_0000 else 0;
    Regroup(v, p, w, q);
    ShiftLinear(Xor(v, p), Xor(w, q));
  }

  /** A byte of two messages combined takes the combined remainder to the combined remainder. */
  lemma ByteLinear(v: bv32, w: bv32, x: bv8, y: bv8)
    ensures Byte(Xor(v, w), x ^ y) == Xor(Byte(v, x), Byte(w, y))
  {
    hide Xor, Step;
    BitsLinear(x, y);
    var v1, w1 := Step(v, x & 0x80 != 0), Step(w, y & 0x80 != 0);
    var v2, w2 := Step(v1, x & 0x40 != 0), Step(w1, y & 0x40 != 0);
    var v3, w3 := Step(v2, x & 0x20 != 0), Step(w2, y & 0x20 != 0);
    var v4, w4 := Step(v3, x & 0x10 != 0), Step(w3, y & 0x10 != 0);
    var v5, w5 := Step(v4, x & 0x08 != 0), Step(w4, y & 0x08 != 0);
    var v6, w6 := Step(v5, x & 0x04 != 0), Step(w5, y & 0x04 != 0);
    var v7, w7 := Step(v6, x & 0x02 != 0), Step(w6, y & 0x02 != 0);
    StepLinear(v, w, x & 0x80 != 0, y & 0x80 != 0);
    StepLinear(v1, w1, x & 0x40 != 0, y & 0x40 != 0);
    StepLinear(v2, w2, x & 0x20 != 0, y & 0x20 != 0);
    StepLinear(v3, w3, x & 0x10 != 0, y & 0x10 != 0);
    StepLinear(v4, w4, x & 0x08 != 0, y & 0x08 != 0);
    StepLinear(v5, w5, x & 0x04 != 0, y & 0x04 != 0);
    StepLinear(v6, w6, x & 0x02 != 0, y & 0x02 != 0);
    StepLinear(v7, w7, x & 0x01 != 0, y & 0x01 != 0);
  }

  lemma BitsLinear(x: bv8, y: bv8)
    ensures ((x ^ y) & 0x80 != 0) == ((x & 0x80 != 0) != (y & 0x80 != 0))
    ensures ((x ^ y) & 0x40 != 0) == ((x & 0x40 != 0) != (y & 0x40 != 0))
    ensures ((x ^ y) & 0x20 != 0) == ((x & 0x20 != 0) != (y & 0x20 != 0))
    ensures ((x ^ y) & 0x10 != 0) == ((x & 0x10 != 0) != (y & 0x10 != 0))
    ensures ((x ^ y) & 0x08 != 0) == ((x & 0x08 != 0) != (y & 0x08 != 0))
    ensures ((x ^ y) & 0x04 != 0) == ((x & 0x04 != 0) != (y & 0x04 != 0))
    ensures ((x ^ y) & 0x02 != 0) == ((x & 0x02 != 0) != (y & 0x02 != 0))
    ensures ((x ^ y) & 0x01 != 0) == ((x & 0x01 != 0) != (y & 0x01 != 0))
  {
  }

  // The table.

  function Eight(v: bv32): bv32 {
    Byte(v, 0)
  }

  function High(byte: bv8): bv32 {
    (byte as bv32) << 24
  }

  function TopByte(v: bv32): bv8 {
    (v >> 24) as bv8
  }

  function LowByte(v: bv32): bv32 {
    v & 0x00ff_ffff
  }

  /** The table's entry for a byte. */
  function Entry(c: bv8): bv32 {
    Eight(High(c))
  }

  /** The polynomial never reaches the three low bytes, which only move up. */
  lemma LowMovesUp(v: bv32)
    ensures Eight(LowByte(v)) == v << 8
  {
  }

  /** A byte that is also at the top of the remainder cancels, a bit at a time. */
  lemma Cancels(b: bv8)
    ensures Byte(High(b), b) == 0
  {
    var b1 := b << 1;
    var b2 := b1 << 1;
    var b3 := b2 << 1;
    var b4 := b3 << 1;
    var b5 := b4 << 1;
    var b6 := b5 << 1;
    var b7 := b6 << 1;
    BitsInTurn(b);
    hide High, Step;
    BitCancels(b);
    BitCancels(b1);
    BitCancels(b2);
    BitCancels(b3);
    BitCancels(b4);
    BitCancels(b5);
    BitCancels(b6);
    BitCancels(b7);
    NothingHigh();
  }

  lemma BitsInTurn(b: bv8)
    ensures (b << 1) & 0x80 != 0 <==> b & 0x40 != 0
    ensures (b << 1 << 1) & 0x80 != 0 <==> b & 0x20 != 0
    ensures (b << 1 << 1 << 1) & 0x80 != 0 <==> b & 0x10 != 0
    ensures (b << 1 << 1 << 1 << 1) & 0x80 != 0 <==> b & 0x08 != 0
    ensures (b << 1 << 1 << 1 << 1 << 1) & 0x80 != 0 <==> b & 0x04 != 0
    ensures (b << 1 << 1 << 1 << 1 << 1 << 1) & 0x80 != 0 <==> b & 0x02 != 0
    ensures (b << 1 << 1 << 1 << 1 << 1 << 1 << 1) & 0x80 != 0 <==> b & 0x01 != 0
    ensures b << 1 << 1 << 1 << 1 << 1 << 1 << 1 << 1 == 0
  {
  }

  lemma BitCancels(b: bv8)
    ensures Step(High(b), b & 0x80 != 0) == High(b << 1)
  {
    if b & 0x80 != 0 {
      TopCleared(b);
      DoubledHigh(b & 0x7f);
      assert (b & 0x7f) << 1 == b << 1;
    } else {
      DoubledHigh(b);
    }
    hide High, Doubled, Top, Xor;
    XorNothing(High(b << 1));
  }

  lemma TopCleared(b: bv8)
    requires b & 0x80 != 0
    ensures Xor(High(b), 0x8000_0000) == High(b & 0x7f) && (b & 0x7f) & 0x80 == 0
  {
  }

  lemma DoubledHigh(b: bv8)
    requires b & 0x80 == 0
    ensures !Top(High(b)) && Doubled(High(b)) == High(b << 1)
  {
  }

  lemma NothingHigh()
    ensures High(0) == 0
  {
  }

  lemma Halves(v: bv32, b: bv8)
    ensures v == Xor(LowByte(v), High(TopByte(v)))
    ensures High(TopByte(v)) == Xor(High(TopByte(v) ^ b), High(b))
  {
  }

  /** The table gives eight steps at once. */
  lemma TableIsDivision(v: bv32, b: bv8)
    ensures Byte(v, b) == Xor(v << 8, Entry(TopByte(v) ^ b))
  {
    var t := TopByte(v);
    Halves(v, b);
    LowMovesUp(v);
    Cancels(b);
    hide Xor, High, LowByte, TopByte, Byte;
    ByteLinear(LowByte(v), High(t), 0, b);
    ByteLinear(High(t ^ b), High(b), 0, b);
    XorLaws(Byte(High(t ^ b), 0), 0, 0);
    assert (0 as bv8) ^ b == b;
  }

  lemma ZeroSteps(v: bv32)
    ensures Eight(v) == Shift(Shift(Shift(Shift(Shift(Shift(Shift(Shift(v))))))))
  {
    hide Shift;
  }

  // The generator.

  function Shifts(v: bv32, n: nat): bv32 {
    if n == 0 then v else Shift(Shifts(v, n - 1))
  }

  lemma EightShifts(v: bv32)
    ensures Shifts(v, 8) == Eight(v)
  {
    ZeroSteps(v);
    hide Shift;
    assert Shifts(v, 0) == v && Shifts(v, 2) == Shift(Shift(v));
    assert Shifts(v, 4) == Shift(Shift(Shifts(v, 2))) && Shifts(v, 6) == Shift(Shift(Shifts(v, 4)));
  }

  /** A byte as an index of the table. */
  datatype Index = Index(byte: bv8)

  ghost predicate Filled(table: map<Index, bv32>, n: bv32) {
    forall c: bv8 | (c as bv32) < n :: Index(c) in table && table[Index(c)] == Entry(c)
  }

  method BuildTable() returns (table: map<Index, bv32>)
    ensures forall c: bv8 :: Index(c) in table && table[Index(c)] == Entry(c)
  {
    hide Shift, Eight, High, Filled, Xor, Doubled, Top;
    table := map[];
    var c: bv32 := 0;
    NoneFilled(table);
    while c < 256
      invariant c <= 256 && Filled(table, c)
      decreases 256 - c
    {
      var index := ByteOf(c);
      var v := High(index);
      for b := 0 to 8
        invariant v == Shifts(High(index), b)
      {
        ShiftIs(v);
        var exclusiveOr := if Top(v) then POLYNOMIAL else 0;
        v := Xor(Doubled(v), exclusiveOr);
      }
      EightShifts(High(index));
      OneFilled(table, c);
      table := table[Index(index) := v];
      c := c + 1;
    }
    AllFilled(table, c);
  }

  function ByteOf(c: bv32): bv8 {
    (c & 0xff) as bv8
  }

  lemma ShiftIs(v: bv32)
    ensures Shift(v) == Xor(Doubled(v), if Top(v) then POLYNOMIAL else 0)
  {
  }

  lemma NoneFilled(table: map<Index, bv32>)
    ensures Filled(table, 0)
  {
  }

  lemma OneFilled(table: map<Index, bv32>, c: bv32)
    requires c < 256 && Filled(table, c)
    ensures Filled(table[Index(ByteOf(c)) := Entry(ByteOf(c))], c + 1) && c + 1 <= 256
  {
    hide Entry, ByteOf;
    var more := table[Index(ByteOf(c)) := Entry(ByteOf(c))];
    forall k: bv8 | (k as bv32) < c + 1 ensures Index(k) in more && more[Index(k)] == Entry(k) {
      NextIndex(k, c);
      if (k as bv32) < c {
        assert Index(k) in table && table[Index(k)] == Entry(k);
      }
    }
  }

  lemma NextIndex(k: bv8, c: bv32)
    requires c < 256 && (k as bv32) < c + 1
    ensures (k as bv32) < c || k == ByteOf(c)
  {
  }

  lemma AllFilled(table: map<Index, bv32>, c: bv32)
    requires c >= 256 && Filled(table, c)
    ensures forall k: bv8 :: Index(k) in table && table[Index(k)] == Entry(k)
  {
    hide Entry;
  }

  // Reflection.

  /** A byte with its bits in the opposite order: halves, pairs and then single bits exchanged. */
  function Reverse8(b: bv8): bv8 {
    var c := ((b & 0xf0) >> 4) | ((b & 0x0f) << 4);
    var d := ((c & 0xcc) >> 2) | ((c & 0x33) << 2);
    ((d & 0xaa) >> 1) | ((d & 0x55) << 1)
  }

  function Upper8(v: bv16): bv8 {
    (v >> 8) as bv8
  }

  function Lower8(v: bv16): bv8 {
    (v & 0xff) as bv8
  }

  function Join8(high: bv8, low: bv8): bv16 {
    (low as bv16) | ((high as bv16) << 8)
  }

  function Upper16(v: bv32): bv16 {
    (v >> 16) as bv16
  }

  function Lower16(v: bv32): bv16 {
    (v & 0xffff) as bv16
  }

  function Join16(high: bv16, low: bv16): bv32 {
    (low as bv32) | ((high as bv32) << 16)
  }

  /** A word is reversed by reversing its halves and exchanging them. */
  function Reverse16(v: bv16): bv16 {
    Join8(Reverse8(Lower8(v)), Reverse8(Upper8(v)))
  }

  function Reverse32(v: bv32): bv32 {
    Join16(Reverse16(Lower16(v)), Reverse16(Upper16(v)))
  }

  function Bytes(b3: bv8, b2: bv8, b1: bv8, b0: bv8): bv32 {
    ((b3 as bv32) << 24) | ((b2 as bv32) << 16) | ((b1 as bv32) << 8) | (b0 as bv32)
  }

  lemma Byte3(b3: bv8, b2: bv8, b1: bv8, b0: bv8)
    ensures Upper8(Upper16(Bytes(b3, b2, b1, b0))) == b3
  {
  }

  lemma Byte2(b3: bv8, b2: bv8, b1: bv8, b0: bv8)
    ensures Lower8(Upper16(Bytes(b3, b2, b1, b0))) == b2
  {
  }

  lemma Byte1(b3: bv8, b2: bv8, b1: bv8, b0: bv8)
    ensures Upper8(Lower16(Bytes(b3, b2, b1, b0))) == b1
  {
  }

  lemma Byte0(b3: bv8, b2: bv8, b1: bv8, b0: bv8)
    ensures Lower8(Lower16(Bytes(b3, b2, b1, b0))) == b0
  {
  }

  lemma Joined(b3: bv8, b2: bv8, b1: bv8, b0: bv8)
    ensures Join16(Join8(b3, b2), Join8(b1, b0)) == Bytes(b3, b2, b1, b0)
  {
  }

  lemma SplitBytes(v: bv32) returns (b3: bv8, b2: bv8, b1: bv8, b0: bv8)
    ensures v == Bytes(b3, b2, b1, b0)
  {
    b3, b2, b1, b0 := (v >> 24) as bv8, ((v >> 16) & 0xff) as bv8, ((v >> 8) & 0xff) as bv8, (v & 0xff) as bv8;
  }

  /** The bytes are exchanged end for end, and each of them reversed. */
  lemma ReverseBytes(b3: bv8, b2: bv8, b1: bv8, b0: bv8)
    ensures Reverse32(Bytes(b3, b2, b1, b0)) == Bytes(Reverse8(b0), Reverse8(b1), Reverse8(b2), Reverse8(b3))
  {
    hide Reverse8, Bytes, Upper8, Lower8, Upper16, Lower16, Join8, Join16;
    Byte3(b3, b2, b1, b0);
    Byte2(b3, b2, b1, b0);
    Byte1(b3, b2, b1, b0);
    Byte0(b3, b2, b1, b0);
    Joined(Reverse8(b0), Reverse8(b1), Reverse8(b2), Reverse8(b3));
  }

  /** Reversal is its own inverse, and exchanges the first bit with the last. */
  lemma ReverseTwice(b: bv8)
    ensures Reverse8(Reverse8(b)) == b
    ensures (Reverse8(b) & 0x01 != 0) == (b & 0x80 != 0) && (Reverse8(b) & 0x80 != 0) == (b & 0x01 != 0)
    ensures (Reverse8(b) & 0x02 != 0) == (b & 0x40 != 0) && (Reverse8(b) & 0x40 != 0) == (b & 0x02 != 0)
    ensures (Reverse8(b) & 0x04 != 0) == (b & 0x20 != 0) && (Reverse8(b) & 0x20 != 0) == (b & 0x04 != 0)
    ensures (Reverse8(b) & 0x08 != 0) == (b & 0x10 != 0) && (Reverse8(b) & 0x10 != 0) == (b & 0x08 != 0)
  {
  }

  function Halved(v: bv32): bv32 {
    v >> 1
  }

  predicate Lowest(v: bv32) {
    v & 1 != 0
  }

  lemma ReverseLinear(a: bv32, b: bv32)
    ensures Reverse32(Xor(a, b)) == Xor(Reverse32(a), Reverse32(b))
  {
  }

  function Up(b: bv8, carry: bool): bv8 {
    (b << 1) | (if carry then 1 else 0)
  }

  function Down(b: bv8, carry: bool): bv8 {
    (b >> 1) | (if carry then 0x80 else 0)
  }

  lemma ReverseUp(b: bv8, carry: bool)
    ensures Reverse8(Up(b, carry)) == Down(Reverse8(b), carry)
    ensures (Reverse8(b) & 1 != 0) == (b & 0x80 != 0)
  {
  }

  lemma DoubledBytes(b3: bv8, b2: bv8, b1: bv8, b0: bv8)
    ensures Doubled(Bytes(b3, b2, b1, b0)) ==
            Bytes(Up(b3, b2 & 0x80 != 0), Up(b2, b1 & 0x80 != 0), Up(b1, b0 & 0x80 != 0), Up(b0, false))
    ensures Top(Bytes(b3, b2, b1, b0)) == (b3 & 0x80 != 0)
  {
  }

  lemma HalvedBytes(b3: bv8, b2: bv8, b1: bv8, b0: bv8)
    ensures Halved(Bytes(b3, b2, b1, b0)) ==
            Bytes(Down(b3, false), Down(b2, b3 & 1 != 0), Down(b1, b2 & 1 != 0), Down(b0, b1 & 1 != 0))
    ensures Lowest(Bytes(b3, b2, b1, b0)) == (b0 & 1 != 0)
  {
  }

  lemma ReverseDoubled(v: bv32)
    ensures Reverse32(Doubled(v)) == Halved(Reverse32(v)) && Lowest(Reverse32(v)) == Top(v)
  {
    var b3, b2, b1, b0 := SplitBytes(v);
    hide Bytes, Reverse8, Reverse32, Doubled, Halved, Top, Lowest, Up, Down;
    ReverseBytes(b3, b2, b1, b0);
    DoubledBytes(b3, b2, b1, b0);
    ReverseUp(b3, b2 & 0x80 != 0);
    ReverseUp(b2, b1 & 0x80 != 0);
    ReverseUp(b1, b0 & 0x80 != 0);
    ReverseUp(b0, false);
    ReverseBytes(Up(b3, b2 & 0x80 != 0), Up(b2, b1 & 0x80 != 0), Up(b1, b0 & 0x80 != 0), Up(b0, false));
    HalvedBytes(Reverse8(b0), Reverse8(b1), Reverse8(b2), Reverse8(b3));
  }

  lemma ReversePolynomial()
    ensures Reverse32(POLYNOMIAL) == 0xedb8_8320 && Reverse32(0) == 0 && Reverse32(RESET) == RESET
  {
  }

  function LowestByte(c: bv32): bv8 {
    (c & 0xff) as bv8
  }

  lemma BytesMoved(b3: bv8, b2: bv8, b1: bv8, b0: bv8)
    ensures Bytes(b3, b2, b1, b0) << 8 == Bytes(b2, b1, b0, 0)
    ensures Bytes(b3, b2, b1, b0) >> 8 == Bytes(0, b3, b2, b1)
    ensures High(b0) == Bytes(b0, 0, 0, 0)
    ensures b0 as bv32 == Bytes(0, 0, 0, b0)
    ensures TopByte(Bytes(b3, b2, b1, b0)) == b3
    ensures LowestByte(Bytes(b3, b2, b1, b0)) == b0
  {
  }

  lemma ReverseZero()
    ensures Reverse8(0) == 0
  {
  }

  lemma ReverseMoved(v: bv32, b: bv8)
    ensures Reverse32(v << 8) == Reverse32(v) >> 8
    ensures Reverse32(High(b)) == Reverse8(b) as bv32
    ensures Reverse8(TopByte(v)) == LowestByte(Reverse32(v))
  {
    hide *;
    var b3, b2, b1, b0 := SplitBytes(v);
    ReverseZero();
    BytesMoved(b3, b2, b1, b0);
    BytesMoved(b, 0, 0, b);
    BytesMoved(Reverse8(b0), Reverse8(b1), Reverse8(b2), Reverse8(b3));
    BytesMoved(0, 0, 0, Reverse8(b));
    ReverseBytes(b3, b2, b1, b0);
    ReverseBytes(b2, b1, b0, 0);
    ReverseBytes(b, 0, 0, 0);
  }

  // The algorithm of RFC 1952, least significant bit first.

  function LsbShift(c: bv32): bv32 {
    if Lowest(c) then Xor(0xedb8_8320, Halved(c)) else Halved(c)
  }

  function LsbEight(c: bv32): bv32 {
    LsbShift(LsbShift(LsbShift(LsbShift(LsbShift(LsbShift(LsbShift(LsbShift(c))))))))
  }

  /** Its table, for each byte. */
  function LsbEntry(n: bv8): bv32 {
    LsbEight(n as bv32)
  }

  function LsbByte(c: bv32, byte: bv8): bv32 {
    Xor(LsbEntry(LowestByte(c) ^ byte), c >> 8)
  }

  function LsbUpdate(c: bv32, data: seq<bv8>): bv32
    decreases |data|
  {
    if data == [] then c else LsbByte(LsbUpdate(c, data[..|data| - 1]), data[|data| - 1])
  }

  /** The check of some data: ones' complement before and after. */
  function Rfc1952(data: seq<bv8>): bv32 {
    Xor(LsbUpdate(Xor(0, 0xffff_ffff), data), 0xffff_ffff)
  }

  lemma ReverseShift(v: bv32)
    ensures Reverse32(Shift(v)) == LsbShift(Reverse32(v))
  {
    ReverseDoubled(v);
    ReversePolynomial();
    XorLaws(Halved(Reverse32(v)), 0xedb8_8320, 0);
    hide Reverse32, Xor, Doubled, Halved, Top, Lowest;
    ReverseLinear(Doubled(v), if Top(v) then POLYNOMIAL else 0);
  }

  lemma ReverseEight(v: bv32)
    ensures Reverse32(Eight(v)) == LsbEight(Reverse32(v))
  {
    ZeroSteps(v);
    hide Reverse32, Shift, LsbShift, Eight;
    var v1 := Shift(v);
    var v2 := Shift(v1);
    var v3 := Shift(v2);
    var v4 := Shift(v3);
    var v5 := Shift(v4);
    var v6 := Shift(v5);
    var v7 := Shift(v6);
    ReverseShift(v);
    ReverseShift(v1);
    ReverseShift(v2);
    ReverseShift(v3);
    ReverseShift(v4);
    ReverseShift(v5);
    ReverseShift(v6);
    ReverseShift(v7);
  }

  lemma ReverseCombined(b: bv8, c: bv8)
    ensures Reverse8(b ^ c) == Reverse8(b) ^ Reverse8(c)
  {
  }

  /** A reversed byte brought in to a reversed remainder. */
  lemma ReverseByte(v: bv32, byte: bv8)
    ensures Reverse32(Byte(v, Reverse8(byte))) == LsbByte(Reverse32(v), byte)
  {
    var t := TopByte(v) ^ Reverse8(byte);
    TableIsDivision(v, Reverse8(byte));
    ReverseLinear(v << 8, Entry(t));
    ReverseMoved(v, t);
    ReverseEight(High(t));
    ReverseCombined(TopByte(v), Reverse8(byte));
    ReverseTwice(byte);
    XorLaws(LsbEntry(LowestByte(Reverse32(v)) ^ byte), Reverse32(v) >> 8, 0);
    hide Reverse32, Xor, TopByte, LowestByte, High, LsbEight, Byte, Eight, Reverse8;
  }

  lemma {:induction false} ReverseRemainder(v: bv32, data: seq<bv8>)
    ensures Reverse32(Remainder(v, Reversed(data))) == LsbUpdate(Reverse32(v), data)
    decreases |data|
  {
    hide Byte, Reverse32, Reverse8, LsbByte;
    if data != [] {
      var before := data[..|data| - 1];
      ReverseRemainder(v, before);
      assert Reversed(data) == Reversed(before) + [Reverse8(data[|data| - 1])];
      assert Reversed(data)[..|data| - 1] == Reversed(before);
      ReverseByte(Remainder(v, Reversed(before)), data[|data| - 1]);
    }
  }

  /** Data with each of its bytes reversed. */
  function Reversed(data: seq<bv8>): (r: seq<bv8>)
    ensures |r| == |data|
    decreases |data|
  {
    if data == [] then [] else Reversed(data[..|data| - 1]) + [Reverse8(data[|data| - 1])]
  }

  class Generator {
    var value: bv32
    const table: map<Index, bv32>

    ghost predicate Valid() {
      forall c: bv8 :: Index(c) in table && table[Index(c)] == Entry(c)
    }

    constructor ()
      ensures Valid() && value == RESET
    {
      var built := BuildTable();
      value, table := RESET, built;
    }

    method Reset()
      modifies this
      ensures value == RESET
    {
      value := RESET;
    }

    method Add(byte: bv8)
      requires Valid()
      modifies this
      ensures value == Byte(old(value), Reverse8(byte))
    {
      TableIsDivision(value, Reverse8(byte));
      hide Byte, Entry, TopByte, Reverse8;
      var index := TopByte(value) ^ Reverse8(byte);
      value := Xor(value << 8, table[Index(index)]);
    }

    method GetValue() returns (crc: bv32)
      ensures crc == Reverse32(Xor(value, 0xffff_ffff))
    {
      crc := Reverse32(Xor(value, 0xffff_ffff));
    }

    method SetValue(value: bv32)
      modifies this
      ensures this.value == value
    {
      this.value := value;
    }
  }

  /** The generator computes the check of RFC 1952. */
  method CrcOf(data: seq<bv8>) returns (crc: bv32)
    ensures crc == Rfc1952(data)
  {
    hide Byte, Reverse8, Reverse32, Xor;
    var generator := new Generator();
    for i := 0 to |data|
      invariant generator.Valid() && generator.value == Remainder(RESET, Reversed(data[..i]))
    {
      generator.Add(data[i]);
      NextReversed(data, i);
    }
    assert data[..|data|] == data;
    crc := generator.GetValue();
    ReverseRemainder(RESET, data);
    ReverseLinear(generator.value, 0xffff_ffff);
    ReversePolynomial();
    XorLaws(0xffff_ffff, 0, 0);
    XorLaws(0, 0xffff_ffff, 0);
  }

  lemma NextReversed(data: seq<bv8>, i: nat)
    requires i < |data|
    ensures Remainder(RESET, Reversed(data[..i + 1])) == Byte(Remainder(RESET, Reversed(data[..i])), Reverse8(data[i]))
  {
    hide Byte, Reverse8;
    assert data[..i + 1][..i] == data[..i];
    assert Reversed(data[..i + 1])[..i] == Reversed(data[..i]);
  }
}
