/** The 16-bit CCITT generator of cyclic redundancy checks, polynomial 0x1021 and reset value 0xffff. */
module CRC16 {

  const POLYNOMIAL: bv16 := 0x1021
  const RESET: bv16 := 0xffff

  function Xor(a: bv16, b: bv16): bv16 {
    a ^ b
  }

  function Doubled(v: bv16): bv16 {
    v << 1
  }

  predicate Top(v: bv16) {
    v & 0x8000 != 0
  }

  // The specification: division by the polynomial, a bit of the message at a time.

  /** One step of the division, with nothing more of the message to bring in. */
  function Shift(v: bv16): bv16 {
    Xor(Doubled(v), if Top(v) then POLYNOMIAL else 0)
  }

  /** One step of the division with the next bit of the message. */
  function Step(v: bv16, bit: bool): bv16 {
    Shift(if bit then Xor(v, 0x8000) else v)
  }

  /** Eight steps, most significant bit first. */
  function Byte(v: bv16, byte: bv8): bv16 {
    Step(Step(Step(Step(Step(Step(Step(Step(v,
      byte & 0x80 != 0), byte & 0x40 != 0), byte & 0x20 != 0), byte & 0x10 != 0),
      byte & 0x08 != 0), byte & 0x04 != 0), byte & 0x02 != 0), byte & 0x01 != 0)
  }

  function Remainder(v: bv16, message: seq<bv8>): bv16
    decreases |message|
  {
    if message == [] then v else Byte(Remainder(v, message[..|message| - 1]), message[|message| - 1])
  }

  // Laws.

  lemma XorLaws(a: bv16, b: bv16, c: bv16)
    ensures Xor(Xor(a, b), c) == Xor(a, Xor(b, c)) && Xor(a, b) == Xor(b, a)
    ensures Xor(a, a) == 0 && Xor(a, 0) == a
  {
    hide *;
    XorAssociates(a, b, c);
    XorCommutes(a, b);
    XorSelf(a);
    XorNothing(a);
  }

  lemma XorAssociates(a: bv16, b: bv16, c: bv16)
    ensures Xor(Xor(a, b), c) == Xor(a, Xor(b, c))
  {
  }

  lemma XorCommutes(a: bv16, b: bv16)
    ensures Xor(a, b) == Xor(b, a)
  {
  }

  lemma XorSelf(a: bv16)
    ensures Xor(a, a) == 0
  {
  }

  lemma XorNothing(a: bv16)
    ensures Xor(a, 0) == a
  {
  }

  lemma DoubledLinear(a: bv16, b: bv16)
    ensures Doubled(Xor(a, b)) == Xor(Doubled(a), Doubled(b))
  {
  }

  lemma TopLinear(a: bv16, b: bv16)
    ensures Top(Xor(a, b)) == (Top(a) != Top(b))
  {
  }

  lemma ShiftLinear(a: bv16, b: bv16)
    ensures Shift(Xor(a, b)) == Xor(Shift(a), Shift(b))
  {
    hide Xor, Doubled, Top;
    DoubledLinear(a, b);
    TopLinear(a, b);
    Regroup(Doubled(a), if Top(a) then POLYNOMIAL else 0, Doubled(b), if Top(b) then POLYNOMIAL else 0);
    XorLaws(POLYNOMIAL, 0, 0);
    XorLaws(0, POLYNOMIAL, 0);
  }

  lemma Regroup(a: bv16, b: bv16, c: bv16, d: bv16)
    ensures Xor(Xor(a, b), Xor(c, d)) == Xor(Xor(a, c), Xor(b, d))
  {
    hide Xor;
    XorLaws(a, b, Xor(c, d));
    XorLaws(b, c, d);
    XorLaws(c, b, d);
    XorLaws(a, c, Xor(b, d));
  }

  lemma StepLinear(v: bv16, w: bv16, x: bool, y: bool)
    ensures Step(Xor(v, w), x != y) == Xor(Step(v, x), Step(w, y))
  {
    hide Xor, Shift;
    XorLaws(0x8000, 0, 0);
    XorLaws(0, 0x8000, 0);
    XorLaws(Xor(v, w), 0, 0);
    XorLaws(v, 0, 0);
    XorLaws(w, 0, 0);
    var p: bv16, q: bv16 := if x then 0x8000 else 0, if y then 0x8000 else 0;
    Regroup(v, p, w, q);
    ShiftLinear(Xor(v, p), Xor(w, q));
  }

  /** A byte of two messages combined takes the combined remainder to the combined remainder. */
  lemma ByteLinear(v: bv16, w: bv16, x: bv8, y: bv8)
    ensures Byte(Xor(v, w), x ^ y) == Xor(Byte(v, x), Byte(w, y))
  {
    hide Xor, Step;
    BitsLinear(x, y);
    var v1, w1 := Step(v, x & 0x80 != 0), Step(w, y & 0x80 != 0);
    var v2, w2 := Step(v1, x & 0x40 != 0), Step(w1, y & 0x40 != 0);
    var v3, w3 := Step(v2, x & 0x20 != 0), Step(w2, y & 0x20 != 0);
    var v4, w4 := Step(v3, x & 0x10 != 0), Step(w3, y & 0x10 != 0);
    var v5, w5 := Step(v4, x & 0x08 != 0), Step(w4, y & 0x08 != 0);
    var v6, w6 := Step(v5, x & 0x04 != 0), Step(w5, y & 0x04 != 0);
    var v7, w7 := Step(v6, x & 0x02 != 0), Step(w6, y & 0x02 != 0);
    StepLinear(v, w, x & 0x80 != 0, y & 0x80 != 0);
    StepLinear(v1, w1, x & 0x40 != 0, y & 0x40 != 0);
    StepLinear(v2, w2, x & 0x20 != 0, y & 0x20 != 0);
    StepLinear(v3, w3, x & 0x10 != 0, y & 0x10 != 0);
    StepLinear(v4, w4, x & 0x08 != 0, y & 0x08 != 0);
    StepLinear(v5, w5, x & 0x04 != 0, y & 0x04 != 0);
    StepLinear(v6, w6, x & 0x02 != 0, y & 0x02 != 0);
    StepLinear(v7, w7, x & 0x01 != 0, y & 0x01 != 0);
  }

  lemma BitsLinear(x: bv8, y: bv8)
    ensures ((x ^ y) & 0x80 != 0) == ((x & 0x80 != 0) != (y & 0x80 != 0))
    ensures ((x ^ y) & 0x40 != 0) == ((x & 0x40 != 0) != (y & 0x40 != 0))
    ensures ((x ^ y) & 0x20 != 0) == ((x & 0x20 != 0) != (y & 0x20 != 0))
    ensures ((x ^ y) & 0x10 != 0) == ((x & 0x10 != 0) != (y & 0x10 != 0))
    ensures ((x ^ y) & 0x08 != 0) == ((x & 0x08 != 0) != (y & 0x08 != 0))
    ensures ((x ^ y) & 0x04 != 0) == ((x & 0x04 != 0) != (y & 0x04 != 0))
    ensures ((x ^ y) & 0x02 != 0) == ((x & 0x02 != 0) != (y & 0x02 != 0))
    ensures ((x ^ y) & 0x01 != 0) == ((x & 0x01 != 0) != (y & 0x01 != 0))
  {
  }

  // The table.

  function Eight(v: bv16): bv16 {
    Byte(v, 0)
  }

  function High(byte: bv8): bv16 {
    (byte as bv16) << 8
  }

  function TopByte(v: bv16): bv8 {
    (v >> 8) as bv8
  }

  function LowByte(v: bv16): bv16 {
    v & 0x00ff
  }

  /** The table's entry for a byte. */
  function Entry(c: bv8): bv16 {
    Eight(High(c))
  }

  /** The polynomial never reaches the low byte, which only moves up. */
  lemma LowMovesUp(v: bv16)
    ensures Eight(LowByte(v)) == v << 8
  {
  }

  /** A byte that is also at the top of the remainder cancels, a bit at a time. */
  lemma Cancels(b: bv8)
    ensures Byte(High(b), b) == 0
  {
    var b1 := b << 1;
    var b2 := b1 << 1;
    var b3 := b2 << 1;
    var b4 := b3 << 1;
    var b5 := b4 << 1;
    var b6 := b5 << 1;
    var b7 := b6 << 1;
    BitsInTurn(b);
    hide High, Step;
    BitCancels(b);
    BitCancels(b1);
    BitCancels(b2);
    BitCancels(b3);
    BitCancels(b4);
    BitCancels(b5);
    BitCancels(b6);
    BitCancels(b7);
    NothingHigh();
  }

  lemma BitsInTurn(b: bv8)
    ensures (b << 1) & 0x80 != 0 <==> b & 0x40 != 0
    ensures (b << 1 << 1) & 0x80 != 0 <==> b & 0x20 != 0
    ensures (b << 1 << 1 << 1) & 0x80 != 0 <==> b & 0x10 != 0
    ensures (b << 1 << 1 << 1 << 1) & 0x80 != 0 <==> b & 0x08 != 0
    ensures (b << 1 << 1 << 1 << 1 << 1) & 0x80 != 0 <==> b & 0x04 != 0
    ensures (b << 1 << 1 << 1 << 1 << 1 << 1) & 0x80 != 0 <==> b & 0x02 != 0
    ensures (b << 1 << 1 << 1 << 1 << 1 << 1 << 1) & 0x80 != 0 <==> b & 0x01 != 0
    ensures b << 1 << 1 << 1 << 1 << 1 << 1 << 1 << 1 == 0
  {
  }

  lemma BitCancels(b: bv8)
    ensures Step(High(b), b & 0x80 != 0) == High(b << 1)
  {
    if b & 0x80 != 0 {
      TopCleared(b);
      DoubledHigh(b & 0x7f);
      assert (b & 0x7f) << 1 == b << 1;
    } else {
      DoubledHigh(b);
    }
    hide High, Doubled, Top, Xor;
    XorNothing(High(b << 1));
  }

  lemma TopCleared(b: bv8)
    requires b & 0x80 != 0
    ensures Xor(High(b), 0x8000) == High(b & 0x7f) && (b & 0x7f) & 0x80 == 0
  {
  }

  lemma DoubledHigh(b: bv8)
    requires b & 0x80 == 0
    ensures !Top(High(b)) && Doubled(High(b)) == High(b << 1)
  {
  }

  lemma NothingHigh()
    ensures High(0) == 0
  {
  }

  lemma Halves(v: bv16, b: bv8)
    ensures v == Xor(LowByte(v), High(TopByte(v)))
    ensures High(TopByte(v)) == Xor(High(TopByte(v) ^ b), High(b))
  {
  }

  /** The table gives eight steps at once. */
  lemma TableIsDivision(v: bv16, b: bv8)
    ensures Byte(v, b) == Xor(v << 8, Entry(TopByte(v) ^ b))
  {
    var t := TopByte(v);
    Halves(v, b);
    LowMovesUp(v);
    Cancels(b);
    hide Xor, High, LowByte, TopByte, Byte;
    ByteLinear(LowByte(v), High(t), 0, b);
    ByteLinear(High(t ^ b), High(b), 0, b);
    XorLaws(Byte(High(t ^ b), 0), 0, 0);
    assert (0 as bv8) ^ b == b;
  }

  // What the check is for.

  lemma {:induction false} RemainderConcat(v: bv16, a: seq<bv8>, b: seq<bv8>)
    ensures Remainder(v, a + b) == Remainder(Remainder(v, a), b)
    decreases |b|
  {
    if b == [] {
      assert a + b == a;
    } else {
      hide Byte;
      assert (a + b)[..|a + b| - 1] == a + b[..|b| - 1];
      RemainderConcat(v, a, b[..|b| - 1]);
    }
  }

  lemma ShiftLosesNothing(v: bv16)
    requires Shift(v) == 0
    ensures v == 0
  {
  }

  lemma ZeroIsKept()
    ensures Eight(0) == 0
  {
  }

  lemma ByteLosesNothing(v: bv16)
    ensures Eight(v) == 0 <==> v == 0
  {
    ZeroIsKept();
    ZeroSteps(v);
    hide Shift;
    if Eight(v) == 0 {
      var v1 := Shift(v);
      var v2 := Shift(v1);
      var v3 := Shift(v2);
      var v4 := Shift(v3);
      var v5 := Shift(v4);
      var v6 := Shift(v5);
      var v7 := Shift(v6);
      ShiftLosesNothing(v7);
      ShiftLosesNothing(v6);
      ShiftLosesNothing(v5);
      ShiftLosesNothing(v4);
      ShiftLosesNothing(v3);
      ShiftLosesNothing(v2);
      ShiftLosesNothing(v1);
      ShiftLosesNothing(v);
    }
  }

  lemma ZeroSteps(v: bv16)
    ensures Eight(v) == Shift(Shift(Shift(Shift(Shift(Shift(Shift(Shift(v))))))))
  {
    hide Shift;
  }

  lemma EightLinear(v: bv16, w: bv16)
    ensures Eight(Xor(v, w)) == Xor(Eight(v), Eight(w))
  {
    var z: bv8 := 0;
    assert z ^ z == z;
    hide Byte, Xor;
    ByteLinear(v, w, z, z);
  }

  lemma TwoByteRemainder(v: bv16, x: bv8, y: bv8)
    ensures Remainder(v, [x, y]) == Byte(Byte(v, x), y)
  {
    hide Byte;
    assert [x, y][..1] == [x] && [x][..0] == [];
    assert Remainder(v, [x]) == Byte(v, x);
  }

  function Word(high: bv8, low: bv8): bv16 {
    Xor(High(high), low as bv16)
  }

  /** Two bytes taken in are the same as two bytes already there. */
  lemma TwoBytes(v: bv16, x: bv8, y: bv8)
    ensures Byte(Byte(v, x), y) == Eight(Eight(Xor(v, Word(x, y))))
  {
    var l: bv16 := y as bv16;
    LowIs(y);
    LowMovesUp(l);
    hide Xor, High, Byte, LowByte, Eight;
    ByteBroughtIn(v, x);
    EightLinear(Xor(v, High(x)), l);
    ByteBroughtIn(Byte(v, x), y);
    XorLaws(v, High(x), l);
  }

  /** A byte taken in is the same as a byte already there. */
  lemma ByteBroughtIn(v: bv16, x: bv8)
    ensures Byte(v, x) == Eight(Xor(v, High(x)))
  {
    Cancels(x);
    assert x ^ x == 0;
    hide Xor, High, Byte;
    ByteLinear(v, High(x), x, x);
    XorLaws(Byte(v, x), 0, 0);
  }

  lemma LowIs(y: bv8)
    ensures LowByte(y as bv16) == y as bv16 && (y as bv16) << 8 == High(y)
  {
  }

  /** The test that the disk controllers rely on: with two more bytes taken in the remainder is zero exactly
      if they are the check of what went before, high byte first. */
  lemma AppendedCheck(v: bv16, high: bv8, low: bv8)
    ensures Remainder(v, [high, low]) == 0 <==> Word(high, low) == v
  {
    hide Byte, Xor, Word, Eight;
    TwoByteRemainder(v, high, low);
    TwoBytes(v, high, low);
    ByteLosesNothing(Eight(Xor(v, Word(high, low))));
    ByteLosesNothing(Xor(v, Word(high, low)));
    XorZero(v, Word(high, low));
  }

  lemma XorZero(a: bv16, b: bv16)
    ensures Xor(a, b) == 0 <==> a == b
  {
    hide *;
    XorSelf(b);
    XorNothing(a);
    XorNothing(b);
    XorCommutes(0, b);
    XorAssociates(a, b, b);
  }

  lemma CheckOfMessage(message: seq<bv8>, high: bv8, low: bv8)
    ensures Remainder(RESET, message + [high, low]) == 0 <==> Word(high, low) == Remainder(RESET, message)
  {
    RemainderConcat(RESET, message, [high, low]);
    AppendedCheck(Remainder(RESET, message), high, low);
  }

  lemma {:induction false} DifferenceKept(v: bv16, w: bv16, message: seq<bv8>)
    requires v != w
    ensures Remainder(v, message) != Remainder(w, message)
    decreases |message|
  {
    if message != [] {
      var a, b := Remainder(v, message[..|message| - 1]), Remainder(w, message[..|message| - 1]);
      DifferenceKept(v, w, message[..|message| - 1]);
      var last := message[|message| - 1];
      assert last ^ last == 0;
      ByteLinear(a, b, last, last);
      ByteLosesNothing(Xor(a, b));
      XorZero(a, b);
      XorZero(Byte(a, last), Byte(b, last));
      hide Byte, Xor;
    }
  }

  /** Any error confined to two adjacent bytes changes the check, wherever it is and whatever follows. */
  lemma AdjacentErrorDetected(v: bv16, before: seq<bv8>, a: bv8, b: bv8, c: bv8, d: bv8, after: seq<bv8>)
    requires a != c || b != d
    ensures Remainder(v, before + [a, b] + after) != Remainder(v, before + [c, d] + after)
  {
    var r := Remainder(v, before);
    RemainderConcat(v, before + [a, b], after);
    RemainderConcat(v, before + [c, d], after);
    RemainderConcat(v, before, [a, b]);
    RemainderConcat(v, before, [c, d]);
    PairDifference(r, a, b, c, d);
    DifferenceKept(Remainder(r, [a, b]), Remainder(r, [c, d]), after);
  }

  lemma PairDifference(r: bv16, a: bv8, b: bv8, c: bv8, d: bv8)
    requires a != c || b != d
    ensures Remainder(r, [a, b]) != Remainder(r, [c, d])
  {
    WordsDiffer(a, b, c, d);
    hide Byte, Xor, Word, Eight;
    var s, t := Xor(r, Word(a, b)), Xor(r, Word(c, d));
    XorInjective(r, Word(a, b), Word(c, d));
    TwoByteRemainder(r, a, b);
    TwoByteRemainder(r, c, d);
    TwoBytes(r, a, b);
    TwoBytes(r, c, d);
    EightLinear(s, t);
    EightLinear(Eight(s), Eight(t));
    XorZero(s, t);
    ByteLosesNothing(Xor(s, t));
    ByteLosesNothing(Eight(Xor(s, t)));
    XorZero(Eight(Eight(s)), Eight(Eight(t)));
  }

  lemma WordsDiffer(a: bv8, b: bv8, c: bv8, d: bv8)
    requires a != c || b != d
    ensures Word(a, b) != Word(c, d)
  {
  }

  lemma XorInjective(r: bv16, a: bv16, b: bv16)
    requires a != b
    ensures Xor(r, a) != Xor(r, b)
  {
  }

  // The generator.

  function Shifts(v: bv16, n: nat): bv16 {
    if n == 0 then v else Shift(Shifts(v, n - 1))
  }

  lemma EightShifts(v: bv16)
    ensures Shifts(v, 8) == Eight(v)
  {
    ZeroSteps(v);
    hide Shift;
    assert Shifts(v, 0) == v && Shifts(v, 2) == Shift(Shift(v));
    assert Shifts(v, 4) == Shift(Shift(Shifts(v, 2))) && Shifts(v, 6) == Shift(Shift(Shifts(v, 4)));
  }

  /** A byte as an index of the table. */
  datatype Index = Index(byte: bv8)

  ghost predicate Filled(table: map<Index, bv16>, n: bv16) {
    forall c: bv8 | (c as bv16) < n :: Index(c) in table && table[Index(c)] == Entry(c)
  }

  method BuildTable() returns (table: map<Index, bv16>)
    ensures forall c: bv8 :: Index(c) in table && table[Index(c)] == Entry(c)
  {
    hide Shift, Eight, High, Filled, Xor, Doubled, Top;
    table := map[];
    var c: bv16 := 0;
    NoneFilled(table);
    while c < 256
      invariant c <= 256 && Filled(table, c)
      decreases 256 - c
    {
      var index := ByteOf(c);
      var v := High(index);
      for b := 0 to 8
        invariant v == Shifts(High(index), b)
      {
        ShiftIs(v);
        var exclusiveOr := if Top(v) then POLYNOMIAL else 0;
        v := Xor(Doubled(v), exclusiveOr);
      }
      EightShifts(High(index));
      OneFilled(table, c);
      table := table[Index(index) := v];
      c := c + 1;
    }
    AllFilled(table, c);
  }

  function ByteOf(c: bv16): bv8 {
    (c & 0xff) as bv8
  }

  lemma ShiftIs(v: bv16)
    ensures Shift(v) == Xor(Doubled(v), if Top(v) then POLYNOMIAL else 0)
  {
  }

  lemma NoneFilled(table: map<Index, bv16>)
    ensures Filled(table, 0)
  {
  }

  lemma OneFilled(table: map<Index, bv16>, c: bv16)
    requires c < 256 && Filled(table, c)
    ensures Filled(table[Index(ByteOf(c)) := Entry(ByteOf(c))], c + 1) && c + 1 <= 256
  {
    hide Entry, ByteOf;
    var more := table[Index(ByteOf(c)) := Entry(ByteOf(c))];
    forall k: bv8 | (k as bv16) < c + 1 ensures Index(k) in more && more[Index(k)] == Entry(k) {
      NextIndex(k, c);
      if (k as bv16) < c {
        assert Index(k) in table && table[Index(k)] == Entry(k);
      }
    }
  }

  lemma NextIndex(k: bv8, c: bv16)
    requires c < 256 && (k as bv16) < c + 1
    ensures (k as bv16) < c || k == ByteOf(c)
  {
  }

  lemma AllFilled(table: map<Index, bv16>, c: bv16)
    requires c >= 256 && Filled(table, c)
    ensures forall k: bv8 :: Index(k) in table && table[Index(k)] == Entry(k)
  {
    hide Entry;
  }

  class Generator {
    var value: bv16
    const table: map<Index, bv16>

    ghost predicate Valid() {
      forall c: bv8 :: Index(c) in table && table[Index(c)] == Entry(c)
    }

    constructor ()
      ensures Valid() && value == RESET
    {
      var built := BuildTable();
      value, table := RESET, built;
    }

    method Reset()
      modifies this
      ensures value == RESET
    {
      value := RESET;
    }

    method Add(byte: bv8)
      requires Valid()
      modifies this
      ensures value == Byte(old(value), byte)
    {
      TableIsDivision(value, byte);
      hide Byte, Entry, TopByte;
      var index := TopByte(value) ^ byte;
      value := Xor(value << 8, table[Index(index)]);
    }

    method GetValue() returns (crc: bv16)
      ensures crc == value
    {
      crc := value ^ 0;
    }

    method SetValue(value: bv16)
      modifies this
      ensures this.value == value
    {
      this.value := value;
    }
  }

  /** The check of some data is the remainder after dividing all of it. */
  method CrcOf(data: seq<bv8>) returns (crc: bv16)
    ensures crc == Remainder(RESET, data)
  {
    hide Byte;
    var generator := new Generator();
    for i := 0 to |data|
      invariant generator.Valid() && generator.value == Remainder(RESET, data[..i])
    {
      generator.Add(data[i]);
      assert data[..i + 1][..i] == data[..i];
    }
    assert data[..|data|] == data;
    crc := generator.GetValue();
  }
}
