/** Whole I2C transactions, from the levels a host puts on the wires to what a peripheral is asked to do
    and what the host samples. */
module I2CTransactions {
  import opened I2CBus
  import opened Options

  type Level = (bool, bool)

  // What a host does with the lines. Every item but the start begins and ends with the clock pulled.

  const START: seq<Level> := [(false, true), (true, true)]
  const RESTART: seq<Level> := [(true, false), (false, false), (false, true), (true, true)]
  const STOP: seq<Level> := [(true, true), (false, true), (false, false)]

  /** A bit: the data line is set while the clock is pulled, and the clock is then released and pulled. */
  function Clocked(pulled: bool): seq<Level> {
    [(true, pulled), (false, pulled), (true, pulled)]
  }

  function Bits(bits: seq<bool>): seq<Level> {
    if bits == [] then [] else Bits(bits[..|bits| - 1]) + Clocked(!bits[|bits| - 1])
  }

  /** The number spelled by the top k bits of a byte. */
  function Top(b: Byte, k: nat): Byte
    requires k <= 8
    decreases 8 - k
  {
    if k == 8 then b else Top(b, k + 1) / 2
  }

  /** The bits of a byte, most significant first. */
  function BitsOf(b: Byte): seq<bool> {
    seq(8, k requires 0 <= k < 8 => Top(b, k + 1) % 2 == 1)
  }

  /** A byte sent, and a ninth clock with the data line released for the acknowledgement. */
  function Send(b: Byte): seq<Level> {
    Bits(BitsOf(b)) + Clocked(false)
  }

  function SendAll(bytes: seq<Byte>): seq<Level> {
    if bytes == [] then [] else Send(bytes[0]) + SendAll(bytes[1..])
  }

  lemma {:induction false} DriveConcat(s: State, a: seq<Level>, b: seq<Level>)
    requires Invariant(s)
    ensures DriveAll(s, a + b) == DriveAll(DriveAll(s, a), b)
    decreases |a|
  {
    hide Drive;
    if a == [] {
      assert a + b == b;
    } else {
      assert (a + b)[1..] == a[1..] + b;
      DriveKeepsInvariant(s, a[0].0, a[0].1);
      DriveConcat(Drive(s, a[0].0, a[0].1), a[1..], b);
    }
  }

  lemma DriveThree(s: State, a: Level, b: Level, c: Level)
    requires Invariant(s)
    ensures var t := Drive(s, a.0, a.1);
            Invariant(t) && Invariant(Drive(t, b.0, b.1))
            && DriveAll(s, [a, b, c]) == Drive(Drive(t, b.0, b.1), c.0, c.1)
  {
    hide Drive;
    DriveKeepsInvariant(s, a.0, a.1);
    var t := Drive(s, a.0, a.1);
    DriveKeepsInvariant(t, b.0, b.1);
    var u := Drive(t, b.0, b.1);
    DriveKeepsInvariant(u, c.0, c.1);
    assert [a, b, c][1..] == [b, c] && [b, c][1..] == [c] && [c][1..] == [];
    assert DriveAll(u, [c]) == Drive(u, c.0, c.1);
    assert DriveAll(t, [b, c]) == DriveAll(u, [c]);
  }

  /** A bit clocked while the bus is listening reaches the decoder once, on the clock's falling edge. */
  lemma BitHeard(s: State, pulled: bool)
    requires Invariant(s) && s.clock && s.bits == 0
    ensures DriveAll(s, Clocked(pulled)) == Signal(s.(data := pulled, inBit := false), if pulled then Zero else One)
  {
    hide Signal;
    DriveThree(s, (true, pulled), (false, pulled), (true, pulled));
  }

  /** A bit clocked while a peripheral is sending its last bit finishes it. */
  lemma LastBitSent(s: State, pulled: bool)
    requires Invariant(s) && s.clock && s.bits == 1
    ensures DriveAll(s, Clocked(pulled)) ==
            Signal(s.(data := pulled, bits := 0, response := s.response * 2 % 65536), FinishedOutput)
  {
    hide Signal;
    DriveThree(s, (true, pulled), (false, pulled), (true, pulled));
  }

  lemma EarlierBitSent(s: State, pulled: bool)
    requires Invariant(s) && s.clock && s.bits > 1
    ensures DriveAll(s, Clocked(pulled)) == s.(data := pulled, bits := s.bits - 1, response := s.response * 2 % 65536)
  {
    hide Signal;
    DriveThree(s, (true, pulled), (false, pulled), (true, pulled));
  }

  // Sending bytes.

  lemma TopOfNone(b: Byte)
    ensures Top(b, 0) == 0
  {
    assert Top(b, 6) == b / 4;
    assert Top(b, 4) == b / 16;
    assert Top(b, 2) == b / 64;
  }

  predicate Collecting(s: State) {
    s.clock && s.bits == 0 && (s.phase == CollectingAddress || s.phase == ReceivingByte)
  }

  function BitAt(b: Byte, k: nat): bool
    requires k < 8
  {
    Top(b, k + 1) % 2 == 1
  }

  /** Signalling bit k of a byte with its top k bits already gathered. */
  lemma BitSignalled(s: State, b: Byte, k: nat)
    requires Invariant(s) && Collecting(s) && k < 8 && s.input == Top(b, k) && s.inputCount == k
    ensures var next := s.(input := Top(b, k + 1), inputCount := k + 1);
            Signal(s, if BitAt(b, k) then One else Zero) ==
              if k < 7 then next
              else if s.phase == CollectingAddress then CollectedAddress(next)
              else ReceivedByte(next)
  {
    var event := if BitAt(b, k) then One else Zero;
    BitCaptured(s, b, k);
    hide CollectedAddress, ReceivedByte, Top, BitAt, Capture;
    if k < 7 {
      Incomplete(Capture(s, event));
    }
  }

  lemma BitCaptured(s: State, b: Byte, k: nat)
    requires k < 8 && s.input == Top(b, k) && s.inputCount == k
    ensures Capture(s, if BitAt(b, k) then One else Zero) == s.(input := Top(b, k + 1), inputCount := k + 1)
  {
    assert Top(b, k) * 2 + Top(b, k + 1) % 2 == Top(b, k + 1);
  }

  lemma Incomplete(s: State)
    requires s.inputCount != 8
    ensures CollectedAddress(s) == s
    ensures Connected(s) ==> ReceivedByte(s) == s
  {
  }

  lemma BitsExtend(b: Byte, k: nat)
    requires k < 8
    ensures Bits(BitsOf(b)[..k + 1]) == Bits(BitsOf(b)[..k]) + Clocked(!BitAt(b, k))
  {
    assert BitsOf(b)[..k + 1][..k] == BitsOf(b)[..k];
  }

  /** Fewer than eight bits are gathered in order. */
  lemma {:induction false} BitsGathered(s: State, b: Byte, k: nat)
    requires Invariant(s) && Collecting(s) && s.input == 0 && s.inputCount == 0 && k < 8
    ensures var t := DriveAll(s, Bits(BitsOf(b)[..k]));
            t == s.(data := t.data, inBit := t.inBit, input := Top(b, k), inputCount := k)
  {
    if k == 0 {
      TopOfNone(b);
    } else {
      hide Drive, Clocked, BitsOf, Signal, BitAt, Top;
      BitsGathered(s, b, k - 1);
      BitsExtend(b, k - 1);
      var t := DriveAll(s, Bits(BitsOf(b)[..k - 1]));
      DriveConcat(s, Bits(BitsOf(b)[..k - 1]), Clocked(!BitAt(b, k - 1)));
      BitHeard(t, !BitAt(b, k - 1));
      BitSignalled(t.(data := !BitAt(b, k - 1), inBit := false), b, k - 1);
    }
  }

  /** The eighth bit completes the byte. */
  lemma ByteGathered(s: State, b: Byte)
    requires Invariant(s) && Collecting(s) && s.input == 0 && s.inputCount == 0
    ensures var full := s.(data := !BitAt(b, 7), inBit := false, input := b, inputCount := 8);
            DriveAll(s, Bits(BitsOf(b))) ==
              if s.phase == CollectingAddress then CollectedAddress(full) else ReceivedByte(full)
  {
    assert BitsOf(b)[..8] == BitsOf(b);
    assert Top(b, 8) == b;
    hide Drive, Clocked, BitsOf, Signal, BitAt, Top, CollectedAddress, ReceivedByte;
    BitsGathered(s, b, 7);
    BitsExtend(b, 7);
    var t := DriveAll(s, Bits(BitsOf(b)[..7]));
    DriveConcat(s, Bits(BitsOf(b)[..7]), Clocked(!BitAt(b, 7)));
    BitHeard(t, !BitAt(b, 7));
    BitSignalled(t.(data := !BitAt(b, 7), inBit := false), b, 7);
  }

  // What the host samples.

  /** The data line, as 1 when released, at each rising edge of the clock. */
  function Samples(s: State, levels: seq<Level>): seq<bool>
    requires Invariant(s)
    decreases |levels|
  {
    if levels == [] then []
    else
      DriveKeepsInvariant(s, levels[0].0, levels[0].1);
      var t := Drive(s, levels[0].0, levels[0].1);
      (if s.clock && !t.clock then [!DataLine(t)] else []) + Samples(t, levels[1..])
  }

  lemma {:induction false} SamplesConcat(s: State, a: seq<Level>, b: seq<Level>)
    requires Invariant(s)
    ensures Samples(s, a + b) == Samples(s, a) + Samples(DriveAll(s, a), b)
    decreases |a|
  {
    hide Drive;
    if a == [] {
      assert a + b == b;
    } else {
      assert (a + b)[1..] == a[1..] + b;
      DriveKeepsInvariant(s, a[0].0, a[0].1);
      SamplesConcat(Drive(s, a[0].0, a[0].1), a[1..], b);
    }
  }

  /** A clocked bit is low if either the host or a sending peripheral pulls it. */
  lemma ClockedSample(s: State, pulled: bool)
    requires Invariant(s) && s.clock
    ensures Samples(s, Clocked(pulled)) == [!pulled && !(s.bits != 0 && s.response / 128 % 2 == 0)]
  {
    hide Signal;
    DriveThree(s, (true, pulled), (false, pulled), (true, pulled));
    var t := Drive(s, true, pulled);
    var u := Drive(t, false, pulled);
    var levels := Clocked(pulled);
    assert levels[1..] == [(false, pulled), (true, pulled)] && levels[1..][1..] == [(true, pulled)];
    DriveKeepsInvariant(u, true, pulled);
    assert levels[1..][1..][1..] == [];
    assert Samples(u, levels[1..][1..]) == [];
  }

  // Write transactions.

  /** The bus after peripheral a has accepted a byte or been addressed for writing. */
  predicate Listening(s: State, a: int, devices: map<int, Device>) {
    && Invariant(s) && s.clock && s.bits == 0 && s.phase == ReceivingByte && s.input == 0 && s.inputCount == 0
    && s.active == Some(a) && s.devices == devices
  }

  /** The bus when no peripheral is, or ever was, in conversation. */
  predicate Silent(s: State, devices: map<int, Device>) {
    Invariant(s) && s.clock && s.bits == 0 && s.phase == AwaitingAddress && s.active.None? && s.devices == devices
  }

  /** The bus while peripheral a has a byte to send, none of it sent yet. */
  predicate Sending(s: State, a: int, b: Byte, devices: map<int, Device>) {
    && Invariant(s) && s.clock && s.bits == 8 && s.response == b && s.phase == AwaitingByteAcknowledge
    && s.active == Some(a) && s.devices == devices
  }

  /** The bus after peripheral a has declined to go on: it will still be told of the stop. */
  predicate Abandoned(s: State, a: int, devices: map<int, Device>) {
    Invariant(s) && s.clock && s.bits == 0 && s.phase == AwaitingAddress && s.active == Some(a) && s.devices == devices
  }

  /** The bus once peripheral a, in the state devices gives it, has been asked for a byte. */
  predicate Posted(s: State, a: int, devices: map<int, Device>) {
    a in devices &&
    var asked := devices[a := devices[a].AfterRead()];
    match devices[a].ReadReply()
    case Some(b) => Sending(s, a, b, asked)
    case None => Abandoned(s, a, asked)
  }

  predicate Idle(s: State) {
    Invariant(s) && !s.clock && !s.data && s.bits == 0
  }

  /** The bus once a start has been heard: whoever was in conversation no longer is, and is not told. */
  predicate Addressing(s: State, devices: map<int, Device>) {
    && Invariant(s) && s.clock && s.bits == 0 && s.phase == CollectingAddress && s.input == 0 && s.inputCount == 0
    && s.active.None? && s.devices == devices
  }

  lemma StartHeard(s: State)
    requires Idle(s)
    ensures Addressing(DriveAll(s, START), s.devices)
  {
    DriveKeepsInvariant(s, false, true);
    assert START[1..] == [(true, true)] && START[1..][1..] == [];
    DriveKeepsInvariant(Drive(s, false, true), true, true);
    assert DriveAll(Drive(s, false, true), START[1..]) == Drive(Drive(s, false, true), true, true);
  }

  /** A repeated start, made while the clock is pulled, whoever is in conversation. */
  lemma RestartHeard(s: State)
    requires Invariant(s) && s.clock && s.bits == 0
    ensures Addressing(DriveAll(s, RESTART), s.devices)
  {
    hide Drive;
    DriveThree(s, RESTART[0], RESTART[1], RESTART[2]);
    assert RESTART == RESTART[..3] + [RESTART[3]];
    assert RESTART[..3] == [RESTART[0], RESTART[1], RESTART[2]];
    DriveConcat(s, RESTART[..3], [RESTART[3]]);
    RestartSteps(s);
    var t := DriveAll(s, RESTART[..3]);
    assert DriveAll(t, [RESTART[3]]) == Drive(t, true, true) by {
      DriveOne(t, RESTART[3]);
    }
  }

  lemma DriveOne(s: State, level: Level)
    requires Invariant(s)
    ensures DriveAll(s, [level]) == Drive(s, level.0, level.1)
  {
    hide Drive;
    DriveKeepsInvariant(s, level.0, level.1);
    assert [level][1..] == [];
  }

  lemma RestartSteps(s: State)
    requires Invariant(s) && s.clock && s.bits == 0
    ensures var t := Drive(s, true, false);
            && Invariant(t) && Invariant(Drive(t, false, false))
            && var u := Drive(Drive(t, false, false), false, true);
            Invariant(u) && Addressing(Drive(u, true, true), s.devices)
  {
  }

  /** A stop tells the peripheral in conversation, if there still is one. */
  lemma StopHeard(s: State)
    requires Invariant(s) && s.clock && s.bits == 0
    ensures var t := DriveAll(s, STOP);
            && Idle(t) && t.phase == AwaitingAddress && t.active.None?
            && t.devices == if s.active.None? then s.devices
                            else s.devices[s.active.value := s.devices[s.active.value].Log(Stopped)]
  {
    DriveThree(s, STOP[0], STOP[1], STOP[2]);
  }

  /** An address puts the bus in conversation with the peripheral it names, if there is one. */
  lemma AddressSent(s: State, b: Byte)
    requires Addressing(s, s.devices)
    ensures var a, t := AddressOf(b), DriveAll(s, Send(b));
            if a !in s.devices then Silent(t, s.devices)
            else
              var called := s.devices[a := s.devices[a].Log(Started(b % 2 == 1))];
              if b % 2 == 0 then Listening(t, a, called)
              else Posted(t, a, called)
  {
    hide Drive, Bits, BitsOf, Clocked, BitAt, Signal;
    ByteGathered(s, b);
    var t := DriveAll(s, Bits(BitsOf(b)));
    DriveConcat(s, Bits(BitsOf(b)), Clocked(false));
    if t.bits == 0 {
      BitHeard(t, false);
      Unheard(t.(data := false, inBit := false), One);
    } else {
      LastBitSent(t, false);
      Acknowledged(t.(data := false, bits := 0, response := t.response * 2 % 65536));
    }
  }

  lemma Unheard(s: State, event: Event)
    requires Invariant(s) && s.phase == AwaitingAddress && event != Start && event != Stop
    ensures Signal(s, event) == s
  {
  }

  lemma Acknowledged(s: State)
    requires Invariant(s) && (s.phase == ReceivingByte || s.phase == CompletingReadAcknowledge)
    ensures Signal(s, FinishedOutput) == if s.phase == ReceivingByte then s else Enqueue(s)
  {
  }

  /** The bus while peripheral a acknowledges a byte. */
  predicate Acknowledging(s: State, a: int, devices: map<int, Device>) {
    && Invariant(s) && s.clock && s.bits == 1 && s.response == 0 && s.phase == ReceivingByte
    && s.input == 0 && s.inputCount == 0 && s.active == Some(a) && s.devices == devices
  }

  /** After its eighth bit a byte is with the peripheral, which has accepted or refused it. */
  lemma ByteOffered(s: State, a: int, devices: map<int, Device>, b: Byte)
    requires Listening(s, a, devices)
    ensures var d, t := devices[a], DriveAll(s, Bits(BitsOf(b)));
            if d.WriteReply() then Acknowledging(t, a, devices[a := d.AfterWrite(b)])
            else Silent(t, devices[a := d.AfterWrite(b)])
  {
    hide Drive, Bits, BitsOf, BitAt, Signal;
    ByteGathered(s, b);
  }

  lemma AcknowledgementSeen(s: State, a: int, devices: map<int, Device>)
    requires Acknowledging(s, a, devices)
    ensures Listening(DriveAll(s, Clocked(false)), a, devices)
    ensures Samples(s, Clocked(false)) == [false]
  {
    hide Drive, Clocked, Signal;
    ClockedSample(s, false);
    LastBitSent(s, false);
    Acknowledged(s.(data := false, bits := 0, response := 0));
  }

  lemma RefusalSeen(s: State, devices: map<int, Device>)
    requires Silent(s, devices)
    ensures Silent(DriveAll(s, Clocked(false)), devices)
    ensures Samples(s, Clocked(false)) == [true]
  {
    hide Drive, Clocked, Signal;
    ClockedSample(s, false);
    BitHeard(s, false);
    Unheard(s.(data := false, inBit := false), One);
  }

  /** A byte sent to a listening peripheral reaches it, and the ninth bit is low exactly when the
      peripheral accepts. */
  lemma ByteSent(s: State, a: int, devices: map<int, Device>, b: Byte)
    requires Listening(s, a, devices)
    ensures var d, t := devices[a], DriveAll(s, Send(b));
            if d.WriteReply() then Listening(t, a, devices[a := d.AfterWrite(b)])
            else Silent(t, devices[a := d.AfterWrite(b)])
    ensures Samples(DriveAll(s, Bits(BitsOf(b))), Clocked(false)) == [!devices[a].WriteReply()]
  {
    IsInvariant(s, a, devices);
    ByteOffered(s, a, devices, b);
    var t, next := DriveAll(s, Bits(BitsOf(b))), devices[a := devices[a].AfterWrite(b)];
    hide Drive, Bits, BitsOf, Clocked, DriveAll, Samples, Listening, Acknowledging, Silent, Invariant;
    DriveConcat(s, Bits(BitsOf(b)), Clocked(false));
    if devices[a].WriteReply() {
      AcknowledgementSeen(t, a, next);
    } else {
      RefusalSeen(t, next);
    }
  }

  /** A peripheral after some bytes have been sent to it, and whether it accepted them all; nothing
      reaches it after one that it refuses. */
  function Received(d: Device, bytes: seq<Byte>): (Device, bool)
    decreases |bytes|
  {
    if bytes == [] then (d, true)
    else if d.WriteReply() then Received(d.AfterWrite(bytes[0]), bytes[1..])
    else (d.AfterWrite(bytes[0]), false)
  }

  /** The number of leading acceptances among the first n replies. */
  function Accepted(replies: seq<bool>, n: nat): (k: nat)
    ensures k <= n
  {
    if n == 0 || replies == [] || !replies[0] then 0 else 1 + Accepted(replies[1..], n - 1)
  }

  function Writes(bytes: seq<Byte>): seq<Call> {
    if bytes == [] then [] else [Wrote(bytes[0])] + Writes(bytes[1..])
  }

  /** What Received amounts to: the bytes up to and including the first refused, in order. */
  lemma {:induction false} ReceivedUpToRefusal(d: Device, bytes: seq<Byte>)
    ensures var k := Accepted(d.writeReplies, |bytes|);
            && Received(d, bytes).1 == (k == |bytes|)
            && Received(d, bytes).0.calls == d.calls + Writes(bytes[..if k == |bytes| then k else k + 1])
    decreases |bytes|
  {
    if bytes == [] {
    } else if d.WriteReply() {
      ReceivedUpToRefusal(d.AfterWrite(bytes[0]), bytes[1..]);
      var k := Accepted(d.writeReplies, |bytes|);
      var m := if k == |bytes| then k else k + 1;
      assert bytes[..m][1..] == bytes[1..][..m - 1];
    } else {
      assert bytes[..1][1..] == [];
      assert Writes(bytes[..1]) == [Wrote(bytes[0])];
    }
  }

  lemma {:induction false} AllSent(s: State, a: int, devices: map<int, Device>, bytes: seq<Byte>)
    requires a in devices && Listening(s, a, devices)
    ensures var (d, connected) := Received(devices[a], bytes);
            var t := DriveAll(s, SendAll(bytes));
            if connected then Listening(t, a, devices[a := d]) else Silent(t, devices[a := d])
    decreases |bytes|
  {
    hide Send, Drive, Listening, Silent;
    if bytes == [] {
      assert devices[a := devices[a]] == devices;
    } else {
      var next := devices[a := devices[a].AfterWrite(bytes[0])];
      assert Invariant(s) by {
        IsInvariant(s, a, devices);
      }
      DriveConcat(s, Send(bytes[0]), SendAll(bytes[1..]));
      ByteSent(s, a, devices, bytes[0]);
      var t := DriveAll(s, Send(bytes[0]));
      if devices[a].WriteReply() {
        AllSent(t, a, next, bytes[1..]);
        var end := Received(devices[a].AfterWrite(bytes[0]), bytes[1..]).0;
        assert next[a := end] == devices[a := end];
      } else {
        NothingHeard(t, next, bytes[1..]);
      }
    }
  }

  lemma IsInvariant(s: State, a: int, devices: map<int, Device>)
    requires Listening(s, a, devices)
    ensures Invariant(s)
  {
  }

  /** A bus that is awaiting an address hears no bits. */
  lemma {:induction false} BitsUnheard(s: State, bits: seq<bool>)
    requires Invariant(s) && s.clock && s.bits == 0 && s.phase == AwaitingAddress
    ensures var t := DriveAll(s, Bits(bits)); t == s.(data := t.data, inBit := t.inBit)
    decreases |bits|
  {
    hide Drive, Clocked, Signal;
    if bits != [] {
      var before, pulled := bits[..|bits| - 1], !bits[|bits| - 1];
      BitsUnheard(s, before);
      var t := DriveAll(s, Bits(before));
      DriveConcat(s, Bits(before), Clocked(pulled));
      BitHeard(t, pulled);
      Unheard(t.(data := pulled, inBit := false), if pulled then Zero else One);
    }
  }

  lemma {:induction false} NothingHeard(s: State, devices: map<int, Device>, bytes: seq<Byte>)
    requires Silent(s, devices)
    ensures Silent(DriveAll(s, SendAll(bytes)), devices)
    decreases |bytes|
  {
    hide Drive, Clocked, Bits, BitsOf, Signal;
    if bytes != [] {
      BitsUnheard(s, BitsOf(bytes[0]));
      var t := DriveAll(s, Bits(BitsOf(bytes[0])));
      DriveConcat(s, Bits(BitsOf(bytes[0])), Clocked(false));
      BitHeard(t, false);
      Unheard(t.(data := false, inBit := false), One);
      DriveConcat(s, Send(bytes[0]), SendAll(bytes[1..]));
      NothingHeard(DriveAll(s, Send(bytes[0])), devices, bytes[1..]);
    }
  }

  // Read transactions.

  /** Clocks with the data line released, for a peripheral to fill. */
  function Listen(n: nat): seq<Level> {
    if n == 0 then [] else Listen(n - 1) + Clocked(false)
  }

  /** A byte received, and acknowledged or not. */
  function Receive(acknowledge: bool): seq<Level> {
    Listen(8) + Clocked(acknowledge)
  }

  /** Receives n bytes, acknowledging all but the last. */
  function ReceiveAll(n: nat): seq<Level>
    requires n > 0
  {
    if n == 1 then Receive(false) else Receive(true) + ReceiveAll(n - 1)
  }

  /** What the host reads when nothing drives the line. */
  function Undriven(n: nat): (bytes: seq<Byte>)
    ensures |bytes| == n
  {
    seq(n, _ => 255)
  }

  /** A peripheral after n bytes have been requested of it, the bytes the host sees, and whether it
      declined: from then on it is asked for nothing more and the host sees only ones. */
  function Requested(d: Device, n: nat): (r: (Device, seq<Byte>, bool))
    requires n > 0
    ensures |r.1| == n
    decreases n
  {
    match d.ReadReply()
    case None => (d.AfterRead(), Undriven(n), true)
    case Some(b) =>
      if n == 1 then (d.AfterRead(), [b], false)
      else
        var (end, bytes, declined) := Requested(d.AfterRead(), n - 1);
        (end, [b] + bytes, declined)
  }

  /** The samples for some bytes and the host's own acknowledgements: low for all but the last. */
  function Sampled(bytes: seq<Byte>): seq<bool> {
    if bytes == [] then [] else BitsOf(bytes[0]) + [|bytes| == 1] + Sampled(bytes[1..])
  }

  /** The response register after k bits of a byte have gone. */
  function Remaining(b: Byte, k: nat): Half
    requires k <= 8
  {
    if k == 0 then b else Remaining(b, k - 1) * 2 % 65536
  }

  function Weight(k: nat): (w: nat)
    ensures w >= 1
  {
    if k == 0 then 1 else 2 * Weight(k - 1)
  }

  lemma Weights(k: nat)
    ensures Weight(k + 1) == 2 * Weight(k) && Weight(0) == 1 && Weight(7) == 128 && Weight(8) == 256
  {
    assert Weight(4) == 16;
  }

  /** Nothing is lost off the top of the register. */
  lemma {:induction false} RemainingIs(b: Byte, k: nat)
    requires k <= 8
    ensures Remaining(b, k) == b * Weight(k) && Weight(k) * Weight(8 - k) == 256
  {
    hide Weight;
    Weights(0);
    if k > 0 {
      RemainingIs(b, k - 1);
      Weights(k - 1);
      Weights(8 - k);
      Regroup(Weight(k - 1), Weight(8 - k));
      RemainingNext(b, Weight(k - 1), Weight(8 - k));
    }
  }

  lemma RemainingNext(b: Byte, w: nat, v: nat)
    requires 2 * w * v == 256 && v >= 1
    ensures b * w * 2 % 65536 == b * (2 * w)
  {
    Bounded(b, 2 * w, v);
    Regroup(b, w);
  }

  lemma Regroup(x: int, y: int)
    ensures x * (2 * y) == 2 * x * y == x * y * 2
  {
  }

  lemma Bounded(b: Byte, w: nat, v: nat)
    requires w * v == 256 && v >= 1
    ensures b * w < 65536
  {
    assert w * (v - 1) >= 0;
    assert b * w <= 255 * w;
  }

  /** The register's bit 7 is the next bit of the byte. */
  lemma {:induction false} RemainingTop(b: Byte, k: nat)
    requires k < 8
    ensures Remaining(b, k) / 128 == Top(b, k + 1)
    decreases 8 - k
  {
    hide Weight;
    RemainingIs(b, k);
    Weights(k);
    if k < 7 {
      RemainingIs(b, k + 1);
      RemainingTop(b, k + 1);
      Regroup(b, Weight(k));
    }
  }

  /** While a peripheral has bits to send, each clock samples the next of them. */
  lemma {:induction false} BitsSent(s: State, b: Byte, k: nat)
    requires Invariant(s) && s.clock && s.bits == 8 && s.response == b && k < 8
    ensures var t := DriveAll(s, Listen(k));
            t == s.(data := t.data, bits := 8 - k, response := Remaining(b, k))
    ensures Samples(s, Listen(k)) == BitsOf(b)[..k]
  {
    if k > 0 {
      hide Drive, Clocked, Signal, BitsOf, BitAt;
      BitsSent(s, b, k - 1);
      var t := DriveAll(s, Listen(k - 1));
      DriveConcat(s, Listen(k - 1), Clocked(false));
      EarlierBitSent(t, false);
      SampleSent(s, b, k - 1);
    }
  }

  lemma SampleSent(s: State, b: Byte, k: nat)
    requires Invariant(s) && k < 8 && Samples(s, Listen(k)) == BitsOf(b)[..k]
    requires var t := DriveAll(s, Listen(k)); t.clock && t.bits == 8 - k && t.response == Remaining(b, k)
    ensures Samples(s, Listen(k + 1)) == BitsOf(b)[..k + 1]
  {
    hide Drive, Clocked, Signal, Remaining;
    SamplesConcat(s, Listen(k), Clocked(false));
    ClockedSample(DriveAll(s, Listen(k)), false);
    RemainingTop(b, k);
    assert BitsOf(b)[..k + 1] == BitsOf(b)[..k] + [BitAt(b, k)];
  }

  lemma AllBits(b: Byte)
    ensures |BitsOf(b)| == 8 && BitsOf(b)[..8] == BitsOf(b)
  {
  }

  /** All eight bits of a byte, after which the bus awaits the host's acknowledgement. */
  lemma ByteReceived(s: State, a: int, b: Byte, devices: map<int, Device>)
    requires Sending(s, a, b, devices)
    ensures var t := DriveAll(s, Listen(8));
            t == s.(data := t.data, bits := 0, response := t.response)
    ensures Samples(s, Listen(8)) == BitsOf(b)
  {
    hide Drive, DriveAll, Samples, Clocked, BitsOf, Remaining, CollectedAddress, ReceivedByte, Enqueue, Capture;
    BitsSent(s, b, 7);
    var t := DriveAll(s, Listen(7));
    DriveConcat(s, Listen(7), Clocked(false));
    LastBitSent(t, false);
    SampleSent(s, b, 7);
    AllBits(b);
  }

  /** The host's acknowledgement asks for another byte; its absence ends the conversation. */
  lemma HostAcknowledged(s: State, a: int, acknowledge: bool, devices: map<int, Device>)
    requires Invariant(s) && s.clock && s.bits == 0 && s.phase == AwaitingByteAcknowledge && s.active == Some(a)
    requires s.devices == devices
    ensures var t := DriveAll(s, Clocked(acknowledge));
            if acknowledge then Posted(t, a, devices) else Silent(t, devices)
    ensures Samples(s, Clocked(acknowledge)) == [!acknowledge]
  {
    hide Drive, Clocked;
    BitHeard(s, acknowledge);
    ClockedSample(s, acknowledge);
    var t := s.(data := acknowledge, inBit := false);
    SignalKeepsInvariant(t, if acknowledge then Zero else One);
  }

  /** Nothing answers on a bus that is awaiting an address, so the host samples what it drives. */
  lemma ClockUnheard(s: State, pulled: bool)
    requires Invariant(s) && s.clock && s.bits == 0 && s.phase == AwaitingAddress
    ensures var t := DriveAll(s, Clocked(pulled)); t == s.(data := t.data, inBit := t.inBit)
    ensures Samples(s, Clocked(pulled)) == [!pulled]
  {
    hide Drive, Clocked, Signal;
    BitHeard(s, pulled);
    ClockedSample(s, pulled);
    Unheard(s.(data := pulled, inBit := false), if pulled then Zero else One);
  }

  lemma {:induction false} ListenUnheard(s: State, k: nat)
    requires Invariant(s) && s.clock && s.bits == 0 && s.phase == AwaitingAddress
    ensures var t := DriveAll(s, Listen(k)); t == s.(data := t.data, inBit := t.inBit)
    ensures Samples(s, Listen(k)) == seq(k, _ => true)
  {
    hide Drive, Clocked;
    if k > 0 {
      ListenUnheard(s, k - 1);
      DriveConcat(s, Listen(k - 1), Clocked(false));
      SamplesConcat(s, Listen(k - 1), Clocked(false));
      ClockUnheard(DriveAll(s, Listen(k - 1)), false);
    }
  }

  lemma Ones()
    ensures BitsOf(255) == seq(8, _ => true)
  {
    assert Top(255, 6) == 63 && Top(255, 4) == 15 && Top(255, 2) == 3;
  }

  lemma ReceiveUnheard(s: State, acknowledge: bool)
    requires Invariant(s) && s.clock && s.bits == 0 && s.phase == AwaitingAddress
    ensures var t := DriveAll(s, Receive(acknowledge)); t == s.(data := t.data, inBit := t.inBit)
    ensures Samples(s, Receive(acknowledge)) == BitsOf(255) + [!acknowledge]
  {
    hide Drive, Clocked, Listen, BitsOf;
    ListenUnheard(s, 8);
    Ones();
    var t := DriveAll(s, Listen(8));
    DriveConcat(s, Listen(8), Clocked(acknowledge));
    SamplesConcat(s, Listen(8), Clocked(acknowledge));
    ClockUnheard(t, acknowledge);
  }

  lemma {:induction false} AllUnheard(s: State, n: nat)
    requires Invariant(s) && s.clock && s.bits == 0 && s.phase == AwaitingAddress && n > 0
    ensures var t := DriveAll(s, ReceiveAll(n)); t == s.(data := t.data, inBit := t.inBit)
    ensures Samples(s, ReceiveAll(n)) == Sampled(Undriven(n))
    decreases n
  {
    hide Drive, Receive, BitsOf;
    ReceiveUnheard(s, n > 1);
    SampledFirst(Undriven(n));
    if n > 1 {
      var t := DriveAll(s, Receive(true));
      DriveConcat(s, Receive(true), ReceiveAll(n - 1));
      SamplesConcat(s, Receive(true), ReceiveAll(n - 1));
      AllUnheard(t, n - 1);
      assert Undriven(n)[1..] == Undriven(n - 1);
    }
  }

  lemma SampledFirst(bytes: seq<Byte>)
    requires bytes != []
    ensures Sampled(bytes) == BitsOf(bytes[0]) + [|bytes| == 1] + Sampled(bytes[1..])
    ensures |bytes| == 1 ==> Sampled(bytes[1..]) == []
  {
  }

  /** A byte received and then acknowledged or not. */
  lemma OneReceived(s: State, a: int, b: Byte, devices: map<int, Device>, acknowledge: bool)
    requires Sending(s, a, b, devices)
    ensures var t := DriveAll(s, Receive(acknowledge));
            if acknowledge then Posted(t, a, devices) else Silent(t, devices)
    ensures Samples(s, Receive(acknowledge)) == BitsOf(b) + [!acknowledge]
  {
    hide Drive, Clocked, Listen, BitsOf;
    ByteReceived(s, a, b, devices);
    var t := DriveAll(s, Listen(8));
    DriveConcat(s, Listen(8), Clocked(acknowledge));
    SamplesConcat(s, Listen(8), Clocked(acknowledge));
    HostAcknowledged(t, a, acknowledge, devices);
  }

  lemma {:induction false} AllReceived(s: State, a: int, devices: map<int, Device>, n: nat)
    requires Posted(s, a, devices) && n > 0
    ensures var (d, bytes, declined) := Requested(devices[a], n);
            var t := DriveAll(s, ReceiveAll(n));
            && (if declined then Abandoned(t, a, devices[a := d]) else Silent(t, devices[a := d]))
            && Samples(s, ReceiveAll(n)) == Sampled(bytes)
    decreases n
  {
    hide Drive, DriveAll, Samples, Receive, BitsOf;
    var asked := devices[a := devices[a].AfterRead()];
    match devices[a].ReadReply() {
      case None =>
        AllUnheard(s, n);
      case Some(b) =>
        OneReceived(s, a, b, asked, n > 1);
        var (d, bytes, declined) := Requested(devices[a], n);
        SampledFirst(bytes);
        if n > 1 {
          var t := DriveAll(s, Receive(true));
          DriveConcat(s, Receive(true), ReceiveAll(n - 1));
          SamplesConcat(s, Receive(true), ReceiveAll(n - 1));
          AllReceived(t, a, asked, n - 1);
          assert asked[a := d] == devices[a := d];
          assert bytes[1..] == Requested(devices[a].AfterRead(), n - 1).1;
        }
    }
  }

  // Transactions: messages joined by repeated starts.

  /** What is said between a start and the next, or the stop, to the peripheral at an even address. */
  datatype Message = Writing(address: Byte, bytes: seq<Byte>) | Reading(address: Byte, n: nat) {
    predicate Valid() {
      address % 2 == 0 && (Reading? ==> n > 0)
    }
  }

  function Addressed(m: Message): seq<Level>
    requires m.Valid()
  {
    Send(if m.Reading? then m.address + 1 else m.address)
  }

  function Body(m: Message): seq<Level>
    requires m.Valid()
  {
    if m.Reading? then ReceiveAll(m.n) else SendAll(m.bytes)
  }

  ghost predicate AllValid(messages: seq<Message>) {
    messages != [] && forall i | 0 <= i < |messages| :: messages[i].Valid()
  }

  function Conversation(messages: seq<Message>): seq<Level>
    requires AllValid(messages)
    decreases |messages|
  {
    Addressed(messages[0]) + (Body(messages[0]) +
      if |messages| == 1 then STOP else RESTART + Conversation(messages[1..]))
  }

  function Transaction(messages: seq<Message>): seq<Level>
    requires AllValid(messages)
  {
    START + Conversation(messages)
  }

  /** The peripherals after a message, and which of them is still in conversation. */
  function Effect(devices: map<int, Device>, m: Message): (map<int, Device>, Option<int>)
    requires m.Valid()
  {
    if m.address !in devices then (devices, None)
    else if m.Writing? then
      var (d, connected) := Received(devices[m.address].Log(Started(false)), m.bytes);
      (devices[m.address := d], if connected then Some(m.address) else None)
    else
      var (d, _, declined) := Requested(devices[m.address].Log(Started(true)), m.n);
      (devices[m.address := d], if declined then Some(m.address) else None)
  }

  /** And after a transaction: only the last message's peripheral is told of the stop. */
  function Effects(devices: map<int, Device>, messages: seq<Message>): map<int, Device>
    requires AllValid(messages)
    decreases |messages|
  {
    var (after, active) := Effect(devices, messages[0]);
    if |messages| > 1 then Effects(after, messages[1..])
    else if active.Some? && active.value in after then after[active.value := after[active.value].Log(Stopped)]
    else after
  }

  /** The bytes that a message brings the host. */
  function Brought(devices: map<int, Device>, m: Message): seq<Byte>
    requires m.Valid()
  {
    if m.Writing? then []
    else if m.address !in devices then Undriven(m.n)
    else Requested(devices[m.address].Log(Started(true)), m.n).1
  }

  /** What the host samples in the bodies of the messages that read, and what it should. */
  ghost function Heard(s: State, messages: seq<Message>): seq<seq<bool>>
    requires Invariant(s) && AllValid(messages)
    decreases |messages|
  {
    var u := DriveAll(s, Addressed(messages[0]));
    (if messages[0].Reading? then [Samples(u, Body(messages[0]))] else []) +
    if |messages| == 1 then [] else Heard(DriveAll(DriveAll(u, Body(messages[0])), RESTART), messages[1..])
  }

  ghost function Expected(devices: map<int, Device>, messages: seq<Message>): seq<seq<bool>>
    requires AllValid(messages)
    decreases |messages|
  {
    (if messages[0].Reading? then [Sampled(Brought(devices, messages[0]))] else []) +
    if |messages| == 1 then [] else Expected(Effect(devices, messages[0]).0, messages[1..])
  }

  /** The bus between a message and what follows it. */
  predicate Between(s: State, effect: (map<int, Device>, Option<int>)) {
    Invariant(s) && s.clock && s.bits == 0 && s.devices == effect.0 && s.active == effect.1
  }

  lemma WriteHeard(s: State, devices: map<int, Device>, m: Message)
    requires Addressing(s, devices) && m.Valid() && m.Writing?
    ensures Between(DriveAll(DriveAll(s, Addressed(m)), Body(m)), Effect(devices, m))
  {
    hide Drive, Send, SendAll, Received;
    AddressSent(s, m.address);
    var u := DriveAll(s, Send(m.address));
    if m.address !in devices {
      NothingHeard(u, devices, m.bytes);
    } else {
      var called := devices[m.address := devices[m.address].Log(Started(false))];
      AllSent(u, m.address, called, m.bytes);
      var d := Received(devices[m.address].Log(Started(false)), m.bytes).0;
      assert called[m.address := d] == devices[m.address := d];
    }
  }

  lemma ReadHeard(s: State, devices: map<int, Device>, m: Message)
    requires Addressing(s, devices) && m.Valid() && m.Reading?
    ensures var u := DriveAll(s, Addressed(m));
            && Between(DriveAll(u, Body(m)), Effect(devices, m))
            && Samples(u, Body(m)) == Sampled(Brought(devices, m))
  {
    hide Drive, DriveAll, Samples, Send, ReceiveAll, Requested, Sampled, Undriven;
    AddressSent(s, m.address + 1);
    var u := DriveAll(s, Send(m.address + 1));
    if m.address !in devices {
      AllUnheard(u, m.n);
    } else {
      var called := devices[m.address := devices[m.address].Log(Started(true))];
      AllReceived(u, m.address, called, m.n);
      var d := Requested(called[m.address], m.n).0;
      assert called[m.address := d] == devices[m.address := d];
    }
  }

  lemma MessageHeard(s: State, devices: map<int, Device>, m: Message)
    requires Addressing(s, devices) && m.Valid()
    ensures var u := DriveAll(s, Addressed(m));
            && Between(DriveAll(u, Body(m)), Effect(devices, m))
            && (m.Reading? ==> Samples(u, Body(m)) == Sampled(Brought(devices, m)))
  {
    hide *;
    if m.Writing? {
      WriteHeard(s, devices, m);
    } else {
      ReadHeard(s, devices, m);
    }
  }

  /** A stop or another start after a message. */
  lemma MessageEnded(s: State, effect: (map<int, Device>, Option<int>))
    requires Between(s, effect)
    ensures Addressing(DriveAll(s, RESTART), effect.0)
    ensures var (after, active) := effect;
            var t := DriveAll(s, STOP);
            && Idle(t) && t.phase == AwaitingAddress && t.active.None?
            && t.devices == if active.Some? && active.value in after
                            then after[active.value := after[active.value].Log(Stopped)] else after
  {
    RestartHeard(s);
    StopHeard(s);
  }

  lemma {:induction false} ConversationDelivered(s: State, devices: map<int, Device>, messages: seq<Message>)
    requires Addressing(s, devices) && AllValid(messages)
    ensures var t := DriveAll(s, Conversation(messages));
            Idle(t) && t.phase == AwaitingAddress && t.active.None? && t.devices == Effects(devices, messages)
    ensures Heard(s, messages) == Expected(devices, messages)
    decreases |messages|
  {
    hide Drive, DriveAll, Addressed, Body, Effect, Brought, Sampled, Samples, Between, Idle, Addressing, Message.Valid;
    var m := messages[0];
    MessageHeard(s, devices, m);
    AddressingInvariant(s, devices);
    var u := DriveAll(s, Addressed(m));
    var v, rest := DriveAll(u, Body(m)), if |messages| == 1 then STOP else RESTART + Conversation(messages[1..]);
    DriveConcat(s, Addressed(m), Body(m) + rest);
    DriveConcat(u, Body(m), rest);
    MessageEnded(v, Effect(devices, m));
    if |messages| > 1 {
      DriveConcat(v, RESTART, Conversation(messages[1..]));
      ConversationDelivered(DriveAll(v, RESTART), Effect(devices, m).0, messages[1..]);
    }
  }

  lemma AddressingInvariant(s: State, devices: map<int, Device>)
    requires Addressing(s, devices)
    ensures Invariant(s)
  {
  }

  /** A transaction of any messages, joined by repeated starts, leaves the bus idle and each peripheral as its
      messages in turn make it; the host samples, most significant bit first, the bytes that each read brings. */
  lemma TransactionDelivered(s: State, messages: seq<Message>)
    requires Idle(s) && AllValid(messages)
    ensures var t := DriveAll(s, Transaction(messages));
            && Idle(t) && t.phase == AwaitingAddress && t.active.None?
            && t.devices == Effects(s.devices, messages)
            && Heard(DriveAll(s, START), messages) == Expected(s.devices, messages)
  {
    hide Drive, Conversation, Heard, Expected, Effects;
    StartHeard(s);
    DriveConcat(s, START, Conversation(messages));
    ConversationDelivered(DriveAll(s, START), s.devices, messages);
  }

  /** A write alone delivers to the addressed peripheral exactly the bytes up to its first refusal, and then the
      stop if there was none; it disturbs no other peripheral and leaves the bus idle. If no peripheral has the
      address then it disturbs none at all. */
  lemma WriteDelivered(s: State, address: Byte, bytes: seq<Byte>)
    requires Idle(s) && address % 2 == 0
    ensures var t := DriveAll(s, Transaction([Writing(address, bytes)]));
            && Idle(t) && t.phase == AwaitingAddress && t.active.None?
            && t.devices ==
                 if address !in s.devices then s.devices
                 else
                   var (d, connected) := Received(s.devices[address].Log(Started(false)), bytes);
                   s.devices[address := if connected then d.Log(Stopped) else d]
  {
    hide Drive, DriveAll, Received, Heard, Expected, Transaction, Idle;
    TransactionDelivered(s, [Writing(address, bytes)]);
    var (d, connected) := Effect(s.devices, Writing(address, bytes));
    if address in s.devices {
      var (d, connected) := Received(s.devices[address].Log(Started(false)), bytes);
      assert s.devices[address := d][address := d.Log(Stopped)] == s.devices[address := d.Log(Stopped)];
    }
  }

  /** A read alone makes the host sample exactly the addressed peripheral's bytes, most significant bit first,
      until it stops acknowledging, or ones once the peripheral declines or if there is no such peripheral; only
      a peripheral that declined is told of the stop. */
  lemma ReadDelivered(s: State, address: Byte, n: nat)
    requires Idle(s) && address % 2 == 0 && n > 0
    ensures var t := DriveAll(s, Transaction([Reading(address, n)]));
            var u := DriveAll(DriveAll(s, START), Send(address + 1));
            && Idle(t) && t.phase == AwaitingAddress && t.active.None?
            && if address !in s.devices
               then t.devices == s.devices && Samples(u, ReceiveAll(n)) == Sampled(Undriven(n))
               else
                 var (d, bytes, declined) := Requested(s.devices[address].Log(Started(true)), n);
                 && t.devices == s.devices[address := if declined then d.Log(Stopped) else d]
                 && Samples(u, ReceiveAll(n)) == Sampled(bytes)
  {
    hide Drive, DriveAll, Send, ReceiveAll, Requested, Sampled, Samples, Transaction;
    var m := Reading(address, n);
    TransactionDelivered(s, [m]);
    if address in s.devices {
      var d := Requested(s.devices[address].Log(Started(true)), n).0;
      assert s.devices[address := d][address := d.Log(Stopped)] == s.devices[address := d.Log(Stopped)];
    }
    assert Heard(DriveAll(s, START), [m])[0] == Expected(s.devices, [m])[0];
  }

  /** The combined format: a register is named by a write, and read after a repeated start. Its peripheral is
      told of no stop in between, and the host samples the bytes that it then supplies. */
  lemma RegisterRead(s: State, address: Byte, register: Byte, n: nat)
    requires Idle(s) && address % 2 == 0 && n > 0 && address in s.devices
    ensures var messages := [Writing(address, [register]), Reading(address, n)];
            var d := Received(s.devices[address].Log(Started(false)), [register]).0;
            var (end, bytes, declined) := Requested(d.Log(Started(true)), n);
            && DriveAll(s, Transaction(messages)).devices ==
                 s.devices[address := if declined then end.Log(Stopped) else end]
            && Heard(DriveAll(s, START), messages) == [Sampled(bytes)]
  {
    hide Drive, DriveAll, Send, ReceiveAll, Requested, Received, Sampled, Samples, Transaction, Idle, Heard;
    var first, second := Writing(address, [register]), Reading(address, n);
    TransactionDelivered(s, [first, second]);
    assert [first, second][1..] == [second];
    var d := Received(s.devices[address].Log(Started(false)), [register]).0;
    var end := Requested(d.Log(Started(true)), n).0;
    assert s.devices[address := d][address := end] == s.devices[address := end];
    assert s.devices[address := end][address := end.Log(Stopped)] == s.devices[address := end.Log(Stopped)];
  }

  /** The number of bytes among the first n replies before any refusal to go on. */
  function Offered(replies: seq<Option<Byte>>, n: nat): (k: nat)
    ensures k <= n && k <= |replies|
    ensures forall i | 0 <= i < k :: replies[i].Some?
  {
    if n == 0 || replies == [] || replies[0].None? then 0 else 1 + Offered(replies[1..], n - 1)
  }

  /** What Requested amounts to: the peripheral's bytes in order, and nothing after it declines. */
  lemma {:induction false} RequestedUntilDeclined(d: Device, n: nat)
    requires n > 0
    ensures var k, (end, bytes, declined) := Offered(d.readReplies, n), Requested(d, n);
            && (declined <==> k < n)
            && (forall i | 0 <= i < n :: bytes[i] == if i < k then d.readReplies[i].value else 255)
            && end.calls == d.calls + Reads(if declined then k + 1 else k)
    decreases n
  {
    RepliesAtOnce(d, n);
    RepliesLogged(d, n);
  }

  function Reads(n: nat): seq<Call> {
    if n == 0 then [] else [Read] + Reads(n - 1)
  }

  lemma {:induction false} RepliesAtOnce(d: Device, n: nat)
    requires n > 0
    ensures var k, (end, bytes, declined) := Offered(d.readReplies, n), Requested(d, n);
            && (declined <==> k < n)
            && forall i | 0 <= i < n :: bytes[i] == if i < k then d.readReplies[i].value else 255
    decreases n
  {
    if d.ReadReply().Some? && n > 1 {
      RepliesAtOnce(d.AfterRead(), n - 1);
    }
  }

  lemma {:induction false} RepliesLogged(d: Device, n: nat)
    requires n > 0
    ensures var k, (end, bytes, declined) := Offered(d.readReplies, n), Requested(d, n);
            end.calls == d.calls + Reads(if declined then k + 1 else k) && (declined <==> k < n)
    decreases n
  {
    OneRead();
    if d.ReadReply().Some? && n > 1 {
      RepliesLogged(d.AfterRead(), n - 1);
    }
  }

  lemma OneRead()
    ensures Reads(0) == [] && Reads(1) == [Read]
  {
  }
}
