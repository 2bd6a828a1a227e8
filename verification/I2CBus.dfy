/** The I2C bus: a decoder and encoder driven by changes of the clock and data lines. Following the
    source, a line is true while pulled, that is while electrically low. */
module I2CBus {
  import opened Options

  type Byte = x: int | 0 <= x < 256
  type Half = x: int | 0 <= x < 65536

  /** What a peripheral has been asked to do. */
  datatype Call = Started(isRead: bool) | Stopped | Read | Wrote(byte: Byte)

  /** A peripheral, whose own code is not modelled: its calls so far, and its replies to the writes and
      reads still to come, in order. Past the end of its replies it refuses and declines. */
  datatype Device = Device(calls: seq<Call>, writeReplies: seq<bool>, readReplies: seq<Option<Byte>>) {
    function Log(call: Call): Device {
      this.(calls := calls + [call])
    }

    function WriteReply(): bool {
      writeReplies != [] && writeReplies[0]
    }

    function AfterWrite(byte: Byte): Device {
      Log(Wrote(byte)).(writeReplies := if writeReplies == [] then [] else writeReplies[1..])
    }

    function ReadReply(): Option<Byte> {
      if readReplies == [] then None else readReplies[0]
    }

    function AfterRead(): Device {
      Log(Read).(readReplies := if readReplies == [] then [] else readReplies[1..])
    }
  }

  datatype Phase =
    | AwaitingAddress | CollectingAddress | CompletingReadAcknowledge | AwaitingByteAcknowledge | ReceivingByte

  datatype Event = Zero | One | Start | Stop | FinishedOutput

  /** The peripheral in conversation, if any, is named by its address. */
  datatype State = State(
    clock: bool, data: bool, inBit: bool, phase: Phase, input: Half, inputCount: int,
    active: Option<int>, response: Half, bits: int, devices: map<int, Device>)

  const IDLE := State(false, false, false, AwaitingAddress, 65535, -1, None, 65535, 0, map[])

  function DataLine(s: State): bool {
    s.data || (s.bits != 0 && s.response / 128 % 2 == 0)
  }

  /** The address a full input names: its low byte with the read bit cleared. */
  function AddressOf(input: Half): int {
    input % 256 - input % 2
  }

  function SetPhase(s: State, phase: Phase): State {
    s.(phase := phase, inputCount := 0, input := 0)
  }

  function Acknowledge(s: State): State {
    s.(response := 0, bits := 1)
  }

  function Capture(s: State, event: Event): State {
    s.(input := (s.input * 2 + (if event == Zero then 0 else 1)) % 65536, inputCount := s.inputCount + 1)
  }

  function Disconnect(s: State): State {
    SetPhase(s, AwaitingAddress).(active := None)
  }

  function WithDevice(s: State, a: int, d: Device): State {
    s.(devices := s.devices[a := d])
  }

  /** Asks the active peripheral for its next byte and posts it. */
  function Enqueue(s: State): State
    requires s.active.Some? && s.active.value in s.devices
  {
    var d := s.devices[s.active.value];
    var t := WithDevice(s, s.active.value, d.AfterRead());
    match d.ReadReply()
    case Some(byte) => SetPhase(t.(response := byte, bits := 8), AwaitingByteAcknowledge)
    case None => SetPhase(t, AwaitingAddress)
  }

  predicate Connected(s: State) {
    s.active.Some? && s.active.value in s.devices
  }

  /** The phases in which a peripheral must be active, and the ranges of the bit counts. */
  predicate Invariant(s: State) {
    && 0 <= s.bits <= 8
    && (s.active.Some? ==> s.active.value in s.devices)
    && (s.phase != AwaitingAddress && s.phase != CollectingAddress ==> s.active.Some?)
    && (s.phase == CollectingAddress || s.phase == ReceivingByte ==> 0 <= s.inputCount < 8)
    && (s.phase == CompletingReadAcknowledge ==> s.bits <= 1)
    && s.inputCount <= 8
  }

  function Signal(s: State, event: Event): (t: State)
    requires Invariant(s)
  {
    if event == Start then SetPhase(s, CollectingAddress).(active := None)
    else if event == Stop then
      if s.active.None? then Disconnect(s)
      else Disconnect(WithDevice(s, s.active.value, s.devices[s.active.value].Log(Stopped)))
    else
      match s.phase
      case AwaitingAddress => s
      case CollectingAddress => CollectedAddress(Capture(s, event))
      case ReceivingByte => if event == FinishedOutput then s else ReceivedByte(Capture(s, event))
      case CompletingReadAcknowledge => if event == FinishedOutput then Enqueue(s) else s
      case AwaitingByteAcknowledge =>
        if event == FinishedOutput then s else if event == Zero then Enqueue(s) else Disconnect(s)
  }

  function CollectedAddress(s: State): State {
    var a := AddressOf(s.input);
    if s.inputCount != 8 then s
    else if a !in s.devices then s.(phase := AwaitingAddress)
    else
      var isRead := s.input % 2 == 1;
      var t := Acknowledge(WithDevice(s.(active := Some(a)), a, s.devices[a].Log(Started(isRead))));
      SetPhase(t, if isRead then CompletingReadAcknowledge else ReceivingByte)
  }

  function ReceivedByte(s: State): State
    requires Connected(s)
  {
    var d := s.devices[s.active.value];
    if s.inputCount != 8 then s
    else
      var t := WithDevice(s, s.active.value, d.AfterWrite(s.input % 256));
      if d.WriteReply() then SetPhase(Acknowledge(t), ReceivingByte) else Disconnect(t)
  }

  /** A change of the lines. While a peripheral is sending, only falling clock edges matter. */
  function Drive(s: State, clock: bool, data: bool): State
    requires Invariant(s)
  {
    var t := s.(clock := clock, data := data);
    if clock == s.clock && data == s.data then s
    else if s.bits != 0 then
      if s.clock || !clock then t
      else
        var u := t.(bits := s.bits - 1, response := s.response * 2 % 65536);
        if u.bits == 0 then Signal(u, FinishedOutput) else u
    else if !clock && data != s.data then Signal(t.(inBit := false), if data then Start else Stop)
    else if clock == s.clock then t
    else if !clock then t.(inBit := true)
    else if s.inBit then Signal(t.(inBit := false), if data then Zero else One)
    else t
  }

  lemma SignalKeepsInvariant(s: State, event: Event)
    requires Invariant(s) && s.bits == 0
    ensures Invariant(Signal(s, event))
  {
    hide Enqueue, CollectedAddress, ReceivedByte;
    if Connected(s) {
      EnqueueKeepsInvariant(s);
    }
    if s.phase == CollectingAddress {
      CollectedKeepsInvariant(Capture(s, event));
    } else if s.phase == ReceivingByte {
      ReceivedKeepsInvariant(Capture(s, event));
    }
  }

  lemma EnqueueKeepsInvariant(s: State)
    requires Invariant(s) && Connected(s) && s.bits == 0
    ensures Invariant(Enqueue(s))
  {
  }

  lemma CollectedKeepsInvariant(s: State)
    requires Invariant(s.(inputCount := 0)) && s.phase == CollectingAddress && s.bits == 0 && 0 <= s.inputCount <= 8
    ensures Invariant(CollectedAddress(s))
  {
  }

  lemma ReceivedKeepsInvariant(s: State)
    requires Invariant(s.(inputCount := 0)) && s.phase == ReceivingByte && s.bits == 0 && 0 <= s.inputCount <= 8
    ensures Invariant(ReceivedByte(s))
  {
  }

  /** Every change of the lines keeps the invariant. */
  lemma DriveKeepsInvariant(s: State, clock: bool, data: bool)
    requires Invariant(s)
    ensures Invariant(Drive(s, clock, data))
  {
    hide Signal;
    var t := s.(clock := clock, data := data);
    if s.bits != 0 {
      var u := t.(bits := s.bits - 1, response := s.response * 2 % 65536);
      if u.bits == 0 {
        SignalKeepsInvariant(u, FinishedOutput);
      }
    } else {
      SignalKeepsInvariant(t.(inBit := false), if data then Start else Stop);
      SignalKeepsInvariant(t.(inBit := false), if data then Zero else One);
    }
  }

  /** A whole sequence of line levels, each a clock and a data level. */
  function DriveAll(s: State, levels: seq<(bool, bool)>): (t: State)
    requires Invariant(s)
    ensures Invariant(t)
    decreases |levels|
  {
    if levels == [] then s
    else
      DriveKeepsInvariant(s, levels[0].0, levels[0].1);
      DriveAll(Drive(s, levels[0].0, levels[0].1), levels[1..])
  }

  class Bus {
    var data: bool
    var clock: bool
    var inBit: bool
    var phase: Phase
    var input: Half
    var inputCount: int
    var active: Option<int>
    var response: Half
    var bits: int
    var devices: map<int, Device>

    function Snapshot(): State
      reads this
    {
      State(clock, data, inBit, phase, input, inputCount, active, response, bits, devices)
    }

    constructor ()
      ensures Snapshot() == IDLE && Invariant(Snapshot())
    {
      data, clock, inBit, phase, input, inputCount := false, false, false, AwaitingAddress, 65535, -1;
      active, response, bits, devices := None, 65535, 0, map[];
    }

    method AddPeripheral(d: Device, address: int)
      requires Invariant(Snapshot())
      modifies `devices
      ensures Snapshot() == old(Snapshot()).(devices := old(devices)[address := d]) && Invariant(Snapshot())
    {
      devices := devices[address := d];
    }

    method Data() returns (pulled: bool)
      ensures pulled == DataLine(Snapshot())
    {
      pulled := data;
      if bits != 0 {
        pulled := pulled || response / 128 % 2 == 0;
      }
    }

    method SetClockData(clockPulled: bool, dataPulled: bool)
      requires Invariant(Snapshot())
      modifies this
      ensures Snapshot() == Drive(old(Snapshot()), clockPulled, dataPulled) && Invariant(Snapshot())
    {
      hide Signal;
      DriveKeepsInvariant(Snapshot(), clockPulled, dataPulled);
      if clockPulled == clock && dataPulled == data {
        return;
      }
      var priorClock, priorData := clock, data;
      clock, data := clockPulled, dataPulled;

      // Serialising from a peripheral: shift onwards on every trailing clock edge.
      if bits != 0 {
        if !priorClock && clock {
          bits := bits - 1;
          response := response * 2 % 65536;
          if bits == 0 {
            SignalEvent(FinishedOutput);
          }
        }
        return;
      }

      if !clock && priorData != data {
        // Data moving while the clock is released frames a transaction.
        inBit := false;
        SignalEvent(if data then Start else Stop);
      } else if clock != priorClock {
        if !clock {
          inBit := true;
        } else if inBit {
          inBit := false;
          SignalEvent(if data then Zero else One);
        }
      }
    }

    method SignalEvent(event: Event)
      requires Invariant(Snapshot())
      modifies this
      ensures Snapshot() == Signal(old(Snapshot()), event)
    {
      if event == Start {
        EnterPhase(CollectingAddress);
        active := None;
        return;
      }
      if event == Stop {
        if active.Some? {
          devices := devices[active.value := devices[active.value].Log(Stopped)];
        }
        EnterPhase(AwaitingAddress);
        active := None;
        return;
      }
      match phase {
        case AwaitingAddress =>
        case CollectingAddress =>
          CaptureBit(event);
          if inputCount == 8 {
            FinishAddress();
          }
        case ReceivingByte =>
          if event == FinishedOutput {
            return;
          }
          CaptureBit(event);
          if inputCount == 8 {
            FinishByte();
          }
        case CompletingReadAcknowledge =>
          if event == FinishedOutput {
            EnqueueNext();
          }
        case AwaitingByteAcknowledge =>
          if event == FinishedOutput {
          } else if event != Zero {
            EnterPhase(AwaitingAddress);
            active := None;
          } else {
            EnqueueNext();
          }
      }
    }

    method CaptureBit(event: Event)
      modifies `input, `inputCount
      ensures Snapshot() == Capture(old(Snapshot()), event)
    {
      input := (input * 2 + (if event == Zero then 0 else 1)) % 65536;
      inputCount := inputCount + 1;
    }

    method EnterPhase(next: Phase)
      modifies `phase, `input, `inputCount
      ensures Snapshot() == SetPhase(old(Snapshot()), next)
    {
      phase := next;
      inputCount := 0;
      input := 0;
    }

    method FinishAddress()
      requires inputCount == 8
      modifies `phase, `input, `inputCount, `active, `response, `bits, `devices
      ensures Snapshot() == CollectedAddress(old(Snapshot()))
    {
      var a := AddressOf(input);
      if a in devices {
        var isRead := input % 2 == 1;
        active := Some(a);
        devices := devices[a := devices[a].Log(Started(isRead))];
        response, bits := 0, 1;
        EnterPhase(if isRead then CompletingReadAcknowledge else ReceivingByte);
      } else {
        phase := AwaitingAddress;
      }
    }

    method FinishByte()
      requires Connected(Snapshot()) && inputCount == 8
      modifies `phase, `input, `inputCount, `active, `response, `bits, `devices
      ensures Snapshot() == ReceivedByte(old(Snapshot()))
    {
      var d := devices[active.value];
      devices := devices[active.value := d.AfterWrite(input % 256)];
      if d.WriteReply() {
        response, bits := 0, 1;
        EnterPhase(ReceivingByte);
      } else {
        EnterPhase(AwaitingAddress);
        active := None;
      }
    }

    method EnqueueNext()
      requires Connected(Snapshot())
      modifies `phase, `input, `inputCount, `response, `bits, `devices
      ensures Snapshot() == Enqueue(old(Snapshot()))
    {
      var d := devices[active.value];
      devices := devices[active.value := d.AfterRead()];
      match d.ReadReply() {
        case Some(byte) =>
          response, bits := byte, 8;
          EnterPhase(AwaitingByteAcknowledge);
        case None =>
          EnterPhase(AwaitingAddress);
      }
    }
  }
}
