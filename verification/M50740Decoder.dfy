/** The M50740's instructions, and a decoder that can be given their bytes in any pieces. */
module M50740Decoder {

  type Byte = x: int | 0 <= x < 256

  datatype AddressingMode =
    | Implied | Accumulator | Immediate | Absolute | AbsoluteX | AbsoluteY | ZeroPage | ZeroPageX | ZeroPageY
    | XIndirect | IndirectY | Relative | AbsoluteIndirect | ZeroPageIndirect | SpecialPage | ImmediateZeroPage
    | AccumulatorRelative | ZeroPageRelative

  /** Operations, those that neither branch nor return being numbered. */
  datatype Operation =
    | Invalid | RTS | RTI | BRK | JMP | BRA | JSR
    | BCC | BCS | BVC | BVS | BMI | BPL | BNE | BEQ
    | BBS(bit: nat) | BBC(bit: nat) | Other(number: nat)

  datatype Instruction = Instruction(operation: Operation, mode: AddressingMode, opcode: Byte)

  const NONE := Instruction(Invalid, Implied, 0)

  /** The number of operand bytes. */
  function Size(mode: AddressingMode): (n: nat)
    ensures n <= 2
  {
    if mode.Implied? || mode.Accumulator? then 0
    else if mode.Absolute? || mode.AbsoluteX? || mode.AbsoluteY? || mode.AbsoluteIndirect?
         || mode.ImmediateZeroPage? || mode.ZeroPageRelative? then 2
    else 1
  }

  /** What each opcode means; its entries are not modelled. */
  type Opcodes = Byte -> Instruction

  // The specification: the instruction at the head of some bytes.

  datatype Decoding = Complete(length: nat, instruction: Instruction) | Incomplete(missing: nat)

  /** An undefined opcode is an instruction of one byte; of no bytes it is unknown how many are missing. */
  function Decode(opcodes: Opcodes, bytes: seq<Byte>): (d: Decoding)
    ensures d.Complete? ==> 1 <= d.length <= 3 && d.length <= |bytes|
  {
    if bytes == [] then Incomplete(0)
    else
      var instruction := opcodes(bytes[0]);
      var length := if instruction.operation.Invalid? then 1 else 1 + Size(instruction.mode);
      if |bytes| >= length then Complete(length, instruction) else Incomplete(length - |bytes|)
  }

  /** Bytes beyond those of the instruction make no difference to it. */
  lemma DecodePrefix(opcodes: Opcodes, bytes: seq<Byte>, n: nat)
    requires n <= |bytes|
    ensures Decode(opcodes, bytes[..n]).Complete? ==> Decode(opcodes, bytes) == Decode(opcodes, bytes[..n])
    ensures Decode(opcodes, bytes).Complete? ==>
              (Decode(opcodes, bytes[..n]).Complete? <==> Decode(opcodes, bytes).length <= n)
  {
    if n > 0 {
      assert bytes[..n][0] == bytes[0];
    }
  }

  datatype Phase = AwaitingInstruction | AwaitingOperand | ReadyToPost

  class Decoder {
    var phase: Phase
    var operandSize: int
    var operandBytes: int
    var consumed: int
    var instruction: Instruction
    const opcodes: Opcodes

    /** The decoder has been given the bytes held since it last produced an instruction. */
    ghost predicate Holds(held: seq<Byte>)
      reads this
    {
      if held == [] then phase == AwaitingInstruction && consumed == 0
      else
        && phase == AwaitingOperand && instruction == opcodes(held[0]) && !instruction.operation.Invalid?
        && operandSize == Size(instruction.mode) && operandBytes == |held| - 1 < operandSize && consumed == |held|
    }

    constructor (opcodes: Opcodes)
      ensures Holds([]) && this.opcodes == opcodes
    {
      this.opcodes := opcodes;
      phase, operandSize, operandBytes, consumed, instruction := AwaitingInstruction, 0, 0, 0, NONE;
    }

    /** Takes some more bytes. The result is that of decoding everything held and the new bytes at once,
        however they were divided: the whole instruction's length, or the number of bytes missing as a
        negative number. It is zero if there were no new bytes, or only the opcode of several. */
    method Take(source: seq<Byte>, ghost held: seq<Byte>) returns (count: int, result: Instruction)
      requires Holds(held)
      modifies `phase, `operandSize, `operandBytes, `consumed, `instruction
      ensures match Decode(opcodes, held + source)
              case Complete(length, decoded) => count == length && result == decoded && Holds([])
              case Incomplete(missing) =>
                && count == (if source == [] || |held + source| == 1 then 0 else 0 - missing)
                && result == NONE && Holds(held + source)
    {
      var position := 0;
      ghost var whole := held + source;
      if phase == AwaitingInstruction && source != [] {
        position := 1;
        consumed := consumed + 1;
        instruction := opcodes(source[0]);
        if instruction.operation.Invalid? {
          consumed := 0;
          return 1, instruction;
        }
        operandSize := Size(instruction.mode);
        phase := if operandSize != 0 then AwaitingOperand else ReadyToPost;
        operandBytes := 0;
      }
      if phase == AwaitingOperand && position != |source| {
        var outstanding := operandSize - operandBytes;
        var taken := if |source| - position < outstanding then |source| - position else outstanding;
        consumed := consumed + taken;
        operandBytes := operandBytes + taken;
        if operandSize == operandBytes {
          phase := ReadyToPost;
        } else {
          return -(operandSize - operandBytes), NONE;
        }
      }
      if phase == ReadyToPost {
        count, result := consumed, instruction;
        consumed := 0;
        phase := AwaitingInstruction;
        return;
      }
      return 0, NONE;
    }
  }
}
