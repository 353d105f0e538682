/** The one-byte instruction format `1baaoooo` shared by every iteration:
    bit 7 continues (1) or halts (0), bit 6 is the skip flag, bits 5-4 are the
    operand width minus one, bits 3-0 the opcode. */
module Instruction {
  import opened Bytes

  type ArgSize = x: int | 0 <= x < 4
  type Opcode = x: int | 0 <= x < 16

  datatype Instr = Instr(continues: bool, skip: bool, argsize: ArgSize, opcode: Opcode)
  {
    /** Operand width in bytes: `argsize + 1`. */
    function Width(): (w: nat)
      ensures 1 <= w <= 4
    {
      argsize + 1
    }
  }

  /** The masks of `execute`: `instr & 0b10000000`, `instr & 0b01000000`,
      `(instr & 0b00110000) >> 4` and `instr & 0x0f`, written as division and
      remainder by powers of two. Every byte is the encoding of what it decodes
      to, so the format has no unused bits. */
  function Decode(b: byte): (i: Instr)
    ensures Encode(i) == b
  {
    Instr(b / 128 == 1, (b / 64) % 2 == 1, (b / 16) % 4, b % 16)
  }

  /** How an assembler lays the four fields out in a byte. */
  function Encode(i: Instr): byte
  {
    (if i.continues then 128 else 0) + (if i.skip then 64 else 0) + 16 * i.argsize + i.opcode
  }

  /** Decoding recovers every field that was encoded. */
  lemma DecodeEncode(i: Instr)
    ensures Decode(Encode(i)) == i
  {
  }

  /** The same instruction byte with bit 6, the skip flag, cleared. */
  function ClearSkip(instr: byte): (plain: byte)
    requires Decode(instr).skip
    ensures Decode(plain) == Decode(instr).(skip := false)
  {
    instr - 64
  }
}
