/** The opcode bytes of the Chip16 instruction set (EmuCore/Opcodes.cs).
    The group of an opcode is its high nibble. */
module Opcodes {
  import opened Bits

  // 0x - Misc/Video/Audio
  const NOP: u8 := 0x00
  const CLS: u8 := 0x01
  const VBLNK: u8 := 0x02
  const BGC: u8 := 0x03
  const SPR: u8 := 0x04
  const DRW1: u8 := 0x05
  const DRW2: u8 := 0x06
  const RND: u8 := 0x07
  const FLIP: u8 := 0x08
  const SND0: u8 := 0x09
  const SND1: u8 := 0x0A
  const SND2: u8 := 0x0B
  const SND3: u8 := 0x0C
  const SNP: u8 := 0x0D
  const SNG: u8 := 0x0E

  // 1x - Jumps (branches)
  const JMP: u8 := 0x10
  const J: u8 := 0x12
  const CALL: u8 := 0x14
  const RET: u8 := 0x15

  // 2x - Loads
  const LDI: u8 := 0x20
  const LDM: u8 := 0x22
  const MOV: u8 := 0x24

  // 3x - Stores
  const STM: u8 := 0x30

  // 4x - Addition
  const ADDI: u8 := 0x40
  const ADD: u8 := 0x41

  // 5x - Subtraction
  const SUB: u8 := 0x51
  const CMPI: u8 := 0x53

  // 6x - Bitwise AND
  const TSTI: u8 := 0x63

  // 7x - Bitwise OR
  const OR: u8 := 0x71

  // 8x - Bitwise XOR
  const XOR: u8 := 0x81

  // 9x - Multiplication
  const MUL2: u8 := 0x92

  // Ax - Division
  const DIV2: u8 := 0xA2

  // Bx - Logical/arithmetic shifts
  const SHL: u8 := 0xB0
  const SHR: u8 := 0xB1

  // Cx - Push/pop
  const POP: u8 := 0xC1
  const PUSHF: u8 := 0xC4

  /** Every constant of the class, in declaration order. */
  const ALL: seq<u8> := [
    NOP, CLS, VBLNK, BGC, SPR, DRW1, DRW2, RND, FLIP, SND0, SND1, SND2, SND3, SNP, SNG,
    JMP, J, CALL, RET,
    LDI, LDM, MOV,
    STM,
    ADDI, ADD,
    SUB, CMPI,
    TSTI,
    OR,
    XOR,
    MUL2,
    DIV2,
    SHL, SHR,
    POP, PUSHF
  ]

  /** The opcodes InstructionsetFactory registers a handler for. */
  const HANDLED: set<u8> := {NOP, JMP, J, CALL, LDI, LDM, STM, MOV, TSTI, XOR}

  /** The group number each constant is declared under, in the same order. */
  const GROUPS: seq<nat> := [
    0, 0, 0, 0, 0, 0, 0, 0, 0, 0, 0, 0, 0, 0, 0,
    1, 1, 1, 1,
    2, 2, 2,
    3,
    4, 4,
    5, 5,
    6,
    7,
    8,
    9,
    10,
    11, 11,
    12, 12
  ]

  /** No two constants share a byte. */
  lemma AllDistinct()
    ensures |ALL| == 36
    ensures forall i, j :: 0 <= i < j < |ALL| ==> ALL[i] != ALL[j]
  {
  }

  /** Each constant's high nibble is the group it is declared under. */
  lemma GroupsMatchHighNibble()
    ensures |GROUPS| == |ALL|
    ensures forall i :: 0 <= i < |ALL| ==> HighNibble(ALL[i]) == GROUPS[i]
  {
  }

  /** The opcodes the instruction tests exercise beyond the ten have no
      handler (with TableDomain: looking them up raises a
      KeyNotFoundException). */
  lemma TestedOpcodesUnhandled()
    ensures forall op :: op in {ADD, ADDI, SUB, CMPI, OR, MUL2, DIV2, SHL, SHR, RET, POP, PUSHF} ==> op !in HANDLED
  {
  }
}
