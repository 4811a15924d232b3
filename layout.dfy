/** Sizes, port addresses, enumerations and cell widths of the emulated CPU
    (emulator.h). The header holds no code: everything here is a constant,
    a type, or a fact about those constants. */
module Layout {
  import Bits

  /** `byte` is an unsigned 8-bit SRAM cell, `word` an unsigned 16-bit flash
      cell, operand or intermediate result. */
  type byte = x: int | 0 <= x < 0x100
  type word = x: int | 0 <= x < 0x1_0000

  /** C's conversion of a value to `byte`: keep the low 8 bits. */
  function Lo(x: int): (b: byte)
    ensures 0 <= x < 0x100 ==> b == x
  {
    x % 0x100
  }

  /** C's conversion of a value to `word`: keep the low 16 bits (so
      subtraction below zero wraps to 0xFFFF and down). */
  function Wrap(x: int): (w: word)
    ensures 0 <= x < 0x1_0000 ==> w == x
    ensures -0x1_0000 <= x < 0 ==> w == x + 0x1_0000
  {
    x % 0x1_0000
  }

  /** Bitwise operators on words: C computes them on the (non-negative)
      promoted values and converts the result back to `word`. Two 16-bit
      operands give a 16-bit result, so the conversion drops nothing. */
  function And16(x: word, y: word): (r: word)
    ensures r == Bits.BitOp(Bits.And, x, y)
  {
    Bits.Pow2Values();
    Bits.Narrow(Bits.And, x, y, 16);
    Wrap(Bits.BitOp(Bits.And, x, y))
  }

  function Or16(x: word, y: word): (r: word)
    ensures r == Bits.BitOp(Bits.Or, x, y)
  {
    Bits.Pow2Values();
    Bits.Narrow(Bits.Or, x, y, 16);
    Wrap(Bits.BitOp(Bits.Or, x, y))
  }

  function Xor16(x: word, y: word): (r: word)
    ensures r == Bits.BitOp(Bits.Xor, x, y)
  {
    Bits.Pow2Values();
    Bits.Narrow(Bits.Xor, x, y, 16);
    Wrap(Bits.BitOp(Bits.Xor, x, y))
  }

  // Memory sizes: SRAM bytes and flash words.
  const MaxSram: nat := 512
  const MaxFlash: nat := 128

  // The two distinguished OUT addresses.
  const PortStdio: word := 0x52
  const PortExit: word := 0x4F

  // Status register indices; only Z and N exist.
  const SregZ: word := 0
  const SregN: word := 1
  const SregEnd: word := 2

  // The register file: SRAM addresses 0 .. RegEnd - 1.
  const RegRax: word := 0
  const RegRbx: word := 1
  const RegRcx: word := 2
  const RegRdx: word := 3
  const RegRbp: word := 4
  const RegRsi: word := 5
  const RegRdi: word := 6
  const RegRsp: word := 7
  const RegR8: word := 8
  const RegR9: word := 9
  const RegR10: word := 10
  const RegR11: word := 11
  const RegR12: word := 12
  const RegR13: word := 13
  const RegR14: word := 14
  const RegR15: word := 15
  const RegEnd: word := 16

  // Opcodes.
  const OpcBad: word := 0
  const OpcLdi: word := 1
  const OpcMov: word := 2
  const OpcMovw: word := 3
  const OpcPush: word := 4
  const OpcPop: word := 5
  const OpcAdiw: word := 6
  const OpcAdd: word := 7
  const OpcSubi: word := 8
  const OpcSub: word := 9
  const OpcMul: word := 10
  const OpcInc: word := 11
  const OpcDec: word := 12
  const OpcSwap: word := 13
  const OpcNeg: word := 14
  const OpcRor: word := 15
  const OpcAndi: word := 16
  const OpcAnd: word := 17
  const OpcOri: word := 18
  const OpcOr: word := 19
  const OpcEor: word := 20
  const OpcCpi: word := 21
  const OpcCp: word := 22
  const OpcJe: word := 23
  const OpcJne: word := 24
  const OpcJz: word := 25
  const OpcBreak: word := 26
  const OpcNop: word := 27
  const OpcOut: word := 28
  const OpcIn: word := 29
  const OpcEnd: word := 30

  /** The opcode enumeration in declaration order, BAD first, END last. */
  const Opcodes: seq<word> := [
    OpcBad, OpcLdi, OpcMov, OpcMovw, OpcPush, OpcPop,
    OpcAdiw, OpcAdd, OpcSubi, OpcSub, OpcMul, OpcInc, OpcDec,
    OpcSwap, OpcNeg, OpcRor,
    OpcAndi, OpcAnd, OpcOri, OpcOr, OpcEor,
    OpcCpi, OpcCp,
    OpcJe, OpcJne, OpcJz,
    OpcBreak, OpcNop, OpcOut, OpcIn, OpcEnd]

  /** A register operand names a cell of the register file. */
  predicate IsReg(a: word) {
    a < RegEnd
  }

  /** An address operand names a cell of SRAM. */
  predicate IsSramAddr(a: word) {
    a < MaxSram
  }

  /** The two-byte stack pointer lives at RSP (low byte) and RSP + 1 (high byte). */
  const SpAddr: word := RegRsp
}
