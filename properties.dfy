/** What the engine of emulator.c guarantees, proved over the value model in
    machine.dfy: the constants of emulator.h, the memory helpers, the flag
    rule, the behaviour of each instruction family, faults, loading, and the
    fetch/dispatch loop as a whole. */
module Properties {
  import opened Layout
  import opened Machine
  import Bits

  // ---------------------------------------------------------------------
  // emulator.h

  /** The opcodes are numbered 0 .. 30 in declaration order, so they are
      pairwise distinct; BAD is 0, the value that ends a program image. */
  lemma OpcodeNumbering()
    ensures |Opcodes| == OpcEnd + 1
    ensures forall i :: 0 <= i < |Opcodes| ==> Opcodes[i] == i
    ensures OpcBad == 0 && OpcJe == 23 && OpcJz == 25 && OpcJe != OpcJz
  {
  }

  /** Sixteen registers at SRAM 0 .. 15; the stack pointer's high byte is
      register R8. The ports are distinct SRAM cells outside the registers. */
  lemma RegisterAndPortLayout()
    ensures RegEnd == 16 && RegEnd < MaxSram
    ensures IsReg(RegRsp) && RegRsp + 1 == RegR8 && IsReg(RegR15) && !IsReg(RegEnd)
    ensures PortStdio != PortExit
    ensures RegEnd <= PortStdio < MaxSram && RegEnd <= PortExit < MaxSram
    ensures SregZ != SregN && SregEnd == 2
  {
  }

  // ---------------------------------------------------------------------
  // e_cpu_sram_read / e_cpu_sram_write

  /** Reading a word back after writing it yields the word. */
  lemma ReadAfterWrite(sram: seq<byte>, addr: nat, value: word)
    requires addr + 1 < |sram|
    ensures ReadWord(WriteWord(sram, addr, value), addr) == value
  {
    var m := WriteWord(sram, addr, value);
    assert m[addr] == value % 0x100 && m[addr + 1] == value / 0x100;
  }

  /** Writing back the word `orig` holds at `addr` sets just those two
      cells to `orig`'s bytes. */
  lemma WriteOfRead(m: seq<byte>, orig: seq<byte>, addr: nat)
    requires |m| == |orig| && addr + 1 < |m|
    ensures WriteWord(m, addr, ReadWord(orig, addr)) == m[addr := orig[addr]][addr + 1 := orig[addr + 1]]
  {
    var lo, hi := orig[addr] as int, orig[addr + 1] as int;
    var v := lo + hi * 0x100;
    assert v % 0x100 == lo && v / 0x100 == hi by {
      LowHigh(lo, hi);
    }
  }

  /** The low byte of a word assembled from two bytes is the first byte. */
  lemma LowHigh(lo: byte, hi: byte)
    ensures (lo + hi * 0x100) % 0x100 == lo && (lo + hi * 0x100) / 0x100 == hi
  {
    var v := lo + hi * 0x100;
    assert v == hi * 0x100 + lo;
  }

  /** ReadWord is C's `sram[addr] | (sram[addr + 1] << 8)`: the high byte
      shifted up shares no bit with the low byte. */
  lemma ReadWordIsOr(sram: seq<byte>, addr: nat)
    requires addr + 1 < |sram|
    ensures ReadWord(sram, addr) == Bits.BitOp(Bits.Or, sram[addr], sram[addr + 1] as int * 0x100)
  {
    Bits.Pow2Values();
    Bits.OrDisjoint(sram[addr], sram[addr + 1] as int * 0x100, 8);
  }

  /** The switch has a case for every opcode from LDI to IN, JZ and JE
      sharing one; BAD, END and every larger value fall to BAD or default. */
  lemma HandlerLabels(op: word)
    ensures HandlerOf(op) == Unknown <==> op == OpcBad || op >= OpcEnd
    ensures HandlerOf(op) == JumpIfZero <==> op == OpcJz || op == OpcJe
  {
  }

  // ---------------------------------------------------------------------
  // Instruction families

  /** `s` is about to execute opcode `op` with its operand words inside flash. */
  predicate At(s: State, op: word) {
    ValidState(s) && s.pc < MaxFlash && s.flash[s.pc] == op && s.pc + Arity(op) < MaxFlash
  }

  /** The operand combinations each case rejects with nothing but its
      operand fetches; NOP and unknown opcodes reject everything. */
  predicate Skipped(op: word, a: word, b: word) {
    match HandlerOf(op)
    case AluImm | AluUnary | Swap | Push => !IsReg(a)
    case AluReg | Mov => !IsReg(a) || !IsReg(b)
    case Movw => !IsSramAddr(a) || !IsSramAddr(b)
    case Out => !IsSramAddr(a) || !IsReg(b)
    case In => !IsReg(a) || !IsSramAddr(b)
    case Pop | JumpIfZero | JumpIfNotZero | Break => false
    case Nop | Unknown => true
  }

  /** A rejected operand makes the instruction a no-op that still consumes
      its operand words: only pc moves, past the last of them. */
  lemma SkippedOnlyAdvancesPc(s: State)
    requires ValidState(s) && s.pc < MaxFlash && OperandsInFlash(s)
    requires Skipped(Opcode(s), Arg(s, 1), Arg(s, 2))
    ensures Step(s) == Next(s.(pc := s.pc + Arity(Opcode(s)) + 1))
  {
    var op := Opcode(s);
    if HandlerOf(op) == Movw {
      assert MovwStep(Arg(s, 1), Arg(s, 2), Fetched(s)) == Next(Fetched(s));
    }
  }

  /** Only the ALU cases touch the status flags. */
  lemma FlagsOnlyFromAlu(s: State)
    requires ValidState(s) && s.pc < MaxFlash && !IsAluOp(Opcode(s))
    ensures Step(s).state.z == s.z && Step(s).state.n == s.n
  {
    if OperandsInFlash(s) {
      DispatchFrame(Opcode(s), Arg(s, 1), Arg(s, 2), Fetched(s));
    }
  }

  /** Each case of the switch keeps the flags unless it is an ALU case,
      and appends at most one byte to the output. */
  lemma DispatchFrame(op: word, a: word, b: word, t: State)
    requires ValidState(t)
    ensures var r := Dispatch(op, a, b, t).state;
            (!IsAluOp(op) ==> r.z == t.z && r.n == t.n) &&
            t.out <= r.out && |r.out| <= |t.out| + 1
  {
    match HandlerOf(op)
    case AluImm =>
    case AluReg =>
    case AluUnary =>
    case Mov =>
    case Movw =>
    case Push =>
    case Pop =>
    case Swap =>
    case JumpIfZero =>
    case JumpIfNotZero =>
    case Break =>
    case Nop =>
    case Out =>
    case In =>
    case Unknown =>
  }

  /** The instructions that may set pc themselves: the jumps, BREAK, and
      OUT to the exit port. */
  predicate Transfers(op: word, a: word, b: word) {
    match HandlerOf(op)
    case JumpIfZero | JumpIfNotZero | Break => true
    case Out => a == PortExit && IsReg(b)
    case _ => false
  }

  /** Every other case leaves pc on its last operand word. */
  lemma DispatchKeepsPc(op: word, a: word, b: word, t: State)
    requires ValidState(t) && !Transfers(op, a, b)
    ensures Dispatch(op, a, b, t).state.pc == t.pc
  {
    match HandlerOf(op)
    case AluImm =>
    case AluReg =>
    case AluUnary =>
    case Mov =>
    case Movw =>
    case Push =>
    case Pop =>
    case Swap =>
    case Nop =>
    case Out =>
    case In =>
    case Unknown =>
  }

  /** An instruction at p with k operand words that neither jumps nor ends
      the run is followed by the fetch at p + k + 1. */
  lemma PcAdvances(s: State)
    requires ValidState(s) && s.pc < MaxFlash && OperandsInFlash(s)
    requires !Transfers(Opcode(s), Arg(s, 1), Arg(s, 2)) && Step(s).Next?
    ensures Step(s).state.pc == s.pc + Arity(Opcode(s)) + 1
  {
    DispatchKeepsPc(Opcode(s), Arg(s, 1), Arg(s, 2), Fetched(s));
  }

  /** JZ and JE jump when Z is set, JNE when it is clear; a taken jump
      resumes at the target plus one (the loop's increment), otherwise
      execution continues after the operand. Nothing else changes. */
  lemma JumpRule(s: State)
    requires At(s, OpcJz) || At(s, OpcJe) || At(s, OpcJne)
    ensures var taken := if s.flash[s.pc] == OpcJne then !s.z else s.z;
            Step(s) == Next(s.(pc := if taken then s.flash[s.pc + 1] + 1 else s.pc + 2))
  {
  }

  /** LDI stores the low byte of the immediate but sets the flags from the
      whole 16-bit immediate. */
  lemma LdiRule(s: State)
    requires At(s, OpcLdi) && IsReg(s.flash[s.pc + 1])
    ensures var a, b := s.flash[s.pc + 1], s.flash[s.pc + 2];
            Step(s) == Next(s.(sram := s.sram[a := b % 0x100], z := b == 0, n := Bit7(b), pc := s.pc + 3))
  {
  }

  /** LDI of 256 stores 0 in the register yet clears Z. */
  lemma LdiOverflowClearsZ(s: State)
    requires At(s, OpcLdi) && IsReg(s.flash[s.pc + 1]) && s.flash[s.pc + 2] == 0x100
    ensures Step(s).state.sram[s.flash[s.pc + 1]] == 0 && !Step(s).state.z
  {
    LdiRule(s);
  }

  /** INC: the register wraps from 255 to 0, but the flags see the 16-bit
      result 256, so INC never sets Z; N is bit 7 of x + 1. */
  lemma IncRule(s: State)
    requires At(s, OpcInc) && IsReg(s.flash[s.pc + 1])
    ensures var a := s.flash[s.pc + 1]; var x := s.sram[a] as int;
            Step(s) == Next(s.(sram := s.sram[a := (x + 1) % 0x100], z := false,
                               n := 0x7F <= x < 0xFF, pc := s.pc + 2))
  {
    var a := s.flash[s.pc + 1];
    var x := s.sram[a] as int;
    assert Wrap(x + 1) == x + 1;
  }

  /** DEC: 0 wraps to 255 in the register and to 0xFFFF in the flags, so
      N is set; Z is set exactly when the register was 1. */
  lemma DecRule(s: State)
    requires At(s, OpcDec) && IsReg(s.flash[s.pc + 1])
    ensures var a := s.flash[s.pc + 1]; var x := s.sram[a] as int;
            Step(s) == Next(s.(sram := s.sram[a := if x == 0 then 0xFF else x - 1], z := x == 1,
                               n := x == 0 || x > 0x80, pc := s.pc + 2))
  {
    var a := s.flash[s.pc + 1];
    var x := s.sram[a] as int;
    if x == 0 {
      assert Wrap(x - 1) == 0xFFFF;
    } else {
      assert Wrap(x - 1) == x - 1;
    }
  }

  /** NEG: the register holds the two's complement byte; Z is set only for
      0 and N for 1 .. 128. */
  lemma NegRule(s: State)
    requires At(s, OpcNeg) && IsReg(s.flash[s.pc + 1])
    ensures var a := s.flash[s.pc + 1]; var x := s.sram[a] as int;
            Step(s) == Next(s.(sram := s.sram[a := (0x100 - x) % 0x100], z := x == 0,
                               n := 1 <= x <= 0x80, pc := s.pc + 2))
  {
    NegByte(s.sram[s.flash[s.pc + 1]]);
  }

  /** The 16-bit negation of a byte, its low byte and its bit 7. */
  lemma NegByte(x: byte)
    ensures var v := Wrap(-(x as int));
            Lo(v) == (0x100 - x) % 0x100 && (v == 0 <==> x == 0) && (Bit7(v) <==> 1 <= x <= 0x80)
  {
    var v := Wrap(-(x as int));
    if x != 0 {
      assert v == 0xFF00 + (0x100 - x);
      assert v / 0x80 == 0x1FE + (0x100 - x) / 0x80;
    }
  }

  /** ROR shifts right and fills bit 7 with the old N, so N is unchanged
      and Z is set exactly when nothing is left. */
  lemma RorRule(s: State)
    requires At(s, OpcRor) && IsReg(s.flash[s.pc + 1])
    ensures var a := s.flash[s.pc + 1]; var x := s.sram[a] as int;
            var v := x / 2 + if s.n then 0x80 else 0;
            Step(s) == Next(s.(sram := s.sram[a := v], z := v == 0, pc := s.pc + 2))
  {
  }

  /** ROR's result is C's `(x >> 1) | (N << 7)`: x >> 1 lies below bit 7. */
  lemma RorIsOr(x: byte, y: word, nflag: bool)
    ensures Alu(OpcRor, x, y, nflag) ==
            Bits.BitOp(Bits.Or, x / 2, (if nflag then 1 else 0) * 0x80)
  {
    Bits.Pow2Values();
    Bits.OrDisjoint(x / 2, (if nflag then 1 else 0) * 0x80, 7);
  }

  /** The N flag is C's `vres & 0x80`, read as a truth value. */
  lemma Bit7IsMask(v: word)
    ensures Bit7(v) <==> Bits.BitOp(Bits.And, v, 0x80) != 0
  {
    Bits.Pow2Values();
    Bits.AndPow2(v, 7);
  }

  /** Bit 7 of a word is bit 7 of its low byte, so N describes the stored
      byte whenever the result is written back. */
  lemma Bit7OfLow(v: word)
    ensures Bit7(v) <==> v % 0x100 >= 0x80
  {
    var q, m := v / 0x100, v % 0x100;
    Bits.DivMod(v, 0x80, 2 * q + m / 0x80, m % 0x80);
    Bits.DivMod(2 * q + m / 0x80, 2, q, m / 0x80);
  }

  /** A sum, difference or product of a byte and a word, converted to
      `word`: its low byte is the low byte of the exact value, it is zero
      only for 0 and for 0x10000, and its bit 7 is that of the low byte. */
  lemma WrapLowByte(u: int)
    requires -0x1_0000 < u < 0x2_0000
    ensures Lo(Wrap(u)) == u % 0x100
    ensures Wrap(u) == 0 <==> u == 0 || u == 0x1_0000
    ensures Bit7(Wrap(u)) <==> u % 0x100 >= 0x80
  {
    var k := if u < 0 then -1 else if u < 0x1_0000 then 0 else 1;
    assert Wrap(u) == u - k * 0x1_0000;
    assert (u - k * 0x1_0000) % 0x100 == u % 0x100;
    Bit7OfLow(Wrap(u));
  }

  /** AND of a byte with a word: a byte, made of the word's low byte only. */
  lemma AndValue(x: byte, y: word)
    ensures var v := Bits.BitOp(Bits.And, x, y % 0x100);
            v < 0x100 && Lo(And16(x, y)) == v && (And16(x, y) == 0 <==> v == 0) &&
            (Bit7(And16(x, y)) <==> v >= 0x80)
  {
    Bits.AndByte(x, y);
    Bit7OfLow(And16(x, y));
  }

  /** OR of a byte with a word: the stored byte is the OR with the word's
      low byte, while the 16-bit result is zero only when both are. */
  lemma OrValue(x: byte, y: word)
    ensures var v := Bits.BitOp(Bits.Or, x, y % 0x100);
            v < 0x100 && Lo(Or16(x, y)) == v && (Or16(x, y) == 0 <==> x == 0 && y == 0) &&
            (Bit7(Or16(x, y)) <==> v >= 0x80)
  {
    Bits.OrByteWord(x, y);
    Bits.OrZero(x, y);
    Bit7OfLow(Or16(x, y));
  }

  /** XOR of two bytes: a byte, zero exactly when they are equal. */
  lemma XorValue(x: byte, y: byte)
    ensures var v := Bits.BitOp(Bits.Xor, x, y);
            v < 0x100 && Lo(Xor16(x, y)) == v && (Xor16(x, y) == 0 <==> x == y) &&
            (Bit7(Xor16(x, y)) <==> v >= 0x80)
  {
    Bits.XorBytes(x, y);
    Bits.XorZero(x, y);
    Bit7OfLow(Xor16(x, y));
  }

  // The two-operand ALU cases. Each stores the low byte of its 16-bit
  // result and sets Z and N from the whole 16-bit result.

  /** ADD of two registers: the register gets the byte sum modulo 256; Z is
      set only when both were 0 (the 16-bit sum 256 is not zero). */
  lemma AddRule(s: State)
    requires At(s, OpcAdd) && IsReg(s.flash[s.pc + 1]) && IsReg(s.flash[s.pc + 2])
    ensures var a, b := s.flash[s.pc + 1], s.flash[s.pc + 2];
            var x, y := s.sram[a] as int, s.sram[b] as int;
            Step(s) == Next(s.(sram := s.sram[a := (x + y) % 0x100], z := x == 0 && y == 0,
                               n := (x + y) % 0x100 >= 0x80, pc := s.pc + 3))
  {
    var a, b := s.flash[s.pc + 1], s.flash[s.pc + 2];
    WrapLowByte(s.sram[a] as int + s.sram[b]);
  }

  /** 128 + 128 stores 0 but leaves Z clear. */
  lemma AddOverflowClearsZ(s: State)
    requires At(s, OpcAdd) && IsReg(s.flash[s.pc + 1]) && IsReg(s.flash[s.pc + 2])
    requires s.sram[s.flash[s.pc + 1]] == 0x80 && s.sram[s.flash[s.pc + 2]] == 0x80
    ensures Step(s).state.sram[s.flash[s.pc + 1]] == 0 && !Step(s).state.z
  {
    AddRule(s);
  }

  /** ADIW adds the 16-bit immediate: the register gets the sum modulo 256,
      and Z is set when the sum is 0 or exactly 0x10000. */
  lemma AdiwRule(s: State)
    requires At(s, OpcAdiw) && IsReg(s.flash[s.pc + 1])
    ensures var a, b := s.flash[s.pc + 1], s.flash[s.pc + 2];
            var sum := s.sram[a] as int + b;
            Step(s) == Next(s.(sram := s.sram[a := sum % 0x100], z := sum == 0 || sum == 0x1_0000,
                               n := sum % 0x100 >= 0x80, pc := s.pc + 3))
  {
    var a, b := s.flash[s.pc + 1], s.flash[s.pc + 2];
    WrapLowByte(s.sram[a] as int + b);
  }

  /** 1 + 0xFFFF wraps to 0 in 16 bits, so ADIW stores 0 and sets Z. */
  lemma AdiwWrapSetsZ(s: State)
    requires At(s, OpcAdiw) && IsReg(s.flash[s.pc + 1])
    requires s.sram[s.flash[s.pc + 1]] == 1 && s.flash[s.pc + 2] == 0xFFFF
    ensures Step(s).state.sram[s.flash[s.pc + 1]] == 0 && Step(s).state.z
  {
    AdiwRule(s);
  }

  /** SUB of two registers: the register gets the difference modulo 256, Z
      is set exactly when they were equal, N is bit 7 of the stored byte. */
  lemma SubRule(s: State)
    requires At(s, OpcSub) && IsReg(s.flash[s.pc + 1]) && IsReg(s.flash[s.pc + 2])
    ensures var a, b := s.flash[s.pc + 1], s.flash[s.pc + 2];
            var x, y := s.sram[a] as int, s.sram[b] as int;
            Step(s) == Next(s.(sram := s.sram[a := (x - y) % 0x100], z := x == y,
                               n := (x - y) % 0x100 >= 0x80, pc := s.pc + 3))
  {
    var a, b := s.flash[s.pc + 1], s.flash[s.pc + 2];
    WrapLowByte(s.sram[a] as int - s.sram[b]);
  }

  /** SUBI subtracts the 16-bit immediate in the same way: Z exactly when
      the register equals the immediate. */
  lemma SubiRule(s: State)
    requires At(s, OpcSubi) && IsReg(s.flash[s.pc + 1])
    ensures var a, b := s.flash[s.pc + 1], s.flash[s.pc + 2];
            var x, y := s.sram[a] as int, b as int;
            Step(s) == Next(s.(sram := s.sram[a := (x - y) % 0x100], z := x == y,
                               n := (x - y) % 0x100 >= 0x80, pc := s.pc + 3))
  {
    var a, b := s.flash[s.pc + 1], s.flash[s.pc + 2];
    WrapLowByte(s.sram[a] as int - b);
  }

  /** MUL of two registers: the product of two bytes fits 16 bits, so the
      register gets it modulo 256 and Z is set only when a factor is 0. */
  lemma MulRule(s: State)
    requires At(s, OpcMul) && IsReg(s.flash[s.pc + 1]) && IsReg(s.flash[s.pc + 2])
    ensures var a, b := s.flash[s.pc + 1], s.flash[s.pc + 2];
            var x, y := s.sram[a] as int, s.sram[b] as int;
            Step(s) == Next(s.(sram := s.sram[a := (x * y) % 0x100], z := x == 0 || y == 0,
                               n := (x * y) % 0x100 >= 0x80, pc := s.pc + 3))
  {
    var a, b := s.flash[s.pc + 1], s.flash[s.pc + 2];
    ByteProduct(s.sram[a], s.sram[b]);
  }

  /** The product of two bytes as MUL computes it in 16 bits. */
  lemma ByteProduct(x: byte, y: byte)
    ensures Wrap(x * y) == x * y && Lo(Wrap(x * y)) == (x * y) % 0x100
    ensures Wrap(x * y) == 0 <==> x == 0 || y == 0
    ensures Bit7(Wrap(x * y)) <==> (x * y) % 0x100 >= 0x80
  {
    assert x * y <= 0xFF * y <= 0xFF * 0xFF;
    if x != 0 && y != 0 {
      Bits.MulAtLeast(x, y);
    }
    WrapLowByte(x * y);
  }

  /** 16 * 16 stores 0 but leaves Z clear. */
  lemma MulOverflowClearsZ(s: State)
    requires At(s, OpcMul) && IsReg(s.flash[s.pc + 1]) && IsReg(s.flash[s.pc + 2])
    requires s.sram[s.flash[s.pc + 1]] == 16 && s.sram[s.flash[s.pc + 2]] == 16
    ensures Step(s).state.sram[s.flash[s.pc + 1]] == 0 && !Step(s).state.z
  {
    MulRule(s);
  }

  /** AND of two registers stores their bitwise AND, with Z when it is 0. */
  lemma AndRule(s: State)
    requires At(s, OpcAnd) && IsReg(s.flash[s.pc + 1]) && IsReg(s.flash[s.pc + 2])
    ensures var a, b := s.flash[s.pc + 1], s.flash[s.pc + 2];
            var v := Bits.BitOp(Bits.And, s.sram[a], s.sram[b]);
            v < 0x100 &&
            Step(s) == Next(s.(sram := s.sram[a := v], z := v == 0, n := v >= 0x80, pc := s.pc + 3))
  {
    AndValue(s.sram[s.flash[s.pc + 1]], s.sram[s.flash[s.pc + 2]]);
    Bits.ModSmall(s.sram[s.flash[s.pc + 2]], 0x100);
  }

  /** ANDI with a 16-bit immediate: only the immediate's low byte matters,
      since the register has no bits above 7. */
  lemma AndiRule(s: State)
    requires At(s, OpcAndi) && IsReg(s.flash[s.pc + 1])
    ensures var a, b := s.flash[s.pc + 1], s.flash[s.pc + 2];
            var v := Bits.BitOp(Bits.And, s.sram[a], b % 0x100);
            v < 0x100 &&
            Step(s) == Next(s.(sram := s.sram[a := v], z := v == 0, n := v >= 0x80, pc := s.pc + 3))
  {
    AndValue(s.sram[s.flash[s.pc + 1]], s.flash[s.pc + 2]);
  }

  /** OR of two registers stores their bitwise OR; Z only when both are 0. */
  lemma OrRule(s: State)
    requires At(s, OpcOr) && IsReg(s.flash[s.pc + 1]) && IsReg(s.flash[s.pc + 2])
    ensures var a, b := s.flash[s.pc + 1], s.flash[s.pc + 2];
            var x, y := s.sram[a], s.sram[b];
            var v := Bits.BitOp(Bits.Or, x, y);
            v < 0x100 &&
            Step(s) == Next(s.(sram := s.sram[a := v], z := x == 0 && y == 0, n := v >= 0x80,
                               pc := s.pc + 3))
  {
    OrValue(s.sram[s.flash[s.pc + 1]], s.sram[s.flash[s.pc + 2]]);
    Bits.ModSmall(s.sram[s.flash[s.pc + 2]], 0x100);
  }

  /** ORI with a 16-bit immediate: the register gets the OR with the
      immediate's low byte, but Z sees the whole immediate, so it is set
      only when the register and the immediate are both 0. */
  lemma OriRule(s: State)
    requires At(s, OpcOri) && IsReg(s.flash[s.pc + 1])
    ensures var a, b := s.flash[s.pc + 1], s.flash[s.pc + 2];
            var x := s.sram[a];
            var v := Bits.BitOp(Bits.Or, x, b % 0x100);
            v < 0x100 &&
            Step(s) == Next(s.(sram := s.sram[a := v], z := x == 0 && b == 0, n := v >= 0x80,
                               pc := s.pc + 3))
  {
    OrValue(s.sram[s.flash[s.pc + 1]], s.flash[s.pc + 2]);
  }

  /** ORI 0 with 0x100 stores 0 but leaves Z clear. */
  lemma OriHighByteClearsZ(s: State)
    requires At(s, OpcOri) && IsReg(s.flash[s.pc + 1])
    requires s.sram[s.flash[s.pc + 1]] == 0 && s.flash[s.pc + 2] == 0x100
    ensures Step(s).state.sram[s.flash[s.pc + 1]] == 0 && !Step(s).state.z
  {
    OriRule(s);
  }

  /** EOR of two registers stores their bitwise XOR; Z exactly when they
      were equal. */
  lemma EorRule(s: State)
    requires At(s, OpcEor) && IsReg(s.flash[s.pc + 1]) && IsReg(s.flash[s.pc + 2])
    ensures var a, b := s.flash[s.pc + 1], s.flash[s.pc + 2];
            var x, y := s.sram[a], s.sram[b];
            var v := Bits.BitOp(Bits.Xor, x, y);
            v < 0x100 &&
            Step(s) == Next(s.(sram := s.sram[a := v], z := x == y, n := v >= 0x80, pc := s.pc + 3))
  {
    XorValue(s.sram[s.flash[s.pc + 1]], s.sram[s.flash[s.pc + 2]]);
  }

  /** EOR of a register with itself clears it and sets Z. */
  lemma EorSelfSetsZ(s: State)
    requires At(s, OpcEor) && IsReg(s.flash[s.pc + 1]) && s.flash[s.pc + 2] == s.flash[s.pc + 1]
    ensures Step(s).state.sram[s.flash[s.pc + 1]] == 0 && Step(s).state.z
  {
    EorRule(s);
    Bits.XorZero(s.sram[s.flash[s.pc + 1]], s.sram[s.flash[s.pc + 1]]);
  }

  /** CP compares two registers: the flags change, Z exactly when the
      registers are equal and N from bit 7 of the byte difference, and
      nothing else besides pc does. */
  lemma CpRule(s: State)
    requires At(s, OpcCp) && IsReg(s.flash[s.pc + 1]) && IsReg(s.flash[s.pc + 2])
    ensures Step(s).Next?
    ensures var t := Step(s).state;
            var x, y := s.sram[s.flash[s.pc + 1]] as int, s.sram[s.flash[s.pc + 2]] as int;
            t == s.(z := t.z, n := t.n, pc := s.pc + 3) &&
            (t.z <==> x == y) && (t.n <==> (x - y) % 0x100 >= 0x80)
  {
    WrapLowByte(s.sram[s.flash[s.pc + 1]] as int - s.sram[s.flash[s.pc + 2]]);
  }

  /** CPI compares a register with an immediate in the same way. */
  lemma CpiRule(s: State)
    requires At(s, OpcCpi) && IsReg(s.flash[s.pc + 1])
    ensures Step(s).Next?
    ensures var t := Step(s).state;
            var x, y := s.sram[s.flash[s.pc + 1]] as int, s.flash[s.pc + 2] as int;
            t == s.(z := t.z, n := t.n, pc := s.pc + 3) &&
            (t.z <==> x == y) && (t.n <==> (x - y) % 0x100 >= 0x80)
  {
    WrapLowByte(s.sram[s.flash[s.pc + 1]] as int - s.flash[s.pc + 2]);
  }

  /** The byte SWAP stores: the two nibbles exchanged. */
  lemma SwapNibbles(x: byte)
    ensures Lo(x / 0x10 + x * 0x10) == (x % 0x10) * 0x10 + x / 0x10
  {
    var hi, lo := x / 0x10, x % 0x10;
    var r := lo * 0x10 + hi;
    assert 0 <= r < 0x100;
    calc {
      x / 0x10 + x * 0x10;
      { assert x == hi * 0x10 + lo; }
      hi + (hi * 0x10 + lo) * 0x10;
      hi * 0x100 + r;
    }
    ModAfterMultiple(hi, r);
  }

  lemma ModAfterMultiple(q: nat, r: nat)
    requires r < 0x100
    ensures (q * 0x100 + r) % 0x100 == r
  {
  }

  /** The nibbles of `lo * 16 + hi` are `lo` (high) and `hi` (low). */
  lemma NibbleParts(hi: nat, lo: nat)
    requires hi < 0x10 && lo < 0x10
    ensures (lo * 0x10 + hi) % 0x10 == hi && (lo * 0x10 + hi) / 0x10 == lo
  {
  }

  /** SWAP exchanges the nibbles of the register and changes no flag. */
  lemma SwapRule(s: State)
    requires At(s, OpcSwap) && IsReg(s.flash[s.pc + 1])
    ensures var a := s.flash[s.pc + 1]; var x := s.sram[a];
            Step(s) == Next(s.(sram := s.sram[a := (x % 0x10) * 0x10 + x / 0x10], pc := s.pc + 2))
  {
    SwapNibbles(s.sram[s.flash[s.pc + 1]]);
  }

  /** SWAP's stored byte is C's `(v >> 4) | (v << 4)` converted to `byte`:
      the two shifted copies share no bit. */
  lemma SwapIsOr(a: word, t: State)
    requires ValidState(t) && IsReg(a)
    ensures var v := t.sram[a];
            SwapStep(a, t) == t.(sram := t.sram[a := Lo(Bits.BitOp(Bits.Or, v / 0x10, v as int * 0x10))])
  {
    Bits.Pow2Values();
    Bits.OrDisjoint(t.sram[a] / 0x10, t.sram[a] as int * 0x10, 4);
  }

  /** Exchanging the nibbles of a byte twice gives the byte back. */
  lemma NibblesTwice(x: byte)
    ensures var y := (x % 0x10) * 0x10 + x / 0x10; (y % 0x10) * 0x10 + y / 0x10 == x
  {
    NibbleParts(x / 0x10, x % 0x10);
  }

  /** Two SWAPs of the same register restore it. */
  lemma SwapTwiceRestores(s: State)
    requires At(s, OpcSwap) && IsReg(s.flash[s.pc + 1])
    requires s.pc + 3 < MaxFlash && s.flash[s.pc + 2] == OpcSwap && s.flash[s.pc + 3] == s.flash[s.pc + 1]
    ensures Step(s).Next? && Step(s).state.pc == s.pc + 2
    ensures Step(Step(s).state) == Next(s.(pc := s.pc + 4))
  {
    var a := s.flash[s.pc + 1];
    var x := s.sram[a];
    var y := (x % 0x10) * 0x10 + x / 0x10;
    var t := s.(sram := s.sram[a := y], pc := s.pc + 2);
    SwapRule(s);
    assert Step(s) == Next(t);
    SwapRule(t);
    NibblesTwice(x);
    assert t.sram[a := x] == s.sram;
  }

  /** MOV copies register `b` into register `a` and keeps the flags. */
  lemma MovRule(s: State)
    requires At(s, OpcMov) && IsReg(s.flash[s.pc + 1]) && IsReg(s.flash[s.pc + 2])
    ensures var a, b := s.flash[s.pc + 1], s.flash[s.pc + 2];
            Step(s) == Next(s.(sram := s.sram[a := s.sram[b]], pc := s.pc + 3))
  {
  }

  /** MOVW copies the byte pair at `b` to `a`, low byte first, so with
      overlapping pairs the second copy reads the cell just written. */
  lemma MovwRule(s: State)
    requires At(s, OpcMovw)
    requires s.flash[s.pc + 1] + 1 < MaxSram && s.flash[s.pc + 2] + 1 < MaxSram
    ensures var a, b := s.flash[s.pc + 1], s.flash[s.pc + 2];
            var m := s.sram[a := s.sram[b]];
            Step(s) == Next(s.(sram := m[a + 1 := m[b + 1]], pc := s.pc + 3))
  {
  }

  /** IN copies SRAM cell `b` into register `a` and keeps the flags. */
  lemma InRule(s: State)
    requires At(s, OpcIn) && IsReg(s.flash[s.pc + 1]) && IsSramAddr(s.flash[s.pc + 2])
    ensures var a, b := s.flash[s.pc + 1], s.flash[s.pc + 2];
            Step(s) == Next(s.(sram := s.sram[a := s.sram[b]], pc := s.pc + 3))
  {
  }

  /** OUT stores the register at the address; at the console port it also
      emits the byte, at the exit port it ends the loop (pc passes flash). */
  lemma OutRule(s: State)
    requires At(s, OpcOut) && IsSramAddr(s.flash[s.pc + 1]) && IsReg(s.flash[s.pc + 2])
    ensures var a, b := s.flash[s.pc + 1], s.flash[s.pc + 2]; var v := s.sram[b];
            Step(s) == Next(s.(sram := s.sram[a := v],
                               out := if a == PortStdio then s.out + [v] else s.out,
                               pc := if a == PortExit then MaxFlash + 1 else s.pc + 3))
  {
  }

  /** BREAK ends the run at once, changing nothing but pc. */
  lemma BreakHalts(s: State, fuel: nat)
    requires At(s, OpcBreak)
    ensures Run(s, fuel + 1) == RunResult(Halted, s.(pc := MaxFlash + 1))
  {
    var t := s.(pc := MaxFlash + 1);
    assert Step(s) == Next(t);
    RunNext(s, fuel + 1, t, fuel);
  }

  /** PUSH stores the register at SRAM[SP] and moves SP down one byte,
      wrapping below 0. */
  lemma PushRule(s: State)
    requires At(s, OpcPush) && IsReg(s.flash[s.pc + 1]) && IsSramAddr(Sp(s))
    ensures var r, sp := s.flash[s.pc + 1], Sp(s);
            var t := s.(sram := WriteWord(s.sram[sp := s.sram[r]], SpAddr, Wrap(sp as int - 1)), pc := s.pc + 2);
            Step(s) == Next(t) && Sp(t) == if sp == 0 then 0xFFFF else sp - 1
  {
    var r, sp := s.flash[s.pc + 1], Sp(s);
    ReadAfterWrite(s.sram[sp := s.sram[r]], SpAddr, Wrap(sp as int - 1));
  }

  /** POP moves SP up one byte, loads the low byte of the word there into
      the register and stores the new SP. */
  lemma PopRule(s: State)
    requires At(s, OpcPop) && IsReg(s.flash[s.pc + 1]) && Wrap(Sp(s) + 1) + 1 < MaxSram
    ensures var r, sp := s.flash[s.pc + 1], Wrap(Sp(s) + 1);
            var t := s.(sram := WriteWord(s.sram[r := s.sram[sp]], SpAddr, sp), pc := s.pc + 2);
            Step(s) == Next(t) && Sp(t) == sp
  {
    var r, sp := s.flash[s.pc + 1], Wrap(Sp(s) + 1);
    LowHigh(s.sram[sp], s.sram[sp + 1]);
    ReadAfterWrite(s.sram[r := s.sram[sp]], SpAddr, sp);
  }

  /** POP with an invalid register reads the stack but changes nothing. */
  lemma PopSkipped(s: State)
    requires At(s, OpcPop) && !IsReg(s.flash[s.pc + 1]) && Wrap(Sp(s) + 1) + 1 < MaxSram
    ensures Step(s) == Next(s.(pc := s.pc + 2))
  {
  }

  /** The SRAM effect of PUSH r at SP = sp followed by POP r2. */
  lemma PushPopMemory(m: seq<byte>, r: nat, r2: nat, sp: nat)
    requires |m| == MaxSram && r < RegEnd && r2 < RegEnd && sp + 1 < MaxSram
    requires sp == ReadWord(m, SpAddr) && sp != SpAddr && sp != SpAddr + 1
    ensures var pushed := m[sp := m[r]];
            var t := WriteWord(pushed, SpAddr, Wrap(sp - 1));
            WriteWord(t[r2 := t[sp]], SpAddr, sp) ==
              if r2 != SpAddr && r2 != SpAddr + 1 then pushed[r2 := m[r]] else pushed
  {
    var pushed := m[sp := m[r]];
    var t := WriteWord(pushed, SpAddr, Wrap(sp - 1));
    assert t[sp] == m[r];
    WriteOfRead(t[r2 := t[sp]], m, SpAddr);
    LowHigh(m[SpAddr], m[SpAddr + 1]);
  }

  /** PUSH r then POP r2, with the stack pointer not pointing into itself:
      the stack slot holds r, r2 receives r's value (unless r2 is a byte of
      the stack pointer, which the final write of SP overrides), and SP is
      back where it started. The flags are untouched. */
  lemma PushThenPop(s: State)
    requires At(s, OpcPush) && IsReg(s.flash[s.pc + 1])
    requires s.pc + 3 < MaxFlash && s.flash[s.pc + 2] == OpcPop && IsReg(s.flash[s.pc + 3])
    requires Sp(s) + 1 < MaxSram && Sp(s) != SpAddr && Sp(s) != SpAddr + 1
    ensures Step(s).Next? && Step(s).state.pc == s.pc + 2
    ensures Step(Step(s).state).Next?
    ensures var r, r2, sp := s.flash[s.pc + 1], s.flash[s.pc + 3], Sp(s);
            var pushed := s.sram[sp := s.sram[r]];
            var u := Step(Step(s).state).state;
            u == s.(sram := u.sram, pc := s.pc + 4) && Sp(u) == sp &&
            u.sram == if r2 != SpAddr && r2 != SpAddr + 1 then pushed[r2 := s.sram[r]] else pushed
  {
    var r, r2, sp := s.flash[s.pc + 1], s.flash[s.pc + 3], Sp(s);
    PushRule(s);
    var t := Step(s).state;
    assert Wrap(Sp(t) + 1) == sp;
    PopRule(t);
    PushPopMemory(s.sram, r, r2, sp);
  }

  // ---------------------------------------------------------------------
  // Faults: the accesses the C code would make outside its arrays

  /** The instruction at pc reads or writes outside flash or SRAM, judged
      from the indices emulator.c computes. */
  predicate OutOfBounds(s: State)
    requires ValidState(s) && s.pc < MaxFlash
  {
    if !OperandsInFlash(s) then true
    else
      var a := Arg(s, 1);
      var b := Arg(s, 2);
      match HandlerOf(Opcode(s))
      case Movw => IsSramAddr(a) && IsSramAddr(b) && !(a + 1 < MaxSram && b + 1 < MaxSram)
      case Push => IsReg(a) && !IsSramAddr(Sp(s))
      case Pop => !(Wrap(Sp(s) + 1) + 1 < MaxSram)
      case _ => false
  }

  /** A step faults exactly when the C code would go out of bounds, and a
      faulting step has written nothing. */
  lemma FaultIffOutOfBounds(s: State)
    requires ValidState(s) && s.pc < MaxFlash
    ensures Step(s).Faulted? <==> OutOfBounds(s)
    ensures Step(s).Faulted? ==> Step(s).state.sram == s.sram && Step(s).state.out == s.out &&
                                 Step(s).state.z == s.z && Step(s).state.n == s.n
  {
  }

  /** One step appends at most one byte to the console output. */
  lemma StepOutputAppends(s: State)
    requires ValidState(s) && s.pc < MaxFlash
    ensures var o := Step(s).state.out; s.out <= o && |o| <= |s.out| + 1
  {
    if OperandsInFlash(s) {
      DispatchFrame(Opcode(s), Arg(s, 1), Arg(s, 2), Fetched(s));
    }
  }

  // ---------------------------------------------------------------------
  // The loop

  /** The console output of a run only grows: it starts with what the
      state had written already. */
  lemma {:induction false} RunOutputExtends(s: State, fuel: nat)
    requires ValidState(s)
    ensures s.out <= Run(s, fuel).final.out
    decreases fuel
  {
    if s.pc < MaxFlash && fuel > 0 {
      StepOutputAppends(s);
      match Step(s)
      case Faulted(_, _) =>
      case Next(t) => RunOutputExtends(t, fuel - 1);
    }
  }

  /** A run stops with Halted exactly when pc is past flash; a crash or an
      exhausted budget leaves pc inside flash. */
  lemma {:induction false} HaltedIffPcPastFlash(s: State, fuel: nat)
    requires ValidState(s)
    ensures Run(s, fuel).status.Halted? <==> Run(s, fuel).final.pc >= MaxFlash
    decreases fuel
  {
    if s.pc < MaxFlash && fuel > 0 {
      match Step(s)
      case Faulted(_, _) =>
      case Next(t) => HaltedIffPcPastFlash(t, fuel - 1);
    }
  }

  /** A run that did not run out of budget ends the same with any larger
      budget. */
  lemma {:induction false} MoreFuelSameEnd(s: State, fuel: nat, more: nat)
    requires ValidState(s) && fuel <= more && !Run(s, fuel).status.OutOfFuel?
    ensures Run(s, more) == Run(s, fuel)
    decreases fuel
  {
    if s.pc < MaxFlash {
      assert fuel > 0;
      match Step(s)
      case Next(t) =>
        RunNext(s, fuel, t, fuel - 1);
        RunNext(s, more, t, more - 1);
        MoreFuelSameEnd(t, fuel - 1, more - 1);
      case Faulted(f, t) =>
        RunCrashes(s, fuel, f, t);
        RunCrashes(s, more, f, t);
    }
  }

  // ---------------------------------------------------------------------
  // e_cpu_init

  /** The initial state: SRAM (so every register and SP) zero, Z set, N
      clear, pc 0, nothing written. */
  lemma InitialState(prg: seq<word>)
    requires Loadable(prg)
    ensures var s := Initial(prg);
            ValidState(s) && s.pc == 0 && s.z && !s.n && s.out == [] && Sp(s) == 0 &&
            forall i :: 0 <= i < MaxSram ==> s.sram[i] == 0
  {
  }

  /** The loader's count from `i` is `k` when `k` is the first zero at or
      after `i`. */
  lemma {:induction false} LoadedLengthAt(prg: seq<word>, i: nat, k: nat)
    requires Loadable(prg) && i <= k < MaxFlash && k < |prg| && prg[k] == OpcBad
    requires forall j :: 0 <= j < k ==> prg[j] != OpcBad
    ensures LoadedLength(prg, i) == k
    decreases k - i
  {
    if i < k {
      LoadedLengthAt(prg, i + 1, k);
    }
  }

  /** An image with a zero at `k` and none before loads its first `k`
      words; the sentinel and every cell after it hold BAD. */
  lemma LoadStopsAtSentinel(prg: seq<word>, k: nat)
    requires k < MaxFlash && k < |prg| && prg[k] == OpcBad
    requires forall j :: 0 <= j < k ==> prg[j] != OpcBad
    ensures Loadable(prg)
    ensures Load(prg)[..k] == prg[..k]
    ensures forall i :: k <= i < MaxFlash ==> Load(prg)[i] == OpcBad
  {
    assert prg[k] in prg;
    LoadedLengthAt(prg, 0, k);
  }

  /** The loader's count from `i` is MaxFlash when there is no zero among
      the first MaxFlash words. */
  lemma {:induction false} LoadedLengthFull(prg: seq<word>, i: nat)
    requires |prg| >= MaxFlash && i <= MaxFlash
    requires forall j :: 0 <= j < MaxFlash ==> prg[j] != OpcBad
    ensures Loadable(prg) && LoadedLength(prg, i) == MaxFlash
    decreases MaxFlash - i
  {
    if i < MaxFlash {
      LoadedLengthFull(prg, i + 1);
    }
  }

  /** An image of MaxFlash or more nonzero words fills flash. */
  lemma LoadFillsFlash(prg: seq<word>)
    requires |prg| >= MaxFlash
    requires forall j :: 0 <= j < MaxFlash ==> prg[j] != OpcBad
    ensures Loadable(prg) && Load(prg) == prg[..MaxFlash]
  {
    LoadedLengthFull(prg, 0);
    assert forall i :: 0 <= i < MaxFlash ==> Load(prg)[i] == prg[..MaxFlash][i];
  }
}
