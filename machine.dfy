/** The execution engine of emulator.c stated on values: one CPU state, what
    one pass of the fetch/dispatch loop does to it, and what the loop does
    from pc = 0. The class in emulator.dfy is proved against these functions. */
module Machine {
  import opened Layout

  datatype Option<T> = None | Some(value: T)

  /** Everything the engine reads or writes: SRAM (registers first), flash,
      the program counter, the Z and N flags, and the bytes written to the
      console port so far. */
  datatype State = State(
    sram: seq<byte>,
    flash: seq<word>,
    pc: nat,
    z: bool,
    n: bool,
    out: seq<byte>)

  predicate ValidState(s: State) {
    |s.sram| == MaxSram && |s.flash| == MaxFlash
  }

  /** Accesses the C program would make out of bounds. The model stops with
      one of these instead of reading or writing past an array. */
  datatype Fault =
    | OperandPastFlash(at: nat)      // an operand fetch beyond flash[127]
    | StackOutsideSram(sp: word)     // PUSH/POP touching SRAM at or above 512
    | WordOutsideSram(addr: word)    // MOVW touching SRAM index 512

  /** What one instruction does: a new state, or a fault detected at a state
      in which the operands have been fetched and nothing has been written. */
  datatype StepResult = Next(state: State) | Faulted(fault: Fault, state: State)

  /** A state and an optional fault as one step result. */
  function Pack(f: Option<Fault>, s: State): (r: StepResult)
    ensures r.state == s && (r.Faulted? <==> f.Some?)
    ensures r.Faulted? ==> r.fault == f.value
  {
    if f.Some? then Faulted(f.value, s) else Next(s)
  }

  // ---------------------------------------------------------------------
  // Memory model

  /** Little-endian 16-bit read: low byte at `addr`, high byte at `addr + 1`. */
  function ReadWord(sram: seq<byte>, addr: nat): (w: word)
    requires addr + 1 < |sram|
  {
    // C's `sram[addr] | (sram[addr + 1] << 8)`; the two bytes occupy
    // disjoint bits, so the OR is this sum (Properties.ReadWordIsOr)
    sram[addr] as int + sram[addr + 1] as int * 0x100
  }

  /** Little-endian 16-bit write. */
  function WriteWord(sram: seq<byte>, addr: nat, value: word): (r: seq<byte>)
    requires addr + 1 < |sram|
    ensures |r| == |sram|
    ensures forall i :: 0 <= i < |sram| && i != addr && i != addr + 1 ==> r[i] == sram[i]
  {
    sram[addr := value % 0x100][addr + 1 := value / 0x100]
  }

  /** The stack pointer: the word at RSP. */
  function Sp(s: State): (sp: word)
    requires ValidState(s)
  {
    ReadWord(s.sram, SpAddr)
  }

  // ---------------------------------------------------------------------
  // Status flags

  /** Bit 7 of a (16-bit) result: `v & 0x80` is nonzero. */
  predicate Bit7(v: word) {
    (v / 0x80) % 2 == 1
  }

  /** The flag rule: Z says the 16-bit result is 0, N says its bit 7 is set. */
  function SetFlags(s: State, v: word): (t: State)
    ensures t.z <==> v == 0
    ensures t.n <==> Bit7(v)
    ensures t.sram == s.sram && t.flash == s.flash && t.pc == s.pc && t.out == s.out
  {
    s.(z := v == 0, n := Bit7(v))
  }

  // ---------------------------------------------------------------------
  // Decoding

  /** The decode stage passes the opcode word through unchanged. */
  function Decode(opcode: word): (op: word)
    ensures op == opcode
  {
    opcode
  }

  /** ALU opcodes with a register and an immediate operand. */
  predicate IsImmAluOp(op: word) {
    op == OpcLdi || op == OpcAdiw || op == OpcSubi || op == OpcAndi || op == OpcOri ||
    op == OpcCpi
  }

  /** ALU opcodes with two register operands. */
  predicate IsRegAluOp(op: word) {
    op == OpcAdd || op == OpcSub || op == OpcMul || op == OpcAnd || op == OpcOr ||
    op == OpcEor || op == OpcCp
  }

  /** ALU opcodes with one register operand. */
  predicate IsUnaryAluOp(op: word) {
    op == OpcInc || op == OpcDec || op == OpcNeg || op == OpcRor
  }

  /** Opcodes whose result goes through the ALU and the flag rule. */
  predicate IsAluOp(op: word) {
    IsImmAluOp(op) || IsRegAluOp(op) || IsUnaryAluOp(op)
  }

  /** The compare opcodes: flags only, no write-back. */
  predicate IsCompareOp(op: word) {
    op == OpcCpi || op == OpcCp
  }

  /** The case groups of the switch in e_cpu_exec. JE and JZ share one
      case; NOP, BAD and every unlisted value change nothing. */
  datatype Handler =
    | AluImm | AluReg | AluUnary
    | Mov | Movw | Push | Pop | Swap
    | JumpIfZero | JumpIfNotZero | Break | Nop | Out | In
    | Unknown

  /** The case an opcode selects. */
  function HandlerOf(op: word): (h: Handler)
  {
    if IsImmAluOp(op) then AluImm
    else if IsRegAluOp(op) then AluReg
    else if IsUnaryAluOp(op) then AluUnary
    else if op == OpcMov then Mov
    else if op == OpcMovw then Movw
    else if op == OpcPush then Push
    else if op == OpcPop then Pop
    else if op == OpcSwap then Swap
    else if op == OpcJz || op == OpcJe then JumpIfZero
    else if op == OpcJne then JumpIfNotZero
    else if op == OpcBreak then Break
    else if op == OpcNop then Nop
    else if op == OpcOut then Out
    else if op == OpcIn then In
    else Unknown
  }

  /** How many operand words follow the opcode word in flash. */
  function Arity(op: word): (k: nat)
    ensures k <= 2
  {
    match HandlerOf(op)
    case AluImm | AluReg | Mov | Movw | Out | In => 2
    case AluUnary | Push | Pop | Swap | JumpIfZero | JumpIfNotZero => 1
    case Break | Nop | Unknown => 0
  }

  // ---------------------------------------------------------------------
  // Instruction semantics. `a` and `b` are the operand words as fetched,
  // `t` the state with pc already advanced over them.

  /** The 16-bit result the ALU computes for register value `x`, second
      operand `y` (an immediate, or a register value zero-extended) and the
      current N flag. */
  function Alu(op: word, x: byte, y: word, nflag: bool): (v: word)
    requires IsAluOp(op)
  {
    if op == OpcLdi then y
    else if op == OpcAdiw || op == OpcAdd then Wrap(x + y)
    else if op == OpcSubi || op == OpcSub || op == OpcCpi || op == OpcCp then Wrap(x - y)
    else if op == OpcMul then Wrap(x * y)
    else if op == OpcInc then Wrap(x + 1)
    else if op == OpcDec then Wrap(x - 1)
    else if op == OpcNeg then Wrap(-(x as int))
    // C's `(x >> 1) | (N << 7)`: x >> 1 is below 0x80, so the OR adds
    // bit 7 (Properties.RorIsOr)
    else if op == OpcRor then x / 2 + (if nflag then 0x80 else 0)
    else if op == OpcAndi || op == OpcAnd then And16(x, y)
    else if op == OpcOri || op == OpcOr then Or16(x, y)
    else Xor16(x, y)
  }

  /** LDI and the arithmetic, logic and compare instructions. */
  function AluStep(op: word, a: word, b: word, t: State): (r: State)
    requires ValidState(t) && IsAluOp(op)
    ensures ValidState(r) && r.flash == t.flash
  {
    if !IsReg(a) || (IsRegAluOp(op) && !IsReg(b)) then t
    else
      var y := if IsRegAluOp(op) then t.sram[b] else b;
      var v := Alu(op, t.sram[a], y, t.n);
      var t1 := if IsCompareOp(op) then t else t.(sram := t.sram[a := Lo(v)]);
      SetFlags(t1, v)
  }

  function MovStep(a: word, b: word, t: State): (r: State)
    requires ValidState(t)
    ensures ValidState(r) && r.flash == t.flash
  {
    if IsReg(a) && IsReg(b) then t.(sram := t.sram[a := t.sram[b]]) else t
  }

  /** MOVW copies two bytes, the low one first; an address of 511 makes the
      second copy touch index 512. */
  function MovwStep(a: word, b: word, t: State): (r: StepResult)
    requires ValidState(t)
    ensures ValidState(r.state) && r.state.flash == t.flash
  {
    if !(IsSramAddr(a) && IsSramAddr(b)) then Next(t)
    else if a + 1 == MaxSram then Faulted(WordOutsideSram(a), t)
    else if b + 1 == MaxSram then Faulted(WordOutsideSram(b), t)
    else
      var m := t.sram[a := t.sram[b]];
      Next(t.(sram := m[a + 1 := m[b + 1]]))
  }

  /** PUSH stores the register at SRAM[SP] and then decrements SP (mod 2^16). */
  function PushStep(a: word, t: State): (r: StepResult)
    requires ValidState(t)
    ensures ValidState(r.state) && r.state.flash == t.flash
  {
    var sp := Sp(t);
    if !IsReg(a) then Next(t)
    else if sp >= MaxSram then Faulted(StackOutsideSram(sp), t)
    else Next(t.(sram := WriteWord(t.sram[sp := t.sram[a]], SpAddr, Wrap(sp - 1))))
  }

  /** POP increments SP (mod 2^16), reads the word there (whatever the
      register operand), stores its low byte into the register and writes SP back. */
  function PopStep(a: word, t: State): (r: StepResult)
    requires ValidState(t)
    ensures ValidState(r.state) && r.state.flash == t.flash
  {
    var sp := Wrap(Sp(t) + 1);
    if sp + 1 >= MaxSram then Faulted(StackOutsideSram(sp), t)
    else
      var v := ReadWord(t.sram, sp);
      if !IsReg(a) then Next(t)
      else Next(t.(sram := WriteWord(t.sram[a := Lo(v)], SpAddr, sp)))
  }

  /** SWAP stores the low byte of `(v >> 4) | (v << 4)`; no flags. The two
      shifted halves share no bit, so the OR is a sum (Properties.SwapIsOr). */
  function SwapStep(a: word, t: State): (r: State)
    requires ValidState(t)
    ensures ValidState(r) && r.flash == t.flash
  {
    if !IsReg(a) then t
    else
      var v := t.sram[a];
      t.(sram := t.sram[a := Lo(v as int / 0x10 + v as int * 0x10)])
  }

  /** JZ/JE (`whenZero`) jump when Z is set, JNE when it is clear; the jump
      sets pc to the target, the loop's increment then applies. */
  function JumpStep(whenZero: bool, a: word, t: State): (r: State)
    ensures r == t.(pc := r.pc)
  {
    if t.z == whenZero then t.(pc := a) else t
  }

  /** OUT stores the register at the address; the console port also emits
      the byte, the exit port ends the run. */
  function OutStep(a: word, b: word, t: State): (r: State)
    requires ValidState(t)
    ensures ValidState(r) && r.flash == t.flash
  {
    if !(IsSramAddr(a) && IsReg(b)) then t
    else
      var v := t.sram[b];
      var t1 := t.(sram := t.sram[a := v]);
      if a == PortStdio then t1.(out := t1.out + [v])
      else if a == PortExit then t1.(pc := MaxFlash)
      else t1
  }

  function InStep(a: word, b: word, t: State): (r: State)
    requires ValidState(t)
    ensures ValidState(r) && r.flash == t.flash
  {
    if IsReg(a) && IsSramAddr(b) then t.(sram := t.sram[a := t.sram[b]]) else t
  }

  /** The switch of the fetch/dispatch loop on opcode `op`, given its
      operand words `a` and `b` and the state `t` with pc on the last of them. */
  function Dispatch(op: word, a: word, b: word, t: State): (r: StepResult)
    requires ValidState(t)
    ensures ValidState(r.state) && r.state.flash == t.flash
    ensures r.Faulted? ==> r.state == t
  {
    match HandlerOf(op)
    case AluImm | AluReg | AluUnary => Next(AluStep(op, a, b, t))
    case Mov => Next(MovStep(a, b, t))
    case Movw => MovwStep(a, b, t)
    case Push => PushStep(a, t)
    case Pop => PopStep(a, t)
    case Swap => Next(SwapStep(a, t))
    case JumpIfZero => Next(JumpStep(true, a, t))
    case JumpIfNotZero => Next(JumpStep(false, a, t))
    case Break => Next(t.(pc := MaxFlash))
    case Nop => Next(t)
    case Out => Next(OutStep(a, b, t))
    case In => Next(InStep(a, b, t))
    case Unknown => Next(t)  // BAD, END and unlisted values: a diagnostic only
  }

  /** The opcode at pc. */
  function Opcode(s: State): (op: word)
    requires ValidState(s) && s.pc < MaxFlash
  {
    Decode(s.flash[s.pc])
  }

  /** Whether the operand words of the instruction at pc lie inside flash. */
  predicate OperandsInFlash(s: State)
    requires ValidState(s) && s.pc < MaxFlash
  {
    s.pc + Arity(Opcode(s)) < MaxFlash
  }

  /** Operand word `i` (1 or 2) of the instruction at pc, 0 if it has fewer. */
  function Arg(s: State, i: nat): (w: word)
    requires ValidState(s) && s.pc < MaxFlash && OperandsInFlash(s)
  {
    if 1 <= i <= Arity(Opcode(s)) then s.flash[s.pc + i] else 0
  }

  /** The state once the operands have been fetched: pc on the last of them. */
  function Fetched(s: State): (t: State)
    requires ValidState(s) && s.pc < MaxFlash
    ensures ValidState(t)
  {
    s.(pc := s.pc + Arity(Opcode(s)))
  }

  /** One execution of the switch in the fetch/dispatch loop: the instruction
      at pc runs, pc is left on its last operand word (or on the jump target). */
  function Execute(s: State): (r: StepResult)
    requires ValidState(s) && s.pc < MaxFlash
    ensures ValidState(r.state) && r.state.flash == s.flash
    ensures r.Faulted? ==> r.state.pc < MaxFlash && r.state == s.(pc := r.state.pc)
  {
    if !OperandsInFlash(s) then Faulted(OperandPastFlash(s.pc), s)
    else Dispatch(Opcode(s), Arg(s, 1), Arg(s, 2), Fetched(s))
  }

  /** One iteration of the loop: execute, then the loop's own pc increment. */
  function Step(s: State): (r: StepResult)
    requires ValidState(s) && s.pc < MaxFlash
    ensures ValidState(r.state) && r.state.flash == s.flash
    ensures r.Faulted? ==> r.state.pc < MaxFlash && r.state == s.(pc := r.state.pc)
  {
    match Execute(s)
    case Next(t) => Next(t.(pc := t.pc + 1))
    case Faulted(f, t) => Faulted(f, t)
  }

  // ---------------------------------------------------------------------
  // The loop

  /** How a bounded run ended: pc reached the end of flash, a fault, or the
      step budget ran out first. */
  datatype Status = Halted | Crashed(fault: Fault) | OutOfFuel
  datatype RunResult = RunResult(status: Status, final: State)

  /** At most `fuel` iterations of the loop from state `s`. */
  function Run(s: State, fuel: nat): (r: RunResult)
    requires ValidState(s)
    ensures ValidState(r.final) && r.final.flash == s.flash
    decreases fuel, 1
  {
    if s.pc >= MaxFlash then RunResult(Halted, s)
    else if fuel == 0 then RunResult(OutOfFuel, s)
    else Continue(s, fuel)
  }

  /** One iteration from `s` with budget left, then the rest of the run. */
  function Continue(s: State, fuel: nat): (r: RunResult)
    requires ValidState(s) && s.pc < MaxFlash && fuel > 0
    ensures ValidState(r.final) && r.final.flash == s.flash
    decreases fuel, 0
  {
    match Step(s)
    case Faulted(f, t) => RunResult(Crashed(f), t)
    case Next(t) => Run(t, fuel - 1)
  }

  /** A run that does not stop at `s` goes on from the state after one step. */
  lemma RunNext(s: State, fuel: nat, t: State, rest: nat)
    requires ValidState(s) && s.pc < MaxFlash && fuel == rest + 1
    requires Step(s) == Next(t)
    ensures Run(s, fuel) == Run(t, rest)
  {
  }

  /** A step that faults ends the run there, whatever budget is left. */
  lemma RunCrashes(s: State, fuel: nat, f: Fault, t: State)
    requires ValidState(s) && s.pc < MaxFlash && fuel > 0
    requires Step(s) == Faulted(f, t)
    ensures Run(s, fuel) == RunResult(Crashed(f), t)
  {
  }

  // ---------------------------------------------------------------------
  // Loading

  /** A program image the loader can read without running past its end:
      it holds a full flash of words, or a zero sentinel. */
  predicate Loadable(prg: seq<word>) {
    |prg| >= MaxFlash || OpcBad in prg
  }

  /** The number of words loaded from index `i` on: loading stops at the
      first zero word or after MaxFlash words. */
  function LoadedLength(prg: seq<word>, i: nat): (k: nat)
    requires Loadable(prg) && i <= MaxFlash && i <= |prg|
    requires forall j :: 0 <= j < i ==> prg[j] != OpcBad
    ensures i <= k <= MaxFlash && k <= |prg|
    ensures forall j :: 0 <= j < k ==> prg[j] != OpcBad
    ensures k < MaxFlash ==> k < |prg| && prg[k] == OpcBad
    decreases MaxFlash - i
  {
    if i == MaxFlash then i
    else if i == |prg| then
      assert false; i
    else if prg[i] == OpcBad then i
    else LoadedLength(prg, i + 1)
  }

  /** Flash after loading: the words before the sentinel, then zeros. */
  function Load(prg: seq<word>): (f: seq<word>)
    requires Loadable(prg)
    ensures |f| == MaxFlash
  {
    var k := LoadedLength(prg, 0);
    seq(MaxFlash, i requires 0 <= i < MaxFlash => if i < k then prg[i] else OpcBad)
  }

  /** The state after initialisation. */
  function Initial(prg: seq<word>): (s: State)
    requires Loadable(prg)
    ensures ValidState(s) && s.flash == Load(prg)
  {
    State(seq(MaxSram, _ => 0), Load(prg), 0, true, false, [])
  }

  /** Loading a program and running the loop from pc = 0. */
  function RunImage(prg: seq<word>, fuel: nat): (r: RunResult)
    requires Loadable(prg)
    ensures ValidState(r.final) && r.final.flash == Load(prg)
  {
    Run(Initial(prg), fuel)
  }
}
