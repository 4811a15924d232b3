/** The CPU of emulator.c as an object updated in place: SRAM and flash are
    arrays, pc, the flags and the console output are fields. Every method is
    proved to do to the object what the functions of module Machine say. */
module Emulator {
  import opened Layout
  import opened Machine

  class Cpu {
    var sram: array<byte>
    var flash: array<word>
    var pc: nat
    var z: bool
    var n: bool
    /** The bytes written to the console port, in order. */
    var out: seq<byte>

    ghost predicate Valid()
      reads this
    {
      sram.Length == MaxSram && flash.Length == MaxFlash
    }

    /** The value the object stands for. */
    ghost function Abs(): State
      reads this, sram, flash
    {
      State(sram[..], flash[..], pc, z, n, out)
    }

    /** e_cpu_init: zero SRAM, copy the program up to its zero sentinel (at
        most MaxFlash words), Z set, N clear. Flash cells past the sentinel
        hold 0, the BAD opcode. */
    constructor Init(prg: seq<word>)
      requires Loadable(prg)
      ensures Valid() && fresh(sram) && fresh(flash)
      ensures Abs() == Initial(prg)
    {
      sram := new byte[MaxSram];
      flash := new word[MaxFlash](_ => OpcBad);
      pc := 0;
      out := [];
      z := true;
      n := false;
      new;
      ClearSram();
      LoadFlash(prg);
    }

    /** The first loop of e_cpu_init. */
    method ClearSram()
      requires Valid()
      modifies sram
      ensures sram[..] == seq(MaxSram, _ => 0)
    {
      var i := 0;
      while i < MaxSram
        invariant 0 <= i <= MaxSram
        invariant forall j :: 0 <= j < i ==> sram[j] == 0
      {
        sram[i] := 0;
        i := i + 1;
      }
    }

    /** The second loop of e_cpu_init, on a flash that holds only BAD words. */
    method LoadFlash(prg: seq<word>)
      requires Valid() && Loadable(prg)
      requires forall j :: 0 <= j < MaxFlash ==> flash[j] == OpcBad
      modifies flash
      ensures flash[..] == Load(prg)
    {
      ghost var k := LoadedLength(prg, 0);
      var i := 0;
      while i < MaxFlash
        invariant 0 <= i <= k
        invariant forall j :: 0 <= j < i ==> flash[j] == prg[j]
        invariant forall j :: i <= j < MaxFlash ==> flash[j] == OpcBad
      {
        if prg[i] == OpcBad {
          break;
        }
        flash[i] := prg[i];
        i := i + 1;
      }
    }

    /** e_cpu_update: the flag rule on a 16-bit result. */
    method Update(vres: word)
      modifies this`z, this`n
      ensures z == (vres == 0) && n == Bit7(vres)
    {
      z := vres == 0;
      n := Bit7(vres);
    }

    /** e_cpu_sram_read: the little-endian word at `addr`. */
    function SramRead(addr: nat): (v: word)
      reads this, sram
      requires Valid() && addr + 1 < MaxSram
      ensures v == ReadWord(sram[..], addr)
    {
      sram[addr] as int + sram[addr + 1] as int * 0x100
    }

    /** e_cpu_sram_write: store `value` little-endian at `addr`. */
    method SramWrite(addr: nat, value: word)
      requires Valid() && addr + 1 < MaxSram
      modifies sram
      ensures sram[..] == WriteWord(old(sram[..]), addr, value)
    {
      sram[addr] := value % 0x100;
      sram[addr + 1] := value / 0x100;
    }

    /** e_cpu_get_arg: advance pc, then read the operand word there. */
    method GetArg() returns (arg: word)
      requires Valid() && pc + 1 < MaxFlash
      modifies this`pc
      ensures pc == old(pc) + 1 && arg == flash[pc]
    {
      pc := pc + 1;
      arg := flash[pc];
    }

    /** LDI, ADIW, SUBI, ANDI, ORI and CPI: a register and an immediate. */
    method ExecAluImm(op: word)
      requires Valid() && pc < MaxFlash && HandlerOf(flash[pc]) == AluImm && OperandsInFlash(Abs())
      requires flash[pc] == op
      modifies this`pc, this`z, this`n, sram
      ensures Abs() == AluStep(op, Arg(old(Abs()), 1), Arg(old(Abs()), 2), Fetched(old(Abs())))
    {
      assert Arity(op) == 2;
      var va := GetArg();
      var vb := GetArg();
      if IsReg(va) {
        var vres := Alu(op, sram[va], vb, n);
        if !IsCompareOp(op) {
          sram[va] := Lo(vres);
        }
        Update(vres);
      }
    }

    /** ADD, SUB, MUL, AND, OR, EOR and CP: two registers. */
    method ExecAluReg(op: word)
      requires Valid() && pc < MaxFlash && HandlerOf(flash[pc]) == AluReg && OperandsInFlash(Abs())
      requires flash[pc] == op
      modifies this`pc, this`z, this`n, sram
      ensures Abs() == AluStep(op, Arg(old(Abs()), 1), Arg(old(Abs()), 2), Fetched(old(Abs())))
    {
      assert Arity(op) == 2;
      var va := GetArg();
      var vb := GetArg();
      ghost var t := Abs();
      assert t == Fetched(old(Abs())) && va == Arg(old(Abs()), 1) && vb == Arg(old(Abs()), 2);
      if IsReg(va) && IsReg(vb) {
        var vres := Alu(op, sram[va], sram[vb], n);
        if !IsCompareOp(op) {
          sram[va] := Lo(vres);
        }
        Update(vres);
        assert Abs() == SetFlags(if IsCompareOp(op) then t else t.(sram := t.sram[va := Lo(vres)]), vres);
      }
    }

    /** INC, DEC, NEG and ROR: one register. */
    method ExecAluUnary(op: word)
      requires Valid() && pc < MaxFlash && HandlerOf(flash[pc]) == AluUnary && OperandsInFlash(Abs())
      requires flash[pc] == op
      modifies this`pc, this`z, this`n, sram
      ensures Abs() == AluStep(op, Arg(old(Abs()), 1), Arg(old(Abs()), 2), Fetched(old(Abs())))
    {
      assert Arity(op) == 1;
      var va := GetArg();
      if IsReg(va) {
        var vres := Alu(op, sram[va], 0, n);
        sram[va] := Lo(vres);
        Update(vres);
      }
    }

    method ExecMov()
      requires Valid() && pc < MaxFlash && HandlerOf(flash[pc]) == Mov && OperandsInFlash(Abs())
      modifies this`pc, sram
      ensures Abs() == MovStep(Arg(old(Abs()), 1), Arg(old(Abs()), 2), Fetched(old(Abs())))
    {
      var va := GetArg();
      var vb := GetArg();
      if IsReg(va) && IsReg(vb) {
        sram[va] := sram[vb];
      }
    }

    method ExecMovw() returns (fault: Option<Fault>)
      requires Valid() && pc < MaxFlash && HandlerOf(flash[pc]) == Movw && OperandsInFlash(Abs())
      modifies this`pc, sram
      ensures Pack(fault, Abs()) == MovwStep(Arg(old(Abs()), 1), Arg(old(Abs()), 2), Fetched(old(Abs())))
    {
      var va := GetArg();
      var vb := GetArg();
      fault := None;
      if IsSramAddr(va) && IsSramAddr(vb) {
        if va + 1 == MaxSram {
          return Some(WordOutsideSram(va));
        }
        if vb + 1 == MaxSram {
          return Some(WordOutsideSram(vb));
        }
        sram[va] := sram[vb];
        sram[va + 1] := sram[vb + 1];
      }
    }

    method ExecPush() returns (fault: Option<Fault>)
      requires Valid() && pc < MaxFlash && HandlerOf(flash[pc]) == Push && OperandsInFlash(Abs())
      modifies this`pc, sram
      ensures Pack(fault, Abs()) == PushStep(Arg(old(Abs()), 1), Fetched(old(Abs())))
    {
      var va := GetArg();
      var vb := SramRead(SpAddr);
      fault := None;
      if IsReg(va) {
        if vb >= MaxSram {
          return Some(StackOutsideSram(vb));
        }
        sram[vb] := sram[va];
        vb := Wrap(vb - 1);
        SramWrite(SpAddr, vb);
      }
    }

    method ExecPop() returns (fault: Option<Fault>)
      requires Valid() && pc < MaxFlash && HandlerOf(flash[pc]) == Pop && OperandsInFlash(Abs())
      modifies this`pc, sram
      ensures Pack(fault, Abs()) == PopStep(Arg(old(Abs()), 1), Fetched(old(Abs())))
    {
      var va := GetArg();
      var vb := SramRead(SpAddr);
      vb := Wrap(vb + 1);
      if vb + 1 >= MaxSram {
        return Some(StackOutsideSram(vb));
      }
      var vc := SramRead(vb);
      fault := None;
      if IsReg(va) {
        sram[va] := Lo(vc);
        SramWrite(SpAddr, vb);
      }
    }

    method ExecSwap()
      requires Valid() && pc < MaxFlash && HandlerOf(flash[pc]) == Swap && OperandsInFlash(Abs())
      modifies this`pc, sram
      ensures Abs() == SwapStep(Arg(old(Abs()), 1), Fetched(old(Abs())))
    {
      var va := GetArg();
      if IsReg(va) {
        var vb: word := sram[va];
        sram[va] := Lo(vb / 0x10 + vb * 0x10);
      }
    }

    /** JZ and JE (`whenZero`), JNE (not `whenZero`). */
    method ExecJump(whenZero: bool)
      requires Valid() && pc < MaxFlash && OperandsInFlash(Abs())
      requires HandlerOf(flash[pc]) == if whenZero then JumpIfZero else JumpIfNotZero
      modifies this`pc
      ensures Abs() == JumpStep(whenZero, Arg(old(Abs()), 1), Fetched(old(Abs())))
    {
      var va := GetArg();
      if z == whenZero {
        pc := va;
      }
    }

    method ExecOut()
      requires Valid() && pc < MaxFlash && HandlerOf(flash[pc]) == Out && OperandsInFlash(Abs())
      modifies this`pc, this`out, sram
      ensures Abs() == OutStep(Arg(old(Abs()), 1), Arg(old(Abs()), 2), Fetched(old(Abs())))
    {
      var va := GetArg();
      var vb := GetArg();
      if IsSramAddr(va) && IsReg(vb) {
        var vres := sram[vb];
        sram[va] := vres;
        if va == PortStdio {
          out := out + [vres];
        } else if va == PortExit {
          pc := MaxFlash;
        }
      }
    }

    method ExecIn()
      requires Valid() && pc < MaxFlash && HandlerOf(flash[pc]) == In && OperandsInFlash(Abs())
      modifies this`pc, sram
      ensures Abs() == InStep(Arg(old(Abs()), 1), Arg(old(Abs()), 2), Fetched(old(Abs())))
    {
      var va := GetArg();
      var vb := GetArg();
      if IsReg(va) && IsSramAddr(vb) {
        sram[va] := sram[vb];
      }
    }

    /** One pass through the body of the loop in e_cpu_exec, without the
        loop's own increment: decode the word at pc and run its case. */
    method Execute() returns (fault: Option<Fault>)
      requires Valid() && pc < MaxFlash
      modifies this`pc, this`z, this`n, this`out, sram
      ensures Pack(fault, Abs()) == Machine.Execute(old(Abs()))
    {
      var op := Decode(flash[pc]);
      if pc + Arity(op) >= MaxFlash {
        return Some(OperandPastFlash(pc));
      }
      fault := None;
      match HandlerOf(op)
      case AluImm => ExecAluImm(op);
      case AluReg => ExecAluReg(op);
      case AluUnary => ExecAluUnary(op);
      case Mov => ExecMov();
      case Movw => fault := ExecMovw();
      case Push => fault := ExecPush();
      case Pop => fault := ExecPop();
      case Swap => ExecSwap();
      case JumpIfZero => ExecJump(true);
      case JumpIfNotZero => ExecJump(false);
      case Break => pc := MaxFlash;
      case Nop =>
      case Out => ExecOut();
      case In => ExecIn();
      case Unknown =>  // BAD, END and unlisted values: a diagnostic only
    }

    /** One iteration of the loop in e_cpu_exec: the switch, then pc++. */
    method Cycle() returns (fault: Option<Fault>)
      requires Valid() && pc < MaxFlash
      modifies this`pc, this`z, this`n, this`out, sram
      ensures Pack(fault, Abs()) == Step(old(Abs()))
    {
      fault := Execute();
      if fault.None? {
        pc := pc + 1;
      }
    }

    /** e_cpu_exec: the fetch/dispatch loop from pc = 0 until pc reaches
        MaxFlash, bounded here by `fuel` iterations. */
    method Exec(fuel: nat) returns (status: Status)
      requires Valid()
      modifies this`pc, this`z, this`n, this`out, sram
      ensures Valid()
      ensures RunResult(status, Abs()) == Machine.Run(old(Abs()).(pc := 0), fuel)
    {
      pc := 0;
      ghost var result := Machine.Run(Abs(), fuel);
      var left: nat := fuel;
      while pc < MaxFlash
        invariant Valid()
        invariant Machine.Run(Abs(), left) == result
        decreases left
      {
        if left == 0 {
          return OutOfFuel;
        }
        ghost var before := Abs();
        var fault := Cycle();
        if fault.Some? {
          return Crashed(fault.value);
        }
        ghost var prev := left;
        left := left - 1;
        RunNext(before, prev, Abs(), left);
      }
      status := Halted;
    }
  }

  /** e_run: initialise a fresh CPU with the program, run the loop, and
      report how it ended and what it wrote to the console. */
  method Run(prg: seq<word>, fuel: nat) returns (status: Status, out: seq<byte>)
    requires Loadable(prg)
    ensures status == RunImage(prg, fuel).status
    ensures out == RunImage(prg, fuel).final.out
  {
    var cpu := new Cpu.Init(prg);
    status := cpu.Exec(fuel);
    out := cpu.out;
  }
}
