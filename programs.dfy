/** The two test programs of emulator.c (e_tst_tst and e_tst_counter) as
    program images, and what running them does. */
module Programs {
  import opened Layout
  import opened Machine
  import opened Properties
  import Emulator

  /** Flash of MaxFlash words that begins with `code`. */
  predicate Holds(flash: seq<word>, code: seq<word>) {
    |flash| == MaxFlash && |code| <= MaxFlash && forall i :: 0 <= i < |code| ==> flash[i] == code[i]
  }

  /** Loading code without a zero word followed by the zero sentinel puts
      the code at the start of flash and BAD in every cell after it. */
  lemma LoadsCode(code: seq<word>)
    requires |code| < MaxFlash && OpcBad !in code
    ensures Loadable(code + [OpcBad])
    ensures Holds(Load(code + [OpcBad]), code)
    ensures forall i :: |code| <= i < MaxFlash ==> Load(code + [OpcBad])[i] == OpcBad
  {
    var prg := code + [OpcBad];
    var k := |code|;
    forall j | 0 <= j < k
      ensures prg[j] != OpcBad
    {
      assert prg[j] == code[j] && code[j] in code;
    }
    LoadStopsAtSentinel(prg, k);
    var flash := Load(prg);
    forall i | 0 <= i < k
      ensures flash[i] == code[i]
    {
      assert flash[..k][i] == prg[..k][i];
    }
  }

  // ---------------------------------------------------------------------
  // e_tst_tst

  /** e_tst_tst: load 128 into R8, print it, rotate it right, print it,
      then write R8 to the exit port. The image ends with its zero sentinel. */
  const TstCode: seq<word> :=
    [OpcLdi, RegR8, 128] +
    [OpcOut, PortStdio, RegR8] +
    [OpcRor, RegR8] +
    [OpcOut, PortStdio, RegR8] +
    [OpcOut, PortExit, RegR8]

  const TstProgram: seq<word> := TstCode + [OpcBad]

  /** The state of the tst program after its first `k` instructions, on
      a flash image `flash` that holds the program. */
  function TstAfter(flash: seq<word>, k: nat): (s: State)
    requires |flash| == MaxFlash && k <= 5
    ensures ValidState(s) && s.flash == flash
  {
    var zero := seq(MaxSram, _ => 0);
    var r1 := zero[RegR8 := 128];
    var r2 := r1[PortStdio := 128];
    var r3 := r2[RegR8 := 192];
    var r4 := r3[PortStdio := 192];
    if k == 0 then State(zero, flash, 0, true, false, [])
    else if k == 1 then State(r1, flash, 3, false, true, [])
    else if k == 2 then State(r2, flash, 6, false, true, [128])
    else if k == 3 then State(r3, flash, 8, false, true, [128])
    else if k == 4 then State(r4, flash, 11, false, true, [128, 192])
    else State(r4[PortExit := 192], flash, MaxFlash + 1, false, true, [128, 192])
  }

  /** Each instruction of the tst program takes TstAfter(k) to TstAfter(k + 1). */
  lemma TstStep(flash: seq<word>, k: nat)
    requires Holds(flash, TstCode) && k < 5
    ensures TstAfter(flash, k).pc < MaxFlash
    ensures Step(TstAfter(flash, k)) == Next(TstAfter(flash, k + 1))
  {
    var s := TstAfter(flash, k);
    assert flash[s.pc] == TstCode[s.pc] && flash[s.pc + 1] == TstCode[s.pc + 1];
    assert s.pc + 2 < |TstCode| ==> flash[s.pc + 2] == TstCode[s.pc + 2];
    if k == 0 {
      LdiRule(s);
    } else if k == 1 {
      OutRule(s);
    } else if k == 2 {
      RorRule(s);
    } else if k == 3 {
      OutRule(s);
    } else {
      OutRule(s);
    }
  }

  /** From TstAfter(k), any budget of at least the remaining 5 - k
      iterations ends the run. */
  lemma {:induction false} TstRunsFrom(flash: seq<word>, k: nat, fuel: nat)
    requires Holds(flash, TstCode) && k <= 5 && fuel >= 5 - k
    ensures Run(TstAfter(flash, k), fuel) == RunResult(Halted, TstAfter(flash, 5))
    decreases 5 - k
  {
    if k < 5 {
      TstStep(flash, k);
      TstRunsFrom(flash, k + 1, fuel - 1);
      RunNext(TstAfter(flash, k), fuel, TstAfter(flash, k + 1), fuel - 1);
    }
  }

  /** e_tst_tst prints 128 and then 192 and halts: LDI 128 sets N, so ROR
      fills bit 7 of 128 >> 1 = 64 with a one. Five loop iterations suffice,
      and any larger budget ends the same. */
  lemma TstPrints(fuel: nat)
    requires fuel >= 5
    ensures Loadable(TstProgram)
    ensures RunImage(TstProgram, fuel).status == Halted
    ensures RunImage(TstProgram, fuel).final.out == [128, 192]
  {
    LoadsCode(TstCode);
    var flash := Load(TstProgram);
    assert Initial(TstProgram) == TstAfter(flash, 0);
    TstRunsFrom(flash, 0, fuel);
  }

  /** e_tst_tst: run the tst program on a fresh CPU. */
  method TstTst() returns (status: Status, out: seq<byte>)
    ensures status == Halted && out == [128, 192]
  {
    TstPrints(5);
    status, out := Emulator.Run(TstProgram, 5);
  }

  // ---------------------------------------------------------------------
  // e_tst_counter

  /** The five loads, the first DEC of R9 and the OUT that prints it. */
  const CounterStart: seq<word> :=
    [OpcLdi, RegR8, 20] +
    [OpcLdi, RegR9, 130] +
    [OpcLdi, RegR10, 255] +
    [OpcLdi, RegR11, 255] +
    [OpcLdi, RegR12, 255] +
    [OpcDec, RegR9] +
    [OpcOut, PortStdio, RegR9]

  /** The three inner countdowns, the outer test and the final exit. */
  const CounterLoops: seq<word> :=
    [OpcDec, RegR10] +
    [OpcDec, RegR11] +
    [OpcDec, RegR12] +
    [OpcCp, RegR12, RegR8] +
    [OpcJne, 23] +
    [OpcLdi, RegR12, 255] +
    [OpcCp, RegR11, RegR8] +
    [OpcJne, 21] +
    [OpcLdi, RegR11, 255] +
    [OpcCp, RegR10, RegR8] +
    [OpcJne, 19] +
    [OpcLdi, RegR10, 255] +
    [OpcCp, RegR9, RegR8] +
    [OpcJne, 14] +
    [OpcOut, PortExit, RegR8]

  /** e_tst_counter: R8 holds 20 as the value each counter is compared
      with; R9 counts down from 130 and is printed on every pass of the
      outer loop; R10 .. R12 count down from 255 in nested loops. */
  const CounterCode: seq<word> := CounterStart + CounterLoops

  const CounterProgram: seq<word> := CounterCode + [OpcBad]

  /** The counter program's state after its first `k` instructions: the
      five loads, then DEC R9 and the first OUT. */
  function CounterAfter(flash: seq<word>, k: nat): (s: State)
    requires |flash| == MaxFlash && k <= 7
    ensures ValidState(s) && s.flash == flash
  {
    var zero := seq(MaxSram, _ => 0);
    var r1 := zero[RegR8 := 20];
    var r2 := r1[RegR9 := 130];
    var r3 := r2[RegR10 := 255];
    var r4 := r3[RegR11 := 255];
    var r5 := r4[RegR12 := 255];
    var r6 := r5[RegR9 := 129];
    if k == 0 then State(zero, flash, 0, true, false, [])
    else if k == 1 then State(r1, flash, 3, false, false, [])
    else if k == 2 then State(r2, flash, 6, false, true, [])
    else if k == 3 then State(r3, flash, 9, false, true, [])
    else if k == 4 then State(r4, flash, 12, false, true, [])
    else if k == 5 then State(r5, flash, 15, false, true, [])
    else if k == 6 then State(r6, flash, 17, false, true, [])
    else State(r6[PortStdio := 129], flash, 20, false, true, [129])
  }

  /** The five LDIs of the counter program. */
  lemma CounterLoadStep(flash: seq<word>, k: nat)
    requires Holds(flash, CounterStart) && k < 5
    ensures CounterAfter(flash, k).pc < MaxFlash
    ensures Step(CounterAfter(flash, k)) == Next(CounterAfter(flash, k + 1))
  {
    var s := CounterAfter(flash, k);
    assert flash[s.pc] == CounterStart[s.pc] && flash[s.pc + 1] == CounterStart[s.pc + 1];
    assert flash[s.pc + 2] == CounterStart[s.pc + 2];
    LdiRule(s);
  }

  lemma CounterStep(flash: seq<word>, k: nat)
    requires Holds(flash, CounterStart) && k < 7
    ensures CounterAfter(flash, k).pc < MaxFlash
    ensures Step(CounterAfter(flash, k)) == Next(CounterAfter(flash, k + 1))
  {
    if k < 5 {
      CounterLoadStep(flash, k);
    } else {
      var s := CounterAfter(flash, k);
      assert flash[s.pc] == CounterStart[s.pc] && flash[s.pc + 1] == CounterStart[s.pc + 1];
      if k == 5 {
        DecRule(s);
      } else {
        assert flash[s.pc + 2] == CounterStart[s.pc + 2];
        OutRule(s);
      }
    }
  }

  /** From CounterAfter(k), 7 - k iterations reach CounterAfter(7), with
      the loop still running. The budget `fuel` is always 7 - k, passed
      on its own so that the prover does not unroll a literal run. */
  lemma {:induction false} CounterRunsFrom(flash: seq<word>, k: nat, fuel: nat)
    requires Holds(flash, CounterStart) && k <= 7 && fuel == 7 - k
    ensures Run(CounterAfter(flash, k), fuel) == RunResult(OutOfFuel, CounterAfter(flash, 7))
    decreases 7 - k
  {
    if k < 7 {
      CounterStep(flash, k);
      CounterRunsFrom(flash, k + 1, fuel - 1);
      RunNext(CounterAfter(flash, k), fuel, CounterAfter(flash, k + 1), fuel - 1);
    }
  }

  /** Loading the counter program puts its opening instructions in flash. */
  lemma CounterLoads()
    ensures Loadable(CounterProgram)
    ensures Holds(Load(CounterProgram), CounterStart)
    ensures Initial(CounterProgram) == CounterAfter(Load(CounterProgram), 0)
  {
    LoadsCode(CounterCode);
    var flash := Load(CounterProgram);
    assert forall i :: 0 <= i < |CounterStart| ==> CounterStart[i] == CounterCode[i];
  }

  /** What the counter program's opening has done by CounterAfter(7). */
  lemma CounterAfterOpening(flash: seq<word>)
    requires |flash| == MaxFlash
    ensures var s := CounterAfter(flash, 7);
            s.out == [129] && s.pc == 20 &&
            s.sram[RegR8] == 20 && s.sram[RegR9] == 129 &&
            s.sram[RegR10] == 255 && s.sram[RegR11] == 255 && s.sram[RegR12] == 255
  {
  }

  /** The counter program loads R8 = 20, R9 = 130 and R10 .. R12 = 255,
      and its first output byte is 129, after seven loop iterations. The
      budget `fuel` is always 7; it is a parameter only so that the prover
      does not unroll a run over a literal budget. */
  lemma CounterStarts(fuel: nat)
    requires fuel == 7
    ensures Loadable(CounterProgram)
    ensures var r := RunImage(CounterProgram, fuel);
            r.status == OutOfFuel && r.final.out == [129] && r.final.pc == 20 &&
            r.final.sram[RegR8] == 20 && r.final.sram[RegR9] == 129 &&
            r.final.sram[RegR10] == 255 && r.final.sram[RegR11] == 255 && r.final.sram[RegR12] == 255
  {
    CounterLoads();
    var flash := Load(CounterProgram);
    CounterRunsFrom(flash, 0, fuel);
    CounterAfterOpening(flash);
  }
}
