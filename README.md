# emulator — a verified model of the CPU engine

marc-q/emulator is a tiny 8-bit CPU emulator written in C. The core modelled
here is its execution engine in `emulator.c`, plus the layout it indexes
into from `emulator.h`. The engine state is:

- a 512-byte SRAM whose first 16 bytes are the register file;
- a 128-word flash program store;
- a program counter;
- the two status flags Z and N.

`e_cpu_init` zeroes SRAM, copies the program image into flash up to its zero
sentinel, and sets Z and clears N. `e_cpu_exec` is a `for` loop from pc = 0
to 128 that decodes the word at pc and runs one of the switch cases. Each
case fetches its operand words by pre-incrementing pc (`e_cpu_get_arg`),
checks its register or address operands, updates SRAM and, for LDI and the
arithmetic, logic and compare cases, sets the flags with `e_cpu_update`. The loop's
`pc++` then moves to the next instruction. A jump therefore resumes at its
target plus one, and BREAK and OUT to the exit port end the loop by setting
pc to 128.

The project has six modules, one per file:

- `Layout` (layout.dfy): `emulator.h`. The byte and word cell types, the C
  conversions to them, memory sizes, ports, and the flag, register and
  opcode enumerations.
- `Bits` (bits.dfy): C's `&`, `|` and `^` on non-negative integers, defined
  bit by bit, with the facts about them that the AND, OR and EOR cases need.
- `Machine` (machine.dfy): the engine on values. A `State` datatype, one
  function per group of switch cases (`AluStep` for LDI and the
  sixteen arithmetic, logic and compare opcodes, `JumpStep` for the three jumps, one
  function each for the others; BREAK, NOP and unknown opcodes are handled
  inline in `Dispatch`), `Decode` (`e_cpu_decode`), `Execute` (one pass of the switch), `Step`
  (the switch and the loop's increment), `Run` and `Continue` (the loop,
  bounded by a step budget: `Run` tests pc and the budget, `Continue` runs
  one iteration and the rest), `Load` and `Initial` (`e_cpu_init`).
- `Emulator` (emulator.dfy): the engine as the C code runs it. A class `Cpu`
  with `sram` and `flash` arrays and `pc`, `z`, `n` and `out` fields, one
  method per C function the class can hold (`Init`, `Update`, `SramRead`,
  `SramWrite`, `GetArg`) and per group of switch cases (`ExecAluImm`,
  `ExecAluReg` and `ExecAluUnary` for the ALU opcodes, `ExecJump` for the
  three jumps; BREAK, NOP and unknown opcodes inline in `Execute`), and the
  loop `Exec`; `e_cpu_decode` is `Machine.Decode`. Each
  method's postcondition ties the new object state to the `Machine`
  function of the old state. `Exec` carries `Machine.Run` as its loop
  invariant.
- `Properties` (properties.dfy): what the engine guarantees, proved over
  `Machine`: the constants, the flag rule, each instruction family, the
  guards, pc progression, the stack, faults, loading, and the loop.
- `Programs` (programs.dfy): the two built-in test programs `e_tst_tst` and
  `e_tst_counter` as program images, and what running them does.

Two behaviours of the code are easy to misread, and the model follows the
code in both:

- Results are computed in a 16-bit `word` and only then stored into a byte,
  so the flags see the 16-bit value. `INC` of 255 stores 0 but leaves Z
  clear. `LDI` of 256 stores 0 and also leaves Z clear.
- `ROR` fills bit 7 of the result from the N flag, not from bit 0 of the
  register. The `e_tst_tst` program loads 128 (which sets N), prints it,
  rotates it and prints it again. A reading of "rotate" would expect the
  second byte to be 64. The code prints 192, and `Programs.TstPrints` and
  `Programs.TstTst` state 128 then 192.

The stack pointer is the little-endian word at SRAM 7 and 8, so its high
byte is register R8. PUSH and POP read and write it through
`e_cpu_sram_read` and `e_cpu_sram_write`.

## Model

| member | source | states |
|---|---|---|
| Layout.Lo | emulator.c:100 | storing a value into a byte keeps its low 8 bits; a value already in 0..255 is kept as is |
| Layout.Wrap | emulator.c:83 | storing an intermediate into a `word` keeps its low 16 bits: values in range are kept, a negative value down to -65536 gains 65536 |
| Layout.And16 | emulator.c:275-289 | C's `&` on two words: the result is `Bits.BitOp(And, x, y)`, which fits 16 bits, so converting it to `word` drops nothing; Bits.BitAt shows it is `&` bit by bit |
| Layout.Or16 | emulator.c:300-313 | C's bitwise OR on two words: the result is `Bits.BitOp(Or, x, y)`, which fits 16 bits; Bits.BitAt shows it is OR bit by bit |
| Layout.Xor16 | emulator.c:326 | C's `^` on two words: the result is `Bits.BitOp(Xor, x, y)`, which fits 16 bits; Bits.BitAt shows it is `^` bit by bit |
| Properties.OpcodeNumbering | emulator.h:113-153 | the opcodes run 0..30 in declaration order (BAD = 0 through IN = 29, END = 30), so they are pairwise distinct; JE = 23 and JZ = 25 are different codes |
| Properties.RegisterAndPortLayout | emulator.h:15-69 | the 16 registers occupy SRAM 0..15; RSP = 7, so the SP word's high byte is R8; the two ports differ, are not registers and lie inside SRAM; Z and N are the only flags |
| Machine.SetFlags | emulator.c:45-50 | the flag rule: Z holds iff the 16-bit result is 0, N iff its bit 7 is set; SRAM, flash, pc and output are untouched |
| Machine.Bit7 | emulator.c:49 | N as bit 7 of the 16-bit result; Bit7IsMask proves it is C's `vres & 0x80` read as a truth value |
| Properties.Bit7IsMask | emulator.c:49 | bit 7 of a word is set iff `v & 0x80` is nonzero |
| Emulator.Cpu.Update | emulator.c:45-50 | the object's Z and N become that flag rule applied to the result |
| Emulator.Cpu.SramRead | emulator.c:55-58 | the word read is the little-endian word at `addr` |
| Machine.WriteWord | emulator.c:60-64 | a little-endian word write changes only the cells `addr` and `addr + 1` and keeps SRAM's length |
| Emulator.Cpu.SramWrite | emulator.c:60-64 | the SRAM array afterwards is exactly the word write to the old contents |
| Properties.ReadAfterWrite | emulator.c:55-64 | reading the word just written returns it |
| Properties.WriteOfRead | emulator.c:55-64 | writing back the word read from a memory copies exactly its two bytes |
| Machine.ReadWord | emulator.c:55-58 | the little-endian word at `addr`; ReadWordIsOr proves it equals C's OR of the shifted bytes, LowHigh and ReadAfterWrite give its bytes back |
| Properties.ReadWordIsOr | emulator.c:57 | the sum ReadWord takes equals C's `sram[addr]` OR `sram[addr + 1] << 8` |
| Properties.LowHigh | emulator.c:57 | a word assembled from two bytes splits back into the same low and high bytes |
| Emulator.Cpu.GetArg | emulator.c:69-73 | the operand fetch advances pc by one and returns the flash word at the new pc |
| Machine.Decode | emulator.c:75-79 | decoding returns the opcode word unchanged |
| Machine.HandlerOf | emulator.c:91-427 | the case label each opcode selects; HandlerLabels states which values have a case |
| Properties.HandlerLabels | emulator.c:91-427 | every opcode from LDI to IN has its own case except JZ and JE, which share one (emulator.c:354-355); BAD, END and every larger value select no instruction |
| Machine.Arity | emulator.c:91-427 | the number of `e_cpu_get_arg` calls of each case, at most two; DispatchKeepsPc and PcAdvances prove pc ends on the last operand |
| Emulator.Cpu.Init | emulator.c:13-37 | a fresh CPU equals `Machine.Initial(prg)`: zero SRAM, the loaded flash, pc 0, Z set, N clear, no output |
| Emulator.Cpu.ClearSram | emulator.c:18-21 | every SRAM byte is 0 afterwards |
| Emulator.Cpu.LoadFlash | emulator.c:24-32 | flash afterwards equals `Machine.Load(prg)`: the words of `prg` before its first zero word (at most 128), BAD after them |
| Machine.LoadedLength | emulator.c:24-32 | loading copies k words: none of the first k is zero, and when k < 128, `prg[k]` is the zero sentinel |
| Machine.Load | emulator.c:24-32 | flash after loading has exactly 128 words; LoadStopsAtSentinel and LoadFillsFlash state their contents |
| Machine.Initial | emulator.c:13-37 | the state after `e_cpu_init` is well formed and its flash is `Load(prg)`; InitialState states SRAM, SP, flags, pc and output |
| Properties.InitialState | emulator.c:13-37 | after init all 512 SRAM bytes (and so every register and SP) are 0, Z is set, N is clear, pc is 0, nothing has been output |
| Properties.LoadedLengthAt | emulator.c:24-29 | the copy loop stops exactly at the first zero word |
| Properties.LoadStopsAtSentinel | emulator.c:24-32 | with the first zero at k < 128, flash holds `prg[..k]` and BAD from k on |
| Properties.LoadedLengthFull | emulator.c:24-32 | with no zero among the first 128 words, the loop copies all 128 |
| Properties.LoadFillsFlash | emulator.c:24-32 | such an image fills flash with its first 128 words |
| Machine.Alu | emulator.c:150-350 | the 16-bit `vres` of each ALU case (emulator.c:157, 170, 182, 195, 208, 219, 230, 251, 263, 275, 288, 300, 313, 326, 338, 350); LdiRule through CpRule state the stored byte and both flags case by case |
| Machine.AluStep | emulator.c:93-353 | LDI and the sixteen arithmetic, logic and compare cases: the result is well formed and flash is unchanged; the rule lemmas give the exact new state for each opcode |
| Emulator.Cpu.ExecAluImm | emulator.c:93-103 | LDI (and ADIW 150-161, SUBI 175-186, ANDI 268-279, ORI 293-304, CPI 331-341): the object afterwards is `Machine.AluStep` of the fetched operands; what that stores and flags, case by case, is stated by LdiRule, AdiwRule, SubiRule, AndiRule, OriRule and CpiRule |
| Emulator.Cpu.ExecAluReg | emulator.c:162-212 | ADD, SUB, MUL (and AND, OR, EOR 280-330, CP 342-353): the object afterwards is `Machine.AluStep` of the fetched operands; what that stores and flags, case by case, is stated by AddRule, SubRule, MulRule, AndRule, OrRule, EorRule and CpRule |
| Emulator.Cpu.ExecAluUnary | emulator.c:213-234 | INC, DEC (and NEG 245-255, ROR 256-267): the object afterwards is `Machine.AluStep` of the fetched operand |
| Emulator.Cpu.ExecMov | emulator.c:104-114 | the object afterwards is `Machine.MovStep` of the fetched operands |
| Emulator.Cpu.ExecMovw | emulator.c:115-126 | the object and fault afterwards are `Machine.MovwStep` of the fetched operands |
| Emulator.Cpu.ExecPush | emulator.c:127-137 | the object and fault afterwards are `Machine.PushStep` |
| Emulator.Cpu.ExecPop | emulator.c:138-149 | the object and fault afterwards are `Machine.PopStep` |
| Emulator.Cpu.ExecSwap | emulator.c:235-244 | the object afterwards is `Machine.SwapStep` |
| Emulator.Cpu.ExecJump | emulator.c:354-372 | the object afterwards is `Machine.JumpStep` for JZ/JE (`whenZero`) or JNE |
| Emulator.Cpu.ExecOut | emulator.c:381-403 | the object afterwards is `Machine.OutStep` of the fetched operands |
| Emulator.Cpu.ExecIn | emulator.c:404-414 | the object afterwards is `Machine.InStep` of the fetched operands |
| Machine.MovStep | emulator.c:104-114 | MOV keeps the state well formed and flash unchanged; MovRule gives the register copy |
| Machine.MovwStep | emulator.c:115-126 | MOVW keeps flash unchanged; MovwRule gives the two copies and FaultIffOutOfBounds the fault at index 512 |
| Machine.PushStep | emulator.c:127-137 | PUSH keeps flash unchanged; PushRule gives the slot write and SP - 1 |
| Machine.PopStep | emulator.c:138-149 | POP keeps flash unchanged; PopRule gives SP + 1, the loaded byte and SP written back |
| Machine.SwapStep | emulator.c:235-244 | SWAP keeps flash unchanged; SwapRule and SwapIsOr give the stored byte |
| Machine.JumpStep | emulator.c:354-372 | a jump changes nothing but pc; JumpRule states when it is taken |
| Machine.OutStep | emulator.c:381-403 | OUT keeps flash unchanged; OutRule gives the store, the console byte and the halt |
| Machine.InStep | emulator.c:404-414 | IN keeps flash unchanged; InRule gives the copy |
| Machine.Dispatch | emulator.c:91-427 | the switch keeps flash unchanged, and a faulting case has written nothing |
| Emulator.Cpu.Execute | emulator.c:88-427 | one pass of the switch with BREAK, NOP, BAD and unknown opcodes inline: object and fault equal `Machine.Execute` of the old state |
| Machine.Execute | emulator.c:88-427 | a fault leaves SRAM, flags and output as they were and pc inside flash; flash never changes |
| Emulator.Cpu.Cycle | emulator.c:86-428 | one loop iteration (the switch, then `pc++` unless it faulted) equals `Machine.Step` |
| Machine.Step | emulator.c:86-428 | a faulting iteration changes nothing but pc, which stays inside flash; flash never changes |
| Emulator.Cpu.Exec | emulator.c:81-429 | the loop from pc = 0 ends as `Machine.Run` from that state with the same budget, status and final state both |
| Emulator.Run | emulator.c:432-444 | loading a fresh CPU and running it reports `Machine.RunImage`'s status and output |
| Machine.Run | emulator.c:86 | no run changes flash |
| Machine.RunImage | emulator.c:432-444 | a run of a loaded image leaves flash as loaded |
| Machine.Continue | emulator.c:86-428 | one iteration with budget left, then the rest of the run; flash never changes |
| Machine.RunNext | emulator.c:86 | a run that takes a step goes on as the run from the next state with one step less |
| Machine.RunCrashes | emulator.c:86-428 | a step that faults ends the run with that fault and state, whatever budget is left |
| Properties.SkippedOnlyAdvancesPc | emulator.c:95-125 | an instruction whose guard rejects its register or address operand (also 132-136, 155-352, 386-413) changes neither SRAM, flags nor output and moves pc past its operand words |
| Properties.PopSkipped | emulator.c:138-149 | POP with a register operand of 16 or more still reads the stack but changes nothing beyond pc |
| Properties.FlagsOnlyFromAlu | emulator.c:104-149 | MOV, MOVW, PUSH, POP, SWAP, the jumps, BREAK, NOP, OUT, IN and unknown opcodes (also 235-244, 354-426) never change Z or N |
| Properties.DispatchFrame | emulator.c:91-427 | every case keeps the flags unless it is an ALU case, and appends at most one byte to the output |
| Properties.DispatchKeepsPc | emulator.c:91-427 | every case except the jumps, BREAK and OUT to the exit port leaves pc on its last operand word |
| Properties.PcAdvances | emulator.c:69-73 | an instruction at p with k operand words that does not transfer control is followed by the fetch at p + k + 1 (the loop's increment at 86) |
| Properties.JumpRule | emulator.c:354-372 | JZ and JE are taken iff Z, JNE iff not Z; a taken jump to T resumes at T + 1, otherwise after the operand; nothing else changes |
| Properties.LdiRule | emulator.c:93-103 | LDI stores the immediate's low byte and sets the flags from the whole 16-bit immediate |
| Properties.LdiOverflowClearsZ | emulator.c:93-103 | LDI of 256 stores 0 in the register yet leaves Z clear |
| Properties.IncRule | emulator.c:213-223 | INC stores (x + 1) mod 256; Z is never set (255 + 1 is 256 as a word); N iff 127 <= x < 255 |
| Properties.DecRule | emulator.c:224-234 | DEC stores x - 1, with 0 wrapping to 255; Z iff x = 1; N iff x = 0 (0xFFFF) or x > 128 |
| Properties.NegRule | emulator.c:245-255 | NEG stores the two's complement byte; Z iff x = 0; N iff 1 <= x <= 128 |
| Properties.NegByte | emulator.c:251 | the 16-bit negation of a byte: its low byte, when it is zero, and its bit 7 |
| Properties.RorRule | emulator.c:256-267 | ROR stores x >> 1 with bit 7 taken from the old N, so N is unchanged and Z iff the stored value is 0 |
| Properties.RorIsOr | emulator.c:263 | the sum the model takes for ROR equals C's `x >> 1` OR `N << 7` |
| Properties.Bit7OfLow | emulator.c:49 | `vres & 0x80` is set iff the low byte of `vres` is at least 0x80, so N is bit 7 of the stored byte whenever the result is stored |
| Properties.WrapLowByte | emulator.c:150-212 | a byte-and-word sum, difference or product converted to `word`: its low byte is that of the exact value, it is 0 only for 0 and 0x10000, and its bit 7 is the low byte's |
| Properties.AddRule | emulator.c:162-174 | ADD stores (x + y) mod 256; Z iff both registers were 0 (the word sum 256 is not 0); N iff the stored byte is at least 0x80 |
| Properties.AddOverflowClearsZ | emulator.c:162-174 | ADD of 128 and 128 stores 0 yet leaves Z clear |
| Properties.AdiwRule | emulator.c:150-161 | ADIW stores (x + imm) mod 256; Z iff x + imm is 0 or exactly 0x10000; N iff the stored byte is at least 0x80 |
| Properties.AdiwWrapSetsZ | emulator.c:150-161 | ADIW of 0xFFFF to 1 wraps the word to 0: it stores 0 and sets Z |
| Properties.SubRule | emulator.c:187-199 | SUB stores (x - y) mod 256; Z iff the registers were equal; N iff the stored byte is at least 0x80 |
| Properties.SubiRule | emulator.c:175-186 | SUBI stores (x - imm) mod 256; Z iff the register equals the 16-bit immediate; N iff the stored byte is at least 0x80 |
| Properties.ByteProduct | emulator.c:208 | the product of two bytes fits a word; it is 0 iff a factor is 0, and its bit 7 is that of its low byte |
| Properties.MulRule | emulator.c:200-212 | MUL stores (x * y) mod 256; Z iff a factor is 0; N iff the stored byte is at least 0x80 |
| Properties.MulOverflowClearsZ | emulator.c:200-212 | MUL of 16 and 16 stores 0 yet leaves Z clear |
| Properties.AndValue | emulator.c:275 | `byte & word` is a byte built from the word's low byte only; the flags follow it |
| Properties.OrValue | emulator.c:300 | `byte \| word` stores the OR with the word's low byte, but is 0 only when both operands are 0 |
| Properties.XorValue | emulator.c:326 | `byte ^ byte` is a byte, 0 iff the operands are equal |
| Properties.AndRule | emulator.c:280-292 | AND stores the bitwise AND of the registers; Z iff it is 0; N iff it is at least 0x80 |
| Properties.AndiRule | emulator.c:268-279 | ANDI stores the AND of the register with the immediate's low byte; Z iff that is 0 |
| Properties.OrRule | emulator.c:305-317 | OR stores the bitwise OR of the registers; Z iff both were 0 |
| Properties.OriRule | emulator.c:293-304 | ORI stores the OR of the register with the immediate's low byte, but Z holds only when the register and the whole 16-bit immediate are 0 |
| Properties.OriHighByteClearsZ | emulator.c:293-304 | ORI of 0x100 into a zero register stores 0 yet leaves Z clear |
| Properties.EorRule | emulator.c:318-330 | EOR stores the bitwise XOR of the registers; Z iff they were equal |
| Properties.EorSelfSetsZ | emulator.c:318-330 | EOR of a register with itself stores 0 and sets Z |
| Properties.CpRule | emulator.c:342-353 | CP changes only Z, N and pc, never SRAM; Z iff the two registers hold equal bytes, N iff bit 7 of their difference modulo 256 is set |
| Properties.CpiRule | emulator.c:331-341 | CPI changes only Z, N and pc, never SRAM; Z iff the register equals the immediate, N iff bit 7 of their difference modulo 256 is set |
| Properties.SwapNibbles | emulator.c:242 | the stored byte of `(v >> 4) \| (v << 4)` is v with its nibbles exchanged |
| Properties.SwapRule | emulator.c:235-244 | SWAP exchanges the register's nibbles and changes no flag |
| Properties.SwapIsOr | emulator.c:242 | the byte SWAP stores is C's `v >> 4` OR `v << 4`, converted to `byte` |
| Properties.NibblesTwice | emulator.c:242 | exchanging a byte's nibbles twice gives the byte back |
| Properties.SwapTwiceRestores | emulator.c:235-244 | two SWAPs of the same register restore the state, apart from pc |
| Properties.MovRule | emulator.c:104-114 | MOV copies register b into register a and changes nothing else |
| Properties.MovwRule | emulator.c:115-126 | MOVW copies the low byte first, then the high byte, so with overlapping pairs the second copy reads the cell just written |
| Properties.InRule | emulator.c:404-414 | IN copies SRAM cell b into register a and changes nothing else |
| Properties.OutRule | emulator.c:381-403 | OUT p, r sets SRAM[p] to r's byte, appends it to the output iff p = 0x52, and ends the loop iff p = 0x4F |
| Properties.BreakHalts | emulator.c:373-377 | BREAK ends the run at once: the status is Halted and only pc changed |
| Properties.PushRule | emulator.c:127-137 | PUSH stores the register at SRAM[SP] and SP becomes SP - 1, wrapping 0 to 0xFFFF |
| Properties.PopRule | emulator.c:138-149 | POP increments SP, loads the low byte of the word there into the register, and stores the new SP |
| Properties.PushPopMemory | emulator.c:127-149 | the SRAM effect of PUSH r followed by POP r2 on the same stack slot |
| Properties.PushThenPop | emulator.c:127-149 | PUSH r then POP r2 with SP + 1 < 512 and SP not 7 or 8: SP is restored, the slot holds r, and r2 receives r's value unless r2 is a byte of SP; flags and output are untouched |
| Properties.FaultIffOutOfBounds | emulator.c:72 | a step faults iff the C code would index outside flash or SRAM (also 124, 134, 142), and then it has written nothing |
| Properties.StepOutputAppends | emulator.c:381-403 | one step appends at most one byte to the output |
| Properties.RunOutputExtends | emulator.c:86-428 | a run's output extends the output it started with |
| Properties.HaltedIffPcPastFlash | emulator.c:86 | a run ends Halted iff its final pc is past flash; crashes and an exhausted budget leave pc inside |
| Properties.MoreFuelSameEnd | emulator.c:86-428 | a run that ended within its budget `fuel` ends identically with every budget `more` >= `fuel` |
| Bits.BitAt | emulator.c:275 | bit i of `x op y` is the operator applied to bit i of x and bit i of y (also 288, 300, 313, 326), so `BitOp` is C's `&`, `\|` and `^` |
| Bits.LowBitsOnly | emulator.c:268-330 | the low j bits of `x op y` depend only on the low j bits of x and y |
| Bits.Narrow | emulator.c:268-330 | operands below 2^j give a result below 2^j; for AND, one operand below 2^j suffices |
| Bits.OrZero | emulator.c:300 | `x \| y` is 0 iff x and y are both 0 |
| Bits.XorZero | emulator.c:326 | `x ^ y` is 0 iff x = y |
| Bits.AndByte | emulator.c:275 | AND with a byte is a byte and sees only the other operand's low byte |
| Bits.OrByteWord | emulator.c:300 | OR of a byte and a word is a word whose low byte is the OR with the word's low byte |
| Bits.XorBytes | emulator.c:326 | XOR of two bytes is a byte |
| Bits.AndZero | emulator.c:49 | AND with 0 is 0 |
| Bits.AndPow2 | emulator.c:49 | AND with 2^k keeps exactly bit k of the other operand |
| Bits.OrDisjoint | emulator.c:57 | OR of two operands without a common bit is their sum (also at emulator.c:242 and 263) |
| Programs.LoadsCode | emulator.c:24-32 | code with no zero word followed by the sentinel loads into the start of flash, with BAD after it |
| Programs.TstStep | emulator.c:551-577 | each of the five instructions of `e_tst_tst` takes the state after k instructions to the one after k + 1 |
| Programs.TstRunsFrom | emulator.c:551-577 | from the state after k instructions, any budget of at least 5 - k iterations halts in the same final state |
| Programs.TstPrints | emulator.c:551-577 | `e_tst_tst` halts for every budget of 5 or more and outputs exactly 128 then 192 |
| Programs.TstTst | emulator.c:551-577 | running `e_tst_tst` on a fresh CPU halts with output [128, 192] |
| Programs.CounterStep | emulator.c:456-483 | each of the opening seven instructions of `e_tst_counter` takes its state to the next |
| Programs.CounterLoadStep | emulator.c:456-475 | the five LDIs load R8 = 20, R9 = 130 and R10..R12 = 255 one by one |
| Programs.CounterRunsFrom | emulator.c:456-483 | the opening runs from the state after k instructions to the state after 7 in 7 - k iterations |
| Programs.CounterLoads | emulator.c:450-548 | the counter image is loadable and its opening is what ends up in flash |
| Programs.CounterAfterOpening | emulator.c:456-483 | after the opening, R8 = 20, R9 = 129, R10..R12 = 255, pc = 20 and the output is [129] |
| Programs.CounterStarts | emulator.c:450-548 | with a budget of 7 iterations the counter program is still running, has printed 129, and holds R8 = 20 (not 0, as its comments suggest) |

## Left out

- Console output: `printf ("%c", …)` is modelled as the byte sequence `out`, which the OUT case appends to.
- The debug messages for BAD and unknown opcodes (emulator.c:415-426) are modelled as "no state change" only.
- `e_cpu_free`'s newline (emulator.c:39-43) and `main`'s banner and choice of program (emulator.c:579-587) are console plumbing and are not modelled.
- Out-of-bounds accesses are undefined behaviour in C. The model stops with an explicit `Fault` instead and has written nothing at that point. The cases are an operand fetch past flash[127], PUSH or POP with SP touching SRAM at or above 512, and MOVW at address 511. Where the C code would already have written the first MOVW byte, no byte is written.
- Emulator.Cpu.Exec: the loop is bounded by a step budget `fuel` and reports `OutOfFuel` when the budget runs out, because backward jumps make the C loop's termination unprovable. Machine.Run is bounded the same way.
- Emulator.Cpu.Init: requires an image with a zero sentinel or at least 128 words. Without one, the C loader reads past the end of the array.
- Flash cells after the sentinel are never initialised in C (a stack-allocated `e_cpu`). The model fills them with 0, the BAD opcode.
- The C `pc` is a 32-bit `unsigned int`. Jump targets are words, so pc never exceeds 65536 and no wrap-around is modelled. pc is a `nat`.
- Machine.Initial / Properties.InitialState: `e_cpu_init` never assigns pc (emulator.c:13-37). The loop sets pc = 0 itself at emulator.c:86, so the model fixes pc = 0 at init.
- The status register array `sreg` is modelled as the two fields `z` and `n`.
- Programs.CounterStarts: states only the first seven iterations of `e_tst_counter`. Running the whole program takes on the order of 10^9 iterations, and the full sequence of outputs (129 down to 20) is not proved.
- The carry and overflow flags and DIV are listed in emulator.h:21-28 and 86 as not implemented, and the model has none either. The decode stage is the identity, as in emulator.c:75-79.
