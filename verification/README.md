# Frost32: processor, arithmetic units, assembler and splitter

This project models the Frost32 processor (SystemVerilog under `hdl/src`), the assembler and
disassembler that produce and read its programs, and the word splitter of `liborangepower`, and
proves what they compute. Run `dafny verify dfyconfig.toml` in this directory.

## How the model is laid out

**The processor.** `Stages` is one clock edge of the fetch, decode and execute blocks as functions of the
old state; `RegisterFile`, `MainMem`, `InstrDecoder`, `Alu`, `Multiplier` and `Divider` are the parts it
is wired to. `Pipeline.Step` is one edge of everything together; `Hardware` and `Frost32` are the same
registers as objects whose clocked blocks change them in place, each proved equal to its function. Every
non-blocking assignment reads the old state; the two blocks of the divider race in the source, so the
divider is modelled in both orders.

The proof goes down in three steps.

1. `Pipeline`: the register file with its write port, its clocked read ports and the two forwarding slots
   always shows the execute stage the current value of each register, so the whole machine moves in lock
   step with a flat one in which every write lands at once.
2. `Refinement` and `Theorems`: letting what is in flight finish (`Flush`) turns every reachable state into a
   state of a sequential machine, `AsBuilt`, at every clock, for every memory image, every interrupt input,
   every instruction word, every build of the divider and both orders of its blocks. The stall counter is
   that machine's waiting time.
3. `AsBuilt` and `Departures`: that sequential machine is the documented one, `Isa`, exactly when two
   conditions hold, one on calls and one on multiplies by an immediate. Programs without `muli`, without signed
   calls and without calls that name `lr` always meet them.

`InstructionSet` says what the documented instructions leave by group and opcode number, in numbers and bits,
without the functions that the documented machine and the datapath have in common.

**The assembler.** `Expressions`, `Scopes` and `Assembler` are the two passes as functions of the assembler's
state. `Meaning` says what a program means with nested environments only: no passes, no tables, no stacks.
`ScopeReplay`, `LabelAgreement`, `Placement`, `Acceptance` and `TwoPasses` connect them. `Shadowing` says, again
with nested environments only, what comes out for every program, those included in which a block repeats an
outer label. `Evaluation` gives the value of every form of expression in numbers and bits, and `Operands` what
each instruction makes of the value of the expression written in it. `ScopedTables.ScopedTable` and
`AssemblerVisitor.Visitor` are the objects of the source, with their stacks, pools, address pair and printed
text, proved to reach the states of the functions. `BitRanges`, `Encoding`, `Generation`, `HexText`, `WordText`
and `Listing` follow an instruction from its fields to bits, bytes and text and back; `PseudoInstructions`
executes the emitted words on the documented machine, and `MemoryImage` does so for all the instructions of a
program whose image is in memory.

**The splitter.** `Splitting.Splitter` is the escape-aware splitter as an object.

Widths are written out: words are integers below 2^32, the assembler's numbers are 64-bit signed integers,
and each truncation and sign extension of the source is an explicit function.

## Where the code and its documents differ

The model follows the code.

- `README.md` of the repository says that a multiply takes 5 cycles, `reti` 2 and an interrupt response 2. In the
  code each takes one more than its stall constant: 6, 3 and 3. A divide takes 40, 24 or 16.
- A call forwards the new `lr` before the fetch block compares and reads its operands, so `call lr` goes to the next
  instruction (`Departures.CallThroughLr`).
- A signed call compares with flags of an earlier instruction before it captures its own
  (`Departures.SignedCallWithStaleFlag`; `Departures.StaleFlagIsReached` is a program in which it writes `lr`).
- `muli` sets the stall counter and leaves the stall state of the previous stalling instruction in force
  (`AsBuilt.MuliAsBuilt`, `Departures.MuliAfterReset`).
- A label in a block that repeats a label declared earlier in an enclosing block overwrites the outer one
  (`AssemblerCounterexamples.ShadowingMovesLabels`; `Shadowing.AssembleReplays` says what that comes to).
- The duplicate test, which a comment says disallows duplicate labels in the same scope, looks only at the block's
  own table, so a block may repeat an outer label any number of times: `x: { x: x: }` is accepted
  (`Acceptance.DuplicateIsMissed`; `Acceptance.AcceptsExactly` says which programs pass 0 accepts).
- A label that `.org` or `.space` mentions can move the labels after it between the passes
  (`AssemblerCounterexamples.LayoutLabelsMove`; `TwoPasses.SymbolsStayExactly` says when).
- Pass 0 takes every name as zero, so a remainder by a label has no value there although it may have one in pass 1
  (`AssemblerCounterexamples.RemainderByLabelStops`).
- The two blocks of the divider run in an order that the language leaves open. If the old values are read at the
  edge that finishes the digits and the new ones at the next, a half comes out wrong
  (`DividerProofs.OrdersAreSafeExactly`).

## Model

| member | source | states |
|---|---|---|
| Theorems.PipelineRefines | hdl/src/frost32_cpu_module.src.sv:1477-2567 | at every clock of every run, from any memory image and for any interrupt input, the flushed registers, memory, pc, `ireta`, `idsta` and `ie` are those of the sequential machine, and the stall counter is its remaining wait |
| Theorems.PipelineImplementsIsa | hdl/src/frost32_cpu_module.src.sv:1477-2567 | a run all of whose instructions conform is, clock by clock, a run of the documented instruction set |
| Theorems.DepartureShows | hdl/src/frost32_cpu_module.src.sv:1306-1341 | the first instruction that does not conform leaves the flushed hardware and the documented machine in different states, so the condition is exact |
| Departures.OrdinaryProgramsRunAsDocumented | hdl/src/frost32_cpu_module.src.sv:1477-2567 | programs whose documented run starts no `muli`, no signed call and no call naming `lr` run as documented at every clock |
| Departures.OrdinaryRunsConform | hdl/src/frost32_cpu_module.src.sv:2008-2165 | the same condition, read off the documented machine alone, implies that every instruction the hardware starts conforms |
| Departures.OrdinaryConforms | hdl/src/frost32_cpu_module.src.sv:1306-1341 | an unsigned call that does not name `lr` ignores the stale flags and the early write of `lr` |
| Departures.AbsoluteCallsConform | assembler_disassembler/src/assembler_class.cpp:1004-1090 | a call the assembler makes through `temp` conforms whenever it does not compare `lr`; one that does conforms if and only if it is not taken, still holds with the new `lr`, or `lr` or the target is the next address |
| Departures.CallThroughLr | hdl/src/frost32_cpu_module.src.sv:1330-1341 | `ceq zero, zero, lr` always falls through, and conforms only when `lr` already holds the next address |
| Departures.SignedCallWithStaleFlag | hdl/src/frost32_cpu_module.src.sv:2403-2423 | a signed call that must not be taken writes `lr` exactly when a stale flag says so |
| Departures.StaleFlagIsReached | hdl/src/frost32_cpu_module.src.sv:2403-2423 | from reset, after `addi` and a signed branch that is not taken, a signed call that must not be taken leaves `lr` at 12 and not at 0 |
| Departures.MuliAfterReset | hdl/src/frost32_cpu_module.src.sv:2039-2043 | `muli` as the first instruction goes back to address 0 |
| AsBuilt.ConformsExactly | hdl/src/frost32_cpu_module.src.sv:2008-2165 | for every machine state, the hardware's next instruction is the documented one if and only if `Conforms` |
| AsBuilt.CallConformsExactly | hdl/src/frost32_cpu_module.src.sv:2370-2434 | when a call with its early `lr` write does what is documented, both ways |
| AsBuilt.MuliConformsExactly | hdl/src/frost32_cpu_module.src.sv:2039-2043 | when a multiply by an immediate under a leftover stall state does what is documented, both ways |
| Refinement.BoundaryStep | hdl/src/frost32_cpu_module.src.sv:1866-2208 | from any boundary state, one decode and the stall it starts are one instruction, or one interrupt response, of the sequential machine |
| Refinement.CallCompletes | hdl/src/frost32_cpu_module.src.sv:1306-1341 | an unsigned call in flight ends as the sequential call, with `lr` and pc written once each |
| Refinement.SignedCallCompletes | hdl/src/frost32_cpu_module.src.sv:1306-1341 | a signed call in flight ends as the sequential call that reads old flags first |
| Refinement.MultiplyCompletes | hdl/src/frost32_cpu_module.src.sv:1343-1374 | the last of a multiply's writes to rA is the product of the operands captured at its first stall clock |
| Refinement.MuliCompletes | hdl/src/frost32_cpu_module.src.sv:2039-2043 | a multiply by an immediate ends as described for whichever stall state it inherits |
| Refinement.DivideCompletes | hdl/src/frost32_cpu_module.src.sv:1376-1437 | for 1, 2 and 4 iterations a clock and both block orders, the last write to rA is the quotient of the captured operands, or 0 for a zero denominator |
| Refinement.LoadStoreCompletes | hdl/src/frost32_cpu_module.src.sv:2438-2513 | loads and stores in flight end with the register or the memory word written and the next instruction fetched after the access |
| Refinement.BranchCompletes | hdl/src/frost32_cpu_module.src.sv:1279-1304 | an unsigned or `ie` branch in flight ends at its target or at the following instruction |
| Refinement.JumpCompletes | hdl/src/frost32_cpu_module.src.sv:1306-1328 | an unsigned jump in flight ends at rC or at the following instruction |
| Refinement.InterruptsStuffCompletes | hdl/src/frost32_cpu_module.src.sv:1938-1999 | the interrupt instructions in flight end with `ie`, `ireta`, `idsta` and pc as documented |
| Theorems.OperandsAreCurrent | hdl/src/frost32_cpu_module.src.sv:662-696 | on the first execute cycle of every instruction of every run, each operand multiplexer gives the sequential machine's register, after all earlier instructions |
| Theorems.OperandsHaveLanded | hdl/src/frost32_cpu_module.src.sv:662-696 | at every clock, multi-cycle stalls included, each multiplexer gives the register after the writes still in the slots |
| Pipeline.ForwardingIsSound | hdl/src/frost32_cpu_module.src.sv:662-696 | the same from the coherence invariant of one state |
| Pipeline.CoherenceKept | hdl/src/register_file_module.src.sv:37-50 | every edge keeps the invariant that the clocked read ports are the old registers with the bypassed write |
| Pipeline.StepIsFlatStep | hdl/src/frost32_cpu_module.src.sv:2233-2567 | one edge with slots, write port and clocked reads is one edge of the machine in which writes land at once |
| Theorems.FetchIsCoherent | hdl/src/frost32_cpu_module.src.sv:1093-1105 | whenever the counter is 0 the decoder sees the current memory word at pc_val, and pc, pc_val + 4 and the bus address agree, even after a store to that word |
| Theorems.StoresWriteOnce | hdl/src/frost32_cpu_module.src.sv:1107-1118 | over all the clocks of every instruction and interrupt response, the write line is up exactly one clock after the decode of a store, once, and never otherwise |
| Theorems.InterruptsArePrecise | hdl/src/frost32_cpu_module.src.sv:2186-2205 | an accepted interrupt leaves every earlier instruction complete and the decoded one without effect; `ireta` is its address |
| Theorems.RetiReturns | hdl/src/frost32_cpu_module.src.sv:1832-1853 | in any run of the pipeline, an interrupt taken and a handler that is only `reti` come back to the interrupted address, at counter 0, with everything but `ireta` as before and `ie` set |
| Theorems.GapIsStatic | hdl/src/frost32_cpu_module.src.sv:25-64 | every instruction and interrupt response counts down to the next decode in the number of clocks that its group and opcode numbers give, never its operands |
| Theorems.CostInClocks | hdl/src/frost32_cpu_module.src.sv:25-64 | the stall of every instruction word as a number of clocks: 5 for multiplies, 39, 23 or 15 for divides, 2 to 4 for branches, jumps and calls, 3 for memory, 2 for group 6 and for a response |
| Theorems.CounterFits | hdl/src/frost32_cpu_defines.header.sv:22-28 | six bits hold the stall counter with one iteration a clock, and five with two or four |
| Isa.FlagsGiveConditions | hdl/src/frost32_cpu_module.src.sv:1030-1079 | the ten comparison functions are the ten documented conditions when the flags are current |
| Isa.BranchAdderGivesTarget | hdl/src/frost32_cpu_module.src.sv:928-949 | the branch adder with its sign extension computes pc + 4 + the signed immediate modulo 2^32 |
| Isa.AddressAdderGivesAddress | hdl/src/frost32_cpu_module.src.sv:951-1003 | the load/store adder computes base plus register or base plus signed immediate |
| Isa.ExecuteGivesImmediateResult | hdl/src/frost32_cpu_module.src.sv:2569-2656 | the ALU inputs chosen for immediates give the documented result, with only the signed comparisons extending |
| InstructionSet.RegisterForm | hdl/src/alu_module.src.sv:39-155 | group 0 by opcode number: sums and differences modulo 2^32, comparisons as 1 or 0, every bit of the logical operations and shifts, the product, and the quotients rounded toward zero or 0, in rA |
| InstructionSet.ImmediateForm | hdl/src/frost32_cpu_module.src.sv:2569-2656 | group 1 by opcode number: the same with the 16-bit immediate, signed only for opcodes 3, 5 and 14, and the immediate over the low half of rA for 15 |
| InstructionSet.CallForm | hdl/src/frost32_cpu_module.src.sv:1330-1341 | a taken call of the documented machine leaves the next address in register 13 and goes to rC |
| InstructionSet.LoadStoreForm | hdl/src/frost32_cpu_module.src.sv:2438-2505 | group 5 by opcode number: the word, half or byte loaded from base plus rC or signed immediate, zero- or sign-extended, and the word stored there |
| InstructionSet.StoreThenLoad | hdl/src/main_mem_module.src.sv:333-344 | loading a stored address gives the word stored, and every other word is as before |
| InstructionSet.EncodedOffsetAddresses | hdl/src/instr_decoder_module.src.sv:141-161 | an encoded 12-bit immediate addresses base plus the number written, negative ones included, if it fits 12 signed bits |
| Alu.OthersGiveZero | hdl/src/alu_module.src.sv:72-79 | the ALU itself gives zero for the opcodes of the multiply and the divides |
| Alu.ShlMeaning | hdl/src/alu_module.src.sv:99-111 | every bit of a left shift by any 32-bit amount |
| Alu.LsrMeaning | hdl/src/alu_module.src.sv:116-128 | every bit of a logical right shift by any 32-bit amount |
| Alu.AsrMeaning | hdl/src/alu_module.src.sv:129-150 | every bit of an arithmetic right shift: the sign fills in, also past the width |
| Bits.NotIsSubtraction | hdl/src/alu_module.src.sv:95-98 | complementing n bits is subtracting from 2^n - 1 |
| Bits.OrMeaning | hdl/src/alu_module.src.sv:87-90 | OR acts on every bit position alone, within the width |
| Bits.AndMeaning | hdl/src/alu_module.src.sv:80-83 | AND acts on every bit position alone, within the width |
| Bits.XorMeaning | hdl/src/alu_module.src.sv:91-94 | XOR acts on every bit position alone, within the width |
| InstrDecoder.DecodeWellFormed | hdl/src/instr_decoder_module.src.sv:45-196 | for every word, which fields, stall request and condition type the decoder can produce |
| InstrDecoder.LessByBorrow | hdl/src/arithlog_modules.src.sv:23-40 | the carry comparator is less-than on opcodes |
| Multiplier.PartialProductsCombine | hdl/src/arithlog_modules.src.sv:229-269 | three 16-bit partial products combine to x times y modulo 2^32 although the middle sum is cut |
| Multiplier.MultiplyTakesThreeClocks | hdl/src/arithlog_modules.src.sv:229-269 | the product is on the output from the third clock on, the old one until then, and the unit is free again |
| DividerProofs.DivideWithinBudget | hdl/src/arithlog_modules.src.sv:800-1018 | from any idle state, within the stall budget of each build and whatever safe order the two blocks take from edge to edge, quotient and remainder are right and the unit is idle |
| DividerProofs.OrdersAreSafeExactly | hdl/src/arithlog_modules.src.sv:800-1018 | every request divides correctly if and only if the orders are not: old values at the edge that finishes the digits, then new ones at the next |
| DividerProofs.InFlightStep | hdl/src/arithlog_modules.src.sv:800-1018 | what every clock of a division keeps, the extra iterations after the last digit included: digits so far, counters and latched results, in any block order except at the one or two edges that latch |
| DividerProofs.IterateChoosesDigit | hdl/src/arithlog_modules.src.sv:749-768 | one non-restoring iteration keeps P = 2^j N - D (digits so far) with digits of +1 and -1, and -D <= P < D |
| DividerProofs.FinishedDigits | hdl/src/arithlog_modules.src.sv:948-974 | after all iterations and the correction step, digits and P give the floor quotient and remainder |
| DividerProofs.TruncatedRebuilds | hdl/src/arithlog_modules.src.sv:948-974 | what the truncated quotient leaves is smaller than the denominator and has the numerator's sign, which fixes truncation toward zero |
| DividerProofs.SignsPutBack | hdl/src/arithlog_modules.src.sv:930-974 | negating magnitudes modulo 2^32 gives the truncated quotient, -2^31 / -1 included |
| Hardware.NonRestoringDivider.PosEdge | hdl/src/arithlog_modules.src.sv:800-1018 | the two racing blocks, run in place in either order, make exactly the step of the divider model |
| Hardware.Multiplier32.PosEdge | hdl/src/arithlog_modules.src.sv:229-269 | the clocked block makes exactly the step of the multiplier model |
| Hardware.RegisterBank.PosEdge | hdl/src/register_file_module.src.sv:121-253 | array write and three bypassed read ports make exactly the step of the register file model |
| Hardware.SinglePortRam.PosEdge | hdl/src/main_mem_module.src.sv:333-344 | the RAM array and its output register make exactly the step of the memory model |
| Frost32.Frost32System.PosEdge | hdl/src/frost32_cpu_module.src.sv:1477-2567 | all blocks of the processor run on one edge, in place, make exactly `Pipeline.Step` |
| Frost32.Frost32System.FetchBlock | hdl/src/frost32_cpu_module.src.sv:1477-1863 | the fetch block's next pc, bus and flags for every stall state and count |
| Frost32.Frost32System.DecodeBlock | hdl/src/frost32_cpu_module.src.sv:1866-2208 | the decode block's next counter, stall state, `ie`, `ireta`, `idsta` and execute latch |
| Frost32.Frost32System.ExecuteBlock | hdl/src/frost32_cpu_module.src.sv:2233-2550 | the execute block's write to forwarding slot 0, or that it keeps or clears it |
| ScopeReplay.ScopesReplay | assembler_disassembler/src/assembler_class.cpp:229-267 | for every program that pass 0 accepts, pass 1 enters the same nodes in the same order, never runs past the children, and leaves the child-number stack one deep |
| ScopeReplay.PassZeroBuilds | assembler_disassembler/src/scoped_table_base_class.hpp:118-163 | pass 0 numbers blocks in the order they open, each the next child of its node, and changes no earlier node's children |
| ScopeReplay.PassOneFollows | assembler_disassembler/src/assembler_class.cpp:229-267 | pass 1 on any tree that fits walks it exactly, whatever labels and expressions do |
| LabelAgreement.LabelsOwnedExactly | assembler_disassembler/src/scoped_table_base_class.hpp:226-242 | every label gets a symbol in its own block's node if and only if no block repeats a label declared above it in an enclosing block |
| LabelAgreement.PassZeroNames | assembler_disassembler/src/assembler_class.cpp:269-296 | which names every node holds after pass 0, for every program |
| TwoPasses.AssembleMeans | assembler_disassembler/src/assembler_class.cpp:31-48 | without shadowing and with label-free `.org` and `.space`, pass 1 prints exactly the bytes the program means or stops for the same reason, and every symbol keeps its pass 0 address |
| Placement.PassZeroPlaces | assembler_disassembler/src/assembler_class.cpp:269-296 | without shadowing, pass 0 gives every label of every block its own symbol, numbered in program order, at its own address |
| TwoPasses.SymbolsStayExactly | assembler_disassembler/src/assembler_class.cpp:1204-1219 | without shadowing, every symbol keeps its pass 0 address if and only if the layouts of both passes put every label at the same address, whatever `.org` and `.space` mention |
| TwoPasses.AssembleImage | assembler_disassembler/src/assembler_class.cpp:31-48 | and then pass 1 prints exactly the bytes those addresses give, or stops for the same reason |
| TwoPasses.PassOneMeans | assembler_disassembler/src/assembler_class.cpp:1506-1529 | line by line from the table of pass 0: while no label moves, references have the enclosing blocks' addresses; once one has moved, no later line moves it back |
| TwoPasses.PassOneWrites | assembler_disassembler/src/assembler_class.cpp:269-296 | pass 1 adds no symbol or node and writes only the symbols of the lines it visits |
| Meaning.FixedLayoutStays | assembler_disassembler/src/assembler_class.cpp:1204-1219 | a label-free layout moves no label, and its image is the program's meaning |
| Placement.PassZeroLayout | assembler_disassembler/src/assembler_class.cpp:1204-1258 | pass 0 places every line where the layout with all names zero places it |
| Meaning.LayoutAgrees | assembler_disassembler/src/assembler_class.cpp:1204-1219 | with a label-free layout the values of operands never move a line |
| Meaning.WordCountIsLength | assembler_disassembler/src/assembler_class.cpp:768-1118 | the number of words an instruction emits does not depend on its operand |
| Acceptance.AcceptsExactly | assembler_disassembler/src/assembler_class.cpp:269-296 | for every program, pass 0 accepts it if and only if every expression has a value with all names zero and no block declares twice a label that is not already visible from outside it |
| Acceptance.DuplicateIsMissed | assembler_disassembler/src/assembler_class.cpp:276-285 | `x: { x: x: }` is accepted, although `x: x:` stops with a duplicate label |
| Shadowing.AssembleReplays | assembler_disassembler/src/assembler_class.cpp:31-48 | for every program that pass 0 accepts, pass 1 prints exactly the bytes of a replay with nested environments, in which a label that is visible from outside its block moves the outer name, or stops for the same reason; and the names of the top block end at the replay's addresses |
| Shadowing.AssemblesExactly | assembler_disassembler/src/assembler_class.cpp:31-48 | for every program, it assembles if and only if pass 0's condition holds and the replay never stops |
| Shadowing.PassZeroWrites | assembler_disassembler/src/assembler_class.cpp:269-296 | after pass 0 every name of the top block has the address that was last written to it, by whichever block |
| Shadowing.PassZeroSettles | assembler_disassembler/src/assembler_class.cpp:269-296 | run of lines by run of lines, pass 0 leaves every block's own labels at the last address written to them, and writes no symbol that is not visible from the block or inside it |
| Shadowing.PassOneReplays | assembler_disassembler/src/assembler_class.cpp:229-296 | from the table of pass 0, pass 1 over any lines of any block has the bytes, the addresses and the errors of the replay |
| AssemblerCounterexamples.ShadowingMovesLabels | assembler_disassembler/src/scoped_table_base_class.hpp:226-242 | a program with a shadowing label whose image is not what it means |
| AssemblerCounterexamples.LayoutLabelsMove | assembler_disassembler/src/assembler_class.cpp:1204-1219 | a program whose `.org` mentions a label and moves it: the condition fails, and the label ends at another address in pass 1 |
| AssemblerCounterexamples.LayoutLabelsMayStay | assembler_disassembler/src/assembler_class.cpp:1204-1219 | a program whose `.org` mentions a label and moves none: it assembles, and every symbol keeps its address |
| AssemblerCounterexamples.RemainderByLabelStops | assembler_disassembler/src/assembler_class.cpp:1430-1454 | `.db8 5 % x` before `x:` stops pass 0, although the program neither shadows nor moves labels and has a meaning |
| Expressions.LabelFreeAgrees | assembler_disassembler/src/assembler_class.cpp:1261-1576 | where pass 1 gives a label-free expression a value, pass 0 gave it the same one |
| Expressions.DivisionTruncates | assembler_disassembler/src/assembler_class.cpp:1430-1454 | `/` and `%` round toward zero: the remainder is smaller than the divisor, has the left operand's sign, and makes up the difference |
| Evaluation.BinaryMeans | assembler_disassembler/src/assembler_class.cpp:1261-1500 | every binary expression is the error of its first failing operand or the operator applied to their values: the exact integer in 64 signed bits, truncated division, 1 or 0, every bit, or multiplication and floor division by a power of two, each on its stated domain |
| Evaluation.UnaryMeans | assembler_disassembler/src/assembler_class.cpp:1553-1576 | `~` inverts every bit, `-` gives the opposite number and `!` tests for zero |
| Evaluation.LeavesMean | assembler_disassembler/src/assembler_class.cpp:1501-1538 | a number is itself, `.` is the current address as a signed number, and a name is 0 in pass 0 and its label's address in pass 1 |
| AssemblerVisitor.Visitor.VisitExpr | assembler_disassembler/src/assembler_class.cpp:1261-1576 | visiting any expression pushes exactly its value in this pass and leaves the rest of the number stack, the string stack and the table alone |
| AssemblerVisitor.Visitor.Run | assembler_disassembler/src/assembler_class.cpp:31-48 | the object ends both passes in the state of the pure assembler with empty stacks, and has printed exactly the bytes of pass 1: a byte a line in byte mode, a number a line in word mode |
| AssemblerVisitor.Visitor.VisitLines | assembler_disassembler/src/assembler_class.cpp:199-227 | the loop over lines reaches the state of the pure visitor, for either pass |
| AssemblerVisitor.Visitor.VisitScope | assembler_disassembler/src/assembler_class.cpp:229-267 | entering, visiting and leaving a block brings the object back to the same node with both stacks as they were |
| AssemblerVisitor.Visitor.VisitLabel | assembler_disassembler/src/assembler_class.cpp:269-296 | the duplicate test and `find_or_insert` leave the table of the pure visitor |
| AssemblerVisitor.Visitor.VisitInstruction | assembler_disassembler/src/assembler_class.hpp:109-202 | the words of an instruction come out one after another as its bytes from the current address |
| AssemblerVisitor.Visitor.VisitData | assembler_disassembler/src/assembler_class.cpp:1220-1258 | `.db`, `.db16` and `.db8` emit the big-endian bytes of the number cut to their width |
| AssemblerVisitor.Visitor.Gen8 | assembler_disassembler/src/assembler_class.cpp:107-138 | one byte advances the address, and in pass 1 prints its mark, two digits and a newline |
| AssemblerVisitor.Visitor.Gen16 | assembler_disassembler/src/assembler_class.cpp:139-163 | a half is its two bytes high first in byte mode and one line in word mode |
| AssemblerVisitor.Visitor.Gen32 | assembler_disassembler/src/assembler_class.cpp:164-197 | a word is its four bytes high first in byte mode and one line of two halves in word mode |
| ScopedTables.ScopedTable.MkScope | assembler_disassembler/src/scoped_table_base_class.hpp:118-142 | a new last child that knows its parent; every other node and symbol unchanged |
| ScopedTables.ScopedTable.Find | assembler_disassembler/src/scoped_table_base_class.hpp:178-197 | the loop along the parents finds the innermost enclosing declaration, and never looks in the root |
| ScopedTables.ScopedTable.FindOrInsert | assembler_disassembler/src/scoped_table_base_class.hpp:226-242 | the symbol found outward, or a new one in the node itself |
| Generation.GenerateTwice | assembler_disassembler/src/assembler_class.cpp:107-138 | two runs of bytes generated in turn are one run, addresses modulo 2^64 included |
| Generation.BytesRebuild | assembler_disassembler/src/assembler_class.cpp:164-197 | the bytes generated for a number, joined high byte first, are its low bytes |
| HexText.LoadingReplays | assembler_disassembler/src/assembler_class.cpp:107-138 | for any bytes at any addresses, loading the printed text from where the printer started writes exactly those bytes in order |
| HexText.ImageReplays | liborangepower/src/prev_curr_pair_class.hpp:31-50 | for every program, loading byte mode's output from address 0 writes exactly the (address, byte) pairs of pass 1, across `.org` and `.space` |
| HexText.ImageMeans | assembler_disassembler/src/assembler_class.cpp:31-48 | for programs whose labels stay, the loaded image is the one their pass 0 addresses give, which for a label-free layout is the program's meaning |
| HexText.ImageIsReplay | assembler_disassembler/src/assembler_class.cpp:31-48 | for every program that assembles, shadowing or not, the loaded image is that of the replay |
| MemoryImage.AssembledCodeRuns | hdl/src/main_mem_module.src.sv:306-346 | in any memory that holds the printed bytes, a processor that comes to an instruction at an aligned address finds its words: a real one decodes to its operands with the values of pass 1, a pseudo one that does not compare `temp` has its documented effect |
| MemoryImage.InstructionIsLoaded | assembler_disassembler/src/assembler_class.cpp:164-197 | the bytes generated for words at a 64-bit address are those words at the processor's 32-bit address in the 2048-word memory |
| HexText.ConvertHexString | assembler_disassembler/src/disassembler_class.cpp:240-292 | the two loops return the number that the digits left after dropping `@` and spaces stand for, modulo 2^32, their count, or the exit on a bad character |
| HexText.FilteredKeeps | assembler_disassembler/src/disassembler_class.cpp:240-253 | dropping removes every `@` and space and no other character |
| HexText.DigitsAreSixteen | assembler_disassembler/src/disassembler_class.cpp:255-283 | the digits have the values 0 to 15 in lower and upper case, and no other character has one |
| WordText.ReadingReplays | assembler_disassembler/src/assembler_class.cpp:72-197 | for any numbers of 8, 16 or 32 bits at any addresses, reading word mode's text line by line gives exactly their bytes in order |
| Listing.WordReadsBack | assembler_disassembler/src/assembler_class.cpp:72-106 | every word printed in word mode is read back as eight digits with its value |
| Listing.Group0Relists | assembler_disassembler/src/assembler_class.hpp:109-121 | group 0: encoding, printing, parsing and the disassembler's field reads give the operands back |
| Listing.ThreeRegsRelists | assembler_disassembler/src/disassembler_class.hpp:110-147 | the same for groups 3, 4, 5 without an immediate, and 6 |
| Listing.TwoRegsImmRelists | assembler_disassembler/src/disassembler_class.hpp:92-109 | the same for groups 1 and 2, the immediate cut to 16 bits |
| Listing.LoadStoreImmRelists | assembler_disassembler/src/disassembler_class.hpp:130-147 | the same for group 5 with an immediate, read as the signed number of its low 12 bits, which is the number written if it fits |
| Encoding.DisassemblerAgrees | assembler_disassembler/src/disassembler_class.hpp:78-147 | for every word the disassembler's fields are the hardware decoder's slices |
| Encoding.Group0RoundTrip | hdl/src/instr_decoder_module.src.sv:51-69 | the hardware decodes an encoded group 0 instruction to the operands given |
| Encoding.ThreeRegsRoundTrip | hdl/src/instr_decoder_module.src.sv:107-190 | the same for groups 3 to 6 with three registers |
| Encoding.TwoRegsImmRoundTrip | hdl/src/instr_decoder_module.src.sv:70-106 | the same for groups 1 and 2 |
| Encoding.LoadStoreImmRoundTrip | hdl/src/instr_decoder_module.src.sv:141-161 | the same for group 5: the 16 bits stand for the signed number of the low 12 bits written |
| BitRanges.GetBitsReadsField | liborangepower/src/misc_bitwise_funcs.hpp:28-41 | mask and shift read exactly the bits of the range |
| BitRanges.ClearAndSetReplaces | liborangepower/src/misc_bitwise_funcs.hpp:43-59 | clear and set replace exactly the bits of the range by the low bits of the value |
| BitRanges.FieldIsSlice | liborangepower/src/misc_defines.hpp:6-11 | a range of bits is a division and a remainder by powers of two |
| Operands.AluImmediate | assembler_disassembler/src/assembler_class.cpp:424-535 | both passes over a group 1 instruction stop with its expression or emit one word, and pass 1's decodes to the operands written and the expression's value cut to 16 bits |
| Operands.BranchTarget | assembler_disassembler/src/assembler_class.cpp:536-564 | the same for a branch, whose field is the value less the address after the branch |
| Operands.BraTarget | assembler_disassembler/src/assembler_class.cpp:901-931 | the same for `bra`, which compares register 0 with itself |
| Operands.LoadStoreOffset | assembler_disassembler/src/assembler_class.cpp:646-672 | the same for loads and stores with an immediate: executed, the word addresses base plus the value of its low 12 bits |
| Operands.InvertedImmediate | assembler_disassembler/src/assembler_class.cpp:785-813 | `invi` emits one word that leaves the complement of the value's low 16 bits |
| Operands.CopiedImmediate | assembler_disassembler/src/assembler_class.cpp:848-875 | `cpyi` emits one word that leaves the value's low 16 bits |
| Operands.CopiedConstant | assembler_disassembler/src/assembler_class.cpp:876-900 | `cpya` emits two words that leave the value modulo 2^32 |
| Operands.JumpTarget | assembler_disassembler/src/assembler_class.cpp:980-1003 | `jmpa` emits three words that leave the value in register 12 and go there |
| Operands.CallTarget | assembler_disassembler/src/assembler_class.cpp:1004-1027 | `calla` does so too and leaves the address after its words in register 13 |
| Operands.ConditionalJumpTarget | assembler_disassembler/src/assembler_class.cpp:1028-1091 | the conditional jumps do so when the two registers compare as asked after register 12 has changed |
| Operands.ConditionalCallTarget | assembler_disassembler/src/assembler_class.cpp:1028-1091 | the same for the conditional calls |
| PseudoInstructions.RealInstructionsDecode | assembler_disassembler/src/assembler_class.hpp:109-216 | the hardware decodes what each real instruction emits to the operands written, their values cut to the field |
| PseudoInstructions.PseudoInstructionsExpand | assembler_disassembler/src/assembler_class.cpp:768-1118 | every pseudo instruction expands, word by word, to the real instructions documented for it, with their group and opcode numbers, registers and immediates |
| PseudoInstructions.PseudoMeans | assembler_disassembler/src/assembler_class.cpp:768-1118 | executing the emitted words has the documented effect of every pseudo instruction, clobbering only `temp`, unless a conditional form compares `temp` |
| PseudoInstructions.ConditionalMeansExactly | assembler_disassembler/src/assembler_class.cpp:1028-1091 | when a conditional absolute jump or call that names `temp` still does what is documented, both ways |
| PseudoInstructions.ConstantExecutes | assembler_disassembler/src/assembler_class.cpp:1891-1908 | `addi` and `cpyhi` of the halves leave the operand modulo 2^32 in the register, for negative operands too |
| PseudoInstructions.BranchReachesTarget | assembler_disassembler/src/assembler_class.cpp:1909-1922 | a taken branch reaches the target it was assembled for if and only if the offset modulo 2^32 fits in 16 signed bits, and no warning means that it fits |
| PseudoInstructions.BraReachesTarget | assembler_disassembler/src/assembler_class.cpp:901-931 | the same for `bra`, which is always taken |
| Splitting.SpacesAreSix | liborangepower/src/str_split_helper_classes.hpp:332-343 | white space is the six characters of the C locale |
| Splitting.FirstPairCloses | liborangepower/src/str_split_helper_classes.hpp:73-88 | a mark opens a word exactly if a pair starts with it, and the first such pair gives the closing mark |
| Splitting.BreaksExactly | liborangepower/src/str_split_helper_classes.hpp:548-567 | a plain word stops exactly before white space, a one-character word or a mark that opens a word |
| Splitting.Splitter.Increment | liborangepower/src/str_split_helper_classes.hpp:277-306 | the counters are always the run of backslashes before the index and one more than the newlines passed |
| Splitting.Splitter.FindStartOfWord | liborangepower/src/str_split_helper_classes.hpp:332-343 | skips exactly the white space |
| Splitting.Splitter.FindPosAfterEndOfWord | liborangepower/src/str_split_helper_classes.hpp:504-567 | ends one past the word: one character, up to the first closing mark after an even run of backslashes, or up to the first white space or word mark |
| Splitting.Splitter.Split | liborangepower/testing/src/cstm_ss_helper_testing.cpp:32-58 | driving the splitter to the end ends, and its words tile the string |
| Splitting.TilingIsUnique | liborangepower/src/str_split_helper_classes.hpp:504-567 | a string has only one tiling, so the words are determined |
| Splitting.TilingCovers | liborangepower/src/str_split_helper_classes.hpp:504-567 | every character that is not white space is in one of the words |

## Left out

- Lexing and parsing (ANTLR grammars), token spelling, the maps from register and instruction names to numbers, and
  the text of errors and warnings: programs start as an abstract syntax tree with numbers in place of names.
- LoadStoreCompletes: 8- and 16-bit accesses follow the code, where memory ignores the access size; nothing is
  claimed about what they should mean.
- Wait states: `wait_for_mem` is tied low in the memory, so `stop_mem_access` never runs.
- Unknown (`x`) values: registers the source does not initialise start at 0, as does the RAM output.
- PipelineRefines: in the theorems about the whole pipeline the order of the divider's two blocks is the same at
  every edge of a run; the divider's own theorems take any order at every edge.
- AssembledCodeRuns: how the printed bytes get into the 32-bit words of memory is not in the repository; that memory
  holds them, the first byte of a word highest, is a condition of the lemma.
- Arithmetic that C++17 leaves undefined (signed overflow, shift amounts outside the width, a left shift of a negative
  number or out of 64 bits, remainder by zero, and the least number by -1) stops the model with `Undefined`.
- LoadingReplays: the loader covers what section 21.4 of IEEE 1800-2012 says about `@`, hexadecimal digits and white
  space, with the address modulo 2^64; comments, underscores and `x` or `z` digits do not occur in printed text.
- ReadingReplays: the reader keeps 64-bit addresses, where the disassembler keeps the low 32 bits.
- The disassembler's printed text and its choice of instruction names, including its use of the group 4 names for
  group 6.
- PseudoMeans: the words of one pseudo instruction execute without an interrupt between them.
- ClearAndSetReplaces: the bit-range helpers work on values; the source updates a reference argument.
- Visitor.VisitExpr: when an error stops the assembler the source exits; the model returns the error and says nothing
  about the object.
- Forms `alu_op rA, rB` emit the words of the three-operand form with rA repeated and have no constructor of their own;
  three-operand `nor`, which its visitor rejects, is an ordinary opcode here.
- The splitter without escapes, whose loops are a special case, and the copy and move operations of the splitter.
- `$display` and `$finish` blocks, the test bench, clock generators, commented-out dividers, shifters and dual-port RAM,
  and the JSON, time, vector and array helpers.
