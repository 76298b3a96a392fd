/** The flat machine, flushed, is the sequential machine: one lemma for each kind of instruction. */
module Refinement {
  import opened Words
  import opened InstrDecoder
  import opened MainMem
  import opened RegisterFile
  import opened Stages
  import opened Pipeline
  import opened Isa
  import opened AsBuilt
  import Alu
  import Multiplier
  import Divider
  import DividerProofs

  /** Clocks until the next instruction is decoded, with no interrupt on the way. */
  function Flush(g: Config, f: Flat): Flat
    decreases f.core.counter
  {
    if f.core.counter == 0 then f else Flush(g, FlatStep(g, f, false))
  }

  predicate UnitsIdle(c: Core) {
    Multiplier.Idle(c.mul) && !c.mulIn.enable && Divider.Idle(c.div) && !c.divIn.enable
  }

  /** The word in decode is the memory word at its address, and the next one is on its way. */
  predicate FetchCoherent(c: Core) {
    && c.pc == Add(c.pcVal, 4)
    && c.bus.addr == c.pc && !c.bus.write
    && c.ram.out == Load(c.ram.words, c.pcVal)
  }

  ghost predicate Boundary(f: Flat) {
    && f.core.counter == 0
    && FetchCoherent(f.core)
    && UnitsIdle(f.core)
    && WellFormed(f.core.ex.f) && !f.core.ex.f.stalls
  }

  /** The registers once the instruction in the execute stage has been committed. */
  function Pending(g: Config, f: Flat): Regs {
    Commit(f.regs, Written(g, f.core, FlatOperands(f)))
  }

  function ArchOf(g: Config, f: Flat): Arch {
    Arch(Pending(g, f), f.core.ram.words, f.core.pcVal, f.core.ireta, f.core.idsta, f.core.ie)
  }

  function ShadowOf(f: Flat): Shadow {
    Shadow(f.core.state, f.core.flags, f.core.mul.prod)
  }

  function Abs(g: Config, f: Flat): Machine {
    Machine(ArchOf(g, f), ShadowOf(f))
  }

  /**
   * Instruction `i` of machine `m` is held in the execute stage with `n` clocks to go; `r` is what it has
   * made of the registers.
   */
  ghost predicate Held(f: Flat, m: Machine, i: Fields, r: Regs, n: nat) {
    var c := f.core;
    && i == InstrAt(m.arch) && WellFormed(i) && i.stalls
    && c.counter == n && c.state == StallStateFor(i, m.shadow.last)
    && f.regs == r && c.ram.words == m.arch.mem
    && c.ireta == m.arch.ireta && c.idsta == m.arch.idsta && c.ie == m.arch.ie
    && c.flags == m.shadow.flags
    && c.ex.f == i && c.ex.pc == m.arch.pc && Decode(c.ex.raw) == i
    && c.pc == NextPc(m.arch) && c.bus.addr == c.pc && !c.bus.write
  }

  /** The first execute cycle of a stalling instruction. */
  ghost predicate Issued(g: Config, f: Flat, m: Machine, i: Fields) {
    && Held(f, m, i, m.arch.regs, StallFor(g, i))
    && f.core.mul.prod == m.shadow.prod
    && UnitsIdle(f.core)
  }

  // ----- decode: what one unstalled edge does -----

  lemma UnitsStayIdle(g: Config, c: Core, o: Ops, interrupt: bool)
    requires UnitsIdle(c)
    requires !Execute(g, c, o).mulIn.enable && !Execute(g, c, o).divIn.enable
    ensures UnitsIdle(CoreStep(g, c, o, interrupt))
    ensures CoreStep(g, c, o, interrupt).mul.prod == c.mul.prod
  {
    DividerProofs.IdleStays(c.div, c.divIn, g.k, g.iterFirst);
  }

  lemma DecodeIssues(g: Config, f: Flat, interrupt: bool)
    requires Boundary(f) && !Accepts(f.core, interrupt)
    requires InstrAt(ArchOf(g, f)).stalls
    ensures Issued(g, FlatStep(g, f, interrupt), Abs(g, f), InstrAt(ArchOf(g, f)))
  {
    DecodeWellFormed(f.core.ram.out);
    UnitsStayIdle(g, f.core, FlatOperands(f), interrupt);
  }

  lemma DecodeRetires(g: Config, f: Flat, interrupt: bool)
    requires Boundary(f) && !Accepts(f.core, interrupt)
    requires !InstrAt(ArchOf(g, f)).stalls
    ensures Boundary(FlatStep(g, f, interrupt))
    ensures Abs(g, FlatStep(g, f, interrupt)) == AsBuilt.Exec(Abs(g, f))
  {
    hide Alu.Compute, Divider.Step, Multiplier.Step;
    DecodeWellFormed(f.core.ram.out);
    var a := ArchOf(g, f);
    if InstrAt(a).group == 1 {
      ExecuteGivesImmediateResult(a, InstrAt(a), OperandsIn(a.regs, InstrAt(a)));
    }
    UnitsStayIdle(g, f.core, FlatOperands(f), interrupt);
  }

  // ----- the last two clocks, common to every stall -----

  /** Where a flushed state has to arrive. */
  ghost predicate Completes(g: Config, f: Flat, m: Machine) {
    Boundary(Flush(g, f)) && Abs(g, Flush(g, f)) == m
  }

  /** The last clock of a stall: the target is being fetched and the instruction is about to become a bubble. */
  ghost predicate LastClock(g: Config, f: Flat, m: Machine) {
    var c := f.core;
    && c.counter == 1
    && c.pc == m.arch.pc && c.bus.addr == c.pc && !c.bus.write
    && WellFormed(c.ex.f)
    && Pending(g, f) == m.arch.regs && c.ram.words == m.arch.mem
    && c.ireta == m.arch.ireta && c.idsta == m.arch.idsta && c.ie == m.arch.ie
    && ShadowOf(f) == m.shadow
    && UnitsIdle(c) && !Execute(g, c, FlatOperands(f)).mulIn.enable && !Execute(g, c, FlatOperands(f)).divIn.enable
  }

  lemma LastClockCompletes(g: Config, f: Flat, m: Machine)
    requires LastClock(g, f, m)
    ensures Completes(g, f, m)
  {
    var b := FlatStep(g, f, false);
    UnitsStayIdle(g, f.core, FlatOperands(f), false);
    assert Boundary(b);
    BubbleDoesNothing(g, b);
    assert Flush(g, f) == b;
  }

  lemma BubbleDoesNothing(g: Config, f: Flat)
    requires f.core.ex.f.group == 0 && f.core.ex.f.ra == 0 && f.core.ex.f.op == 0
    ensures Pending(g, f) == f.regs
  {
  }

  /** A stalled clock is one step of the flush. */
  lemma StepCompletes(g: Config, f: Flat, m: Machine)
    requires f.core.counter != 0 && Completes(g, FlatStep(g, f, false), m)
    ensures Completes(g, f, m)
  {
    hide FlatStep, Boundary, Abs;
  }

  // ----- ei, di, reti and the copies to ireta and idsta -----

  lemma InterruptsStuffCompletes(g: Config, f: Flat, m: Machine, i: Fields)
    requires Issued(g, f, m, i) && i.group == 6
    ensures Completes(g, f, AsBuilt.Exec(m))
  {
    hide Alu.Compute, Divider.Step, Multiplier.Step;
    var f1 := FlatStep(g, f, false);
    UnitsStayIdle(g, f.core, FlatOperands(f), false);
    LastClockCompletes(g, f1, AsBuilt.Exec(m));
  }

  // ----- branches -----

  lemma BranchCompletes(g: Config, f: Flat, m: Machine, i: Fields)
    requires Issued(g, f, m, i) && i.group == 2 && !SignedCondition(i.op)
    ensures Completes(g, f, AsBuilt.Exec(m))
  {
    BranchAdderGivesTarget(m.arch, i);
    FlagsGiveConditions(i.op, OperandsIn(m.arch.regs, i));
    var f1 := FlatStep(g, f, false);
    UnitsStayIdle(g, f.core, FlatOperands(f), false);
    LastClockCompletes(g, f1, AsBuilt.Exec(m));
  }

  lemma SignedBranchCompletes(g: Config, f: Flat, m: Machine, i: Fields)
    requires Issued(g, f, m, i) && i.group == 2 && SignedCondition(i.op)
    ensures Completes(g, f, AsBuilt.Exec(m))
  {
    BranchAdderGivesTarget(m.arch, i);
    FlagsGiveConditions(i.op, OperandsIn(m.arch.regs, i));
    var f1 := FlatStep(g, f, false);
    UnitsStayIdle(g, f.core, FlatOperands(f), false);
    var f2 := FlatStep(g, f1, false);
    UnitsStayIdle(g, f1.core, FlatOperands(f1), false);
    LastClockCompletes(g, f2, AsBuilt.Exec(m));
  }

  // ----- jumps -----

  lemma JumpCompletes(g: Config, f: Flat, m: Machine, i: Fields)
    requires Issued(g, f, m, i) && i.group == 3 && !SignedCondition(i.op)
    ensures Completes(g, f, AsBuilt.Exec(m))
  {
    FlagsGiveConditions(i.op, OperandsIn(m.arch.regs, i));
    var f1 := FlatStep(g, f, false);
    UnitsStayIdle(g, f.core, FlatOperands(f), false);
    var f2 := FlatStep(g, f1, false);
    UnitsStayIdle(g, f1.core, FlatOperands(f1), false);
    LastClockCompletes(g, f2, AsBuilt.Exec(m));
  }

  lemma SignedJumpCompletes(g: Config, f: Flat, m: Machine, i: Fields)
    requires Issued(g, f, m, i) && i.group == 3 && SignedCondition(i.op)
    ensures Completes(g, f, AsBuilt.Exec(m))
  {
    var f1 := FlatStep(g, f, false);
    UnitsStayIdle(g, f.core, FlatOperands(f), false);
    assert Held(f1, m, i, m.arch.regs, 3);
    SignedJumpTail(g, f1, m, i);
  }

  lemma SignedJumpTail(g: Config, f: Flat, m: Machine, i: Fields)
    requires Held(f, m, i, m.arch.regs, 3) && UnitsIdle(f.core) && f.core.mul.prod == m.shadow.prod
    requires i.group == 3 && SignedCondition(i.op)
    ensures Completes(g, f, AsBuilt.Exec(m))
  {
    FlagsGiveConditions(i.op, OperandsIn(m.arch.regs, i));
    var f1 := FlatStep(g, f, false);
    UnitsStayIdle(g, f.core, FlatOperands(f), false);
    var f2 := FlatStep(g, f1, false);
    UnitsStayIdle(g, f1.core, FlatOperands(f1), false);
    LastClockCompletes(g, f2, AsBuilt.Exec(m));
  }

  // ----- calls -----

  lemma CallCompletes(g: Config, f: Flat, m: Machine, i: Fields)
    requires Issued(g, f, m, i) && i.group == 4 && !SignedCondition(i.op)
    ensures Completes(g, f, AsBuilt.Exec(m))
  {
    var f1 := FlatStep(g, f, false);
    UnitsStayIdle(g, f.core, FlatOperands(f), false);
    var f2 := FlatStep(g, f1, false);
    UnitsStayIdle(g, f1.core, FlatOperands(f1), false);
    LastClockCompletes(g, f2, AsBuilt.Exec(m));
  }

  lemma SignedCallCompletes(g: Config, f: Flat, m: Machine, i: Fields)
    requires Issued(g, f, m, i) && i.group == 4 && SignedCondition(i.op)
    ensures Completes(g, f, AsBuilt.Exec(m))
  {
    var f1 := FlatStep(g, f, false);
    UnitsStayIdle(g, f.core, FlatOperands(f), false);
    assert Held(f1, m, i, if EarlyHolds(m, i) then WithReturnAddress(m.arch) else m.arch.regs, 3);
    SignedCallTail(g, f1, m, i);
  }

  lemma SignedCallTail(g: Config, f: Flat, m: Machine, i: Fields)
    requires Held(f, m, i, if EarlyHolds(m, i) then WithReturnAddress(m.arch) else m.arch.regs, 3)
    requires UnitsIdle(f.core) && f.core.mul.prod == m.shadow.prod
    requires i.group == 4 && SignedCondition(i.op)
    ensures Completes(g, f, AsBuilt.Exec(m))
  {
    hide FlatStep, AsBuilt.Exec, Boundary, Abs;
    var f1 := FlatStep(g, f, false);
    SignedCallCaptures(g, f, m, i);
    SignedCallEnds(g, f1, m, i);
    LastClockCompletes(g, FlatStep(g, f1, false), AsBuilt.Exec(m));
    StepCompletes(g, f1, AsBuilt.Exec(m));
    StepCompletes(g, f, AsBuilt.Exec(m));
  }

  /** Two clocks to go: the call's own flags have been captured. */
  ghost predicate CallCaptured(f: Flat, m: Machine, i: Fields) {
    var c := f.core;
    && i == InstrAt(m.arch) && WellFormed(i) && i.stalls && i.group == 4 && SignedCondition(i.op)
    && c.counter == 2 && c.state == StCtrlFlowJumpCall
    && f.regs == (if EarlyHolds(m, i) then WithReturnAddress(m.arch) else m.arch.regs)
    && c.ram.words == m.arch.mem
    && c.ireta == m.arch.ireta && c.idsta == m.arch.idsta && c.ie == m.arch.ie
    && c.flags == CallFlags(m, i) && c.ex.f == i && c.ex.pc == m.arch.pc && Decode(c.ex.raw) == i && !c.bus.write
    && UnitsIdle(c) && c.mul.prod == m.shadow.prod
  }

  lemma SignedCallCaptures(g: Config, f: Flat, m: Machine, i: Fields)
    requires Held(f, m, i, if EarlyHolds(m, i) then WithReturnAddress(m.arch) else m.arch.regs, 3)
    requires UnitsIdle(f.core) && f.core.mul.prod == m.shadow.prod
    requires i.group == 4 && SignedCondition(i.op)
    ensures f.core.counter != 0 && CallCaptured(FlatStep(g, f, false), m, i)
  {
    UnitsStayIdle(g, f.core, FlatOperands(f), false);
  }

  lemma SignedCallEnds(g: Config, f: Flat, m: Machine, i: Fields)
    requires CallCaptured(f, m, i)
    ensures f.core.counter != 0 && LastClock(g, FlatStep(g, f, false), AsBuilt.Exec(m))
  {
    UnitsStayIdle(g, f.core, FlatOperands(f), false);
  }

  // ----- loads and stores -----

  /** Two clocks to go: the access is on the bus. */
  ghost predicate Accessing(f: Flat, m: Machine, i: Fields) {
    var c, o := f.core, OperandsIn(m.arch.regs, i);
    && i == InstrAt(m.arch) && WellFormed(i) && i.stalls && i.group == 5
    && c.counter == 2 && c.state == StMemAccess
    && f.regs == m.arch.regs && c.ram.words == m.arch.mem
    && c.ireta == m.arch.ireta && c.idsta == m.arch.idsta && c.ie == m.arch.ie
    && c.flags == m.shadow.flags
    && c.ex.f == i && c.ex.pc == m.arch.pc && Decode(c.ex.raw) == i
    && c.bus.addr == EffectiveAddress(i, o) && (c.bus.write <==> i.ldst >= 5) && (c.bus.write ==> c.bus.data == o.a)
    && UnitsIdle(c) && c.mul.prod == m.shadow.prod
  }

  lemma AccessStarts(g: Config, f: Flat, m: Machine, i: Fields)
    requires Issued(g, f, m, i) && i.group == 5
    ensures f.core.counter != 0 && Accessing(FlatStep(g, f, false), m, i)
  {
    AddressAdderGivesAddress(i, OperandsIn(m.arch.regs, i));
    UnitsStayIdle(g, f.core, FlatOperands(f), false);
  }

  lemma AccessEnds(g: Config, f: Flat, m: Machine, i: Fields)
    requires Accessing(f, m, i)
    ensures f.core.counter != 0 && LastClock(g, FlatStep(g, f, false), AsBuilt.Exec(m))
  {
    UnitsStayIdle(g, f.core, FlatOperands(f), false);
  }

  lemma LoadStoreCompletes(g: Config, f: Flat, m: Machine, i: Fields)
    requires Issued(g, f, m, i) && i.group == 5
    ensures Completes(g, f, AsBuilt.Exec(m))
  {
    hide FlatStep, AsBuilt.Exec, Boundary, Abs;
    var f1 := FlatStep(g, f, false);
    AccessStarts(g, f, m, i);
    AccessEnds(g, f1, m, i);
    LastClockCompletes(g, FlatStep(g, f1, false), AsBuilt.Exec(m));
    StepCompletes(g, f1, AsBuilt.Exec(m));
    StepCompletes(g, f, AsBuilt.Exec(m));
  }

  // ----- multiplies -----

  predicate IsMultiply(i: Fields) {
    (i.group == 0 && i.op == OP_MUL) || IsMuli(i)
  }

  function Multiplicand(m: Machine, i: Fields): Word {
    if i.group == 0 then Get(m.arch.regs, i.rc) else i.imm
  }

  /** Three clocks to go: the operands are in the unit, and the target register shows the previous product. */
  ghost predicate Multiplying(f: Flat, m: Machine, i: Fields) {
    var c := f.core;
    && IsMultiply(i)
    && Held(f, m, i, Put(m.arch.regs, i.ra, m.shadow.prod), 3)
    && !c.mulIn.enable && !c.mul.canAccept && c.mul.state == 1
    && c.mul.x == Get(m.arch.regs, i.rb) && c.mul.y == Multiplicand(m, i)
    && c.mul.prod == m.shadow.prod
    && Divider.Idle(c.div) && !c.divIn.enable
  }

  /** Four clocks to go: the operands are on their way to the unit, and the target register shows zero. */
  ghost predicate Requested(f: Flat, m: Machine, i: Fields) {
    var c := f.core;
    && IsMultiply(i)
    && Held(f, m, i, Put(m.arch.regs, i.ra, 0), 4)
    && c.mulIn == Multiplier.MulIn(true, Get(m.arch.regs, i.rb), Multiplicand(m, i))
    && c.mul.canAccept && c.mul.prod == m.shadow.prod
    && Divider.Idle(c.div) && !c.divIn.enable
  }

  lemma MultiplyIsRequested(g: Config, f: Flat, m: Machine, i: Fields)
    requires Issued(g, f, m, i) && IsMultiply(i)
    ensures f.core.counter != 0 && Requested(FlatStep(g, f, false), m, i)
  {
    hide Alu.Compute, Divider.Step;
    DividerProofs.IdleStays(f.core.div, f.core.divIn, g.k, g.iterFirst);
  }

  lemma MultiplyIsAccepted(g: Config, f: Flat, m: Machine, i: Fields)
    requires Requested(f, m, i)
    ensures f.core.counter != 0 && Multiplying(FlatStep(g, f, false), m, i)
  {
    hide Alu.Compute, Divider.Step;
    DividerProofs.IdleStays(f.core.div, f.core.divIn, g.k, g.iterFirst);
    PutOver(m.arch.regs, i.ra, 0, m.shadow.prod);
  }

  lemma PutOver(r: Regs, i: Nibble, v: Word, w: Word)
    ensures Put(Put(r, i, v), i, w) == Put(r, i, w)
  {
  }

  /** The product is on the output exactly at the last clock. */
  lemma ProductArrives(g: Config, f: Flat, m: Machine, i: Fields)
    requires Multiplying(f, m, i)
    ensures var f1 := FlatStep(g, f, false);
            var c := FlatStep(g, f1, false).core;
            && f1.core.mul.prod == m.shadow.prod
            && c.mul.prod == Multiplier.Product(Get(m.arch.regs, i.rb), Multiplicand(m, i))
            && UnitsIdle(c)
  {
    var f1 := FlatStep(g, f, false);
    Multiplier.PartialProductsCombine(f.core.mul.x, f.core.mul.y);
    DividerProofs.IdleStays(f.core.div, f.core.divIn, g.k, g.iterFirst);
    DividerProofs.IdleStays(f1.core.div, f1.core.divIn, g.k, g.iterFirst);
  }

  /** Two clocks to go: as before, but a control-flow stall state has captured flags. */
  ghost predicate MultiplyEnding(f: Flat, m: Machine, i: Fields) {
    var c := f.core;
    && i == InstrAt(m.arch) && WellFormed(i) && i.stalls && IsMultiply(i)
    && c.counter == 2 && c.state == StallStateFor(i, m.shadow.last)
    && f.regs == Put(m.arch.regs, i.ra, m.shadow.prod) && c.ram.words == m.arch.mem
    && c.ireta == m.arch.ireta && c.idsta == m.arch.idsta && c.ie == m.arch.ie
    && c.flags == (if c.state == StCtrlFlowBranch || c.state == StCtrlFlowJumpCall then Compare(MuliOperands(m, i))
                   else m.shadow.flags)
    && c.ex.f == i && c.ex.pc == m.arch.pc && Decode(c.ex.raw) == i && !c.bus.write
    && c.mul.prod == m.shadow.prod
    && (c.state == StOther ==> c.pc == NextPc(m.arch) && c.bus.addr == c.pc)
  }

  lemma MultiplyWaits(g: Config, f: Flat, m: Machine, i: Fields)
    requires Multiplying(f, m, i)
    ensures f.core.counter != 0 && MultiplyEnding(FlatStep(g, f, false), m, i)
  {
    hide Alu.Compute, Divider.Step, Multiplier.Step;
    ProductArrives(g, f, m, i);
    PutOver(m.arch.regs, i.ra, m.shadow.prod, m.shadow.prod);
  }

  /** What the units give at the last clock of a multiply. */
  ghost predicate ProductReady(c: Core, m: Machine, i: Fields) {
    UnitsIdle(c) && c.mul.prod == Multiplier.Product(Get(m.arch.regs, i.rb), Multiplicand(m, i))
  }

  lemma MultiplyEnds(g: Config, f: Flat, m: Machine, i: Fields)
    requires MultiplyEnding(f, m, i) && ProductReady(FlatStep(g, f, false).core, m, i)
    requires i.group == 0
    ensures f.core.counter != 0 && LastClock(g, FlatStep(g, f, false), AsBuilt.Exec(m))
  {
    var product := Multiplier.Product(Get(m.arch.regs, i.rb), Multiplicand(m, i));
    PutOver(m.arch.regs, i.ra, m.shadow.prod, m.shadow.prod);
    PutOver(m.arch.regs, i.ra, m.shadow.prod, product);
  }

  lemma MuliUnderBranch(g: Config, f: Flat, m: Machine, i: Fields)
    requires MultiplyEnding(f, m, i) && ProductReady(FlatStep(g, f, false).core, m, i)
    requires IsMuli(i) && m.shadow.last == StCtrlFlowBranch
    ensures f.core.counter != 0 && LastClock(g, FlatStep(g, f, false), AsBuilt.Exec(m))
  {
    var product := Multiplier.Product(Get(m.arch.regs, i.rb), Multiplicand(m, i));
    PutOver(m.arch.regs, i.ra, m.shadow.prod, m.shadow.prod);
    PutOver(m.arch.regs, i.ra, m.shadow.prod, product);
  }

  lemma MuliUnderJumpCall(g: Config, f: Flat, m: Machine, i: Fields)
    requires MultiplyEnding(f, m, i) && ProductReady(FlatStep(g, f, false).core, m, i)
    requires IsMuli(i) && m.shadow.last == StCtrlFlowJumpCall
    ensures f.core.counter != 0 && LastClock(g, FlatStep(g, f, false), AsBuilt.Exec(m))
  {
    var product := Multiplier.Product(Get(m.arch.regs, i.rb), Multiplicand(m, i));
    PutOver(m.arch.regs, i.ra, m.shadow.prod, m.shadow.prod);
    PutOver(m.arch.regs, i.ra, m.shadow.prod, product);
  }

  lemma MuliUnderMulDiv(g: Config, f: Flat, m: Machine, i: Fields)
    requires MultiplyEnding(f, m, i) && ProductReady(FlatStep(g, f, false).core, m, i)
    requires IsMuli(i) && m.shadow.last == StMulDiv
    ensures f.core.counter != 0 && LastClock(g, FlatStep(g, f, false), AsBuilt.Exec(m))
  {
    var product := Multiplier.Product(Get(m.arch.regs, i.rb), Multiplicand(m, i));
    PutOver(m.arch.regs, i.ra, m.shadow.prod, m.shadow.prod);
    PutOver(m.arch.regs, i.ra, m.shadow.prod, product);
  }

  lemma MuliUnderMemAccess(g: Config, f: Flat, m: Machine, i: Fields)
    requires MultiplyEnding(f, m, i) && ProductReady(FlatStep(g, f, false).core, m, i)
    requires IsMuli(i) && m.shadow.last == StMemAccess
    ensures f.core.counter != 0 && LastClock(g, FlatStep(g, f, false), AsBuilt.Exec(m))
  {
    hide Alu.Compute, Divider.Step, Multiplier.Step;
    var product := Multiplier.Product(Get(m.arch.regs, i.rb), Multiplicand(m, i));
    PutOver(m.arch.regs, i.ra, m.shadow.prod, m.shadow.prod);
    PutOver(m.arch.regs, i.ra, m.shadow.prod, product);
  }

  lemma MuliUnderOther(g: Config, f: Flat, m: Machine, i: Fields)
    requires MultiplyEnding(f, m, i) && ProductReady(FlatStep(g, f, false).core, m, i)
    requires IsMuli(i) && m.shadow.last == StOther
    ensures f.core.counter != 0 && LastClock(g, FlatStep(g, f, false), AsBuilt.Exec(m))
  {
    var product := Multiplier.Product(Get(m.arch.regs, i.rb), Multiplicand(m, i));
    PutOver(m.arch.regs, i.ra, m.shadow.prod, m.shadow.prod);
    PutOver(m.arch.regs, i.ra, m.shadow.prod, product);
  }

  lemma MuliUnderRedirect(g: Config, f: Flat, m: Machine, i: Fields)
    requires MultiplyEnding(f, m, i) && ProductReady(FlatStep(g, f, false).core, m, i)
    requires IsMuli(i) && m.shadow.last in {StInit, StReti, StRespondToInterrupt, StOtherInterruptsStuff}
    ensures f.core.counter != 0 && LastClock(g, FlatStep(g, f, false), AsBuilt.Exec(m))
  {
    var product := Multiplier.Product(Get(m.arch.regs, i.rb), Multiplicand(m, i));
    PutOver(m.arch.regs, i.ra, m.shadow.prod, m.shadow.prod);
    PutOver(m.arch.regs, i.ra, m.shadow.prod, product);
  }

  lemma MultiplyLast(g: Config, f: Flat, m: Machine, i: Fields)
    requires MultiplyEnding(f, m, i) && ProductReady(FlatStep(g, f, false).core, m, i)
    ensures f.core.counter != 0 && LastClock(g, FlatStep(g, f, false), AsBuilt.Exec(m))
  {
    hide FlatStep, AsBuilt.Exec, LastClock, ProductReady;
    if i.group == 0 {
      MultiplyEnds(g, f, m, i);
    } else {
      match m.shadow.last
      case StCtrlFlowBranch => MuliUnderBranch(g, f, m, i);
      case StCtrlFlowJumpCall => MuliUnderJumpCall(g, f, m, i);
      case StMulDiv => MuliUnderMulDiv(g, f, m, i);
      case StMemAccess => MuliUnderMemAccess(g, f, m, i);
      case StOther => MuliUnderOther(g, f, m, i);
      case _ => MuliUnderRedirect(g, f, m, i);
    }
  }

  lemma MultiplyTail(g: Config, f: Flat, m: Machine, i: Fields)
    requires Multiplying(f, m, i)
    ensures Completes(g, f, AsBuilt.Exec(m))
  {
    hide FlatStep, AsBuilt.Exec, Boundary, Abs, MultiplyEnding, LastClock;
    var f1 := FlatStep(g, f, false);
    MultiplyWaits(g, f, m, i);
    ProductArrives(g, f, m, i);
    MultiplyLast(g, f1, m, i);
    LastClockCompletes(g, FlatStep(g, f1, false), AsBuilt.Exec(m));
    StepCompletes(g, f1, AsBuilt.Exec(m));
    StepCompletes(g, f, AsBuilt.Exec(m));
  }

  lemma AnyMultiplyCompletes(g: Config, f: Flat, m: Machine, i: Fields)
    requires Issued(g, f, m, i) && IsMultiply(i)
    ensures Completes(g, f, AsBuilt.Exec(m))
  {
    hide FlatStep, AsBuilt.Exec, Boundary, Abs, Requested, Multiplying;
    var f1 := FlatStep(g, f, false);
    MultiplyIsRequested(g, f, m, i);
    MultiplyIsAccepted(g, f1, m, i);
    MultiplyTail(g, FlatStep(g, f1, false), m, i);
    StepCompletes(g, f1, AsBuilt.Exec(m));
    StepCompletes(g, f, AsBuilt.Exec(m));
  }

  lemma MultiplyCompletes(g: Config, f: Flat, m: Machine, i: Fields)
    requires Issued(g, f, m, i) && i.group == 0 && i.op == OP_MUL
    ensures Completes(g, f, AsBuilt.Exec(m))
  {
    hide AsBuilt.Exec, Completes;
    AnyMultiplyCompletes(g, f, m, i);
  }

  lemma MuliCompletes(g: Config, f: Flat, m: Machine, i: Fields)
    requires Issued(g, f, m, i) && IsMuli(i)
    ensures Completes(g, f, AsBuilt.Exec(m))
  {
    hide AsBuilt.Exec, Completes;
    AnyMultiplyCompletes(g, f, m, i);
  }

  // ----- divides -----

  predicate IsDivide(i: Fields) {
    i.group == 0 && (i.op == OP_UDIV || i.op == OP_SDIV)
  }

  function Request(m: Machine, i: Fields): Divider.DivIn {
    Divider.DivIn(true, i.op == OP_SDIV, Get(m.arch.regs, i.rb), Get(m.arch.regs, i.rc))
  }

  /** The divider has run for all but `n` clocks of its budget. */
  ghost predicate DividerAt(g: Config, c: Core, r: Divider.DivIn, n: nat) {
    && 1 <= n < StallDivide(g) && r.enable
    && c.divIn == r.(enable := n == StallDivide(g) - 1)
    && (if n == StallDivide(g) - 1 then Divider.Idle(c.div)
        else DividerProofs.InFlight(c.div, r, g.k, g.iterFirst, StallDivide(g) - 1 - n))
  }

  ghost predicate MultiplierQuiet(c: Core, prod: Word) {
    c.mul.prod == prod && Multiplier.Idle(c.mul) && !c.mulIn.enable
  }

  /** `n` clocks to go. */
  ghost predicate Dividing(g: Config, f: Flat, m: Machine, i: Fields, v: Word, n: nat) {
    && IsDivide(i)
    && Held(f, m, i, Put(m.arch.regs, i.ra, v), n)
    && MultiplierQuiet(f.core, m.shadow.prod)
    && DividerAt(g, f.core, Request(m, i), n)
  }

  lemma DividerWires(g: Config, c: Core, o: Ops)
    ensures CoreStep(g, c, o, false).divIn == Execute(g, c, o).divIn
    ensures CoreStep(g, c, o, false).div == Divider.Step(c.div, c.divIn, g.k, g.iterFirst)
  {
  }

  lemma DividerAdvances(g: Config, c: Core, o: Ops, r: Divider.DivIn, n: nat)
    requires DividerAt(g, c, r, n) && n > 1
    requires Execute(g, c, o).divIn == r.(enable := false)
    ensures DividerAt(g, CoreStep(g, c, o, false), r, n - 1)
  {
    hide Stages.CoreStep, Divider.Step, DividerProofs.InFlight, Divider.Idle;
    DividerWires(g, c, o);
    if n == StallDivide(g) - 1 {
      DividerProofs.RequestIsTaken(c.div, c.divIn, g.k, g.iterFirst, g.iterFirst);
    } else {
      DividerProofs.InFlightStep(c.div, r, c.divIn, g.k, g.iterFirst, StallDivide(g) - 1 - n, g.iterFirst);
    }
  }

  lemma DividerFinished(g: Config, c: Core, r: Divider.DivIn)
    requires DividerAt(g, c, r, 1)
    ensures !c.divIn.enable && DividerProofs.Done(c.div, r)
  {
  }

  lemma DivideStarts(g: Config, f: Flat, m: Machine, i: Fields)
    requires Issued(g, f, m, i) && IsDivide(i)
    ensures Dividing(g, FlatStep(g, f, false), m, i, 0, StallDivide(g) - 1)
  {
    DividerProofs.IdleStays(f.core.div, f.core.divIn, g.k, g.iterFirst);
  }

  function DividerOutput(c: Core): Word {
    if c.divIn.denom != 0 then c.div.ctl.quot else 0
  }

  lemma DivideHolds(g: Config, f: Flat, m: Machine, i: Fields, v: Word, n: nat)
    requires IsDivide(i) && 2 < n < StallDivide(g)
    requires Held(f, m, i, Put(m.arch.regs, i.ra, v), n)
    requires MultiplierQuiet(f.core, m.shadow.prod)
    ensures Held(FlatStep(g, f, false), m, i, Put(m.arch.regs, i.ra, DividerOutput(f.core)), n - 1)
    ensures MultiplierQuiet(FlatStep(g, f, false).core, m.shadow.prod)
  {
  }

  lemma DivideAdvances(g: Config, f: Flat, m: Machine, i: Fields, v: Word, n: nat)
    requires Dividing(g, f, m, i, v, n) && n > 2
    ensures Dividing(g, FlatStep(g, f, false), m, i, DividerOutput(f.core), n - 1)
  {
    DivideHolds(g, f, m, i, v, n);
    DividerAdvances(g, f.core, FlatOperands(f), Request(m, i), n);
  }

  /** The last write is at the last clock, and by then the quotient is on the output. */
  lemma DivideTail(g: Config, f: Flat, m: Machine, i: Fields, v: Word)
    requires Dividing(g, f, m, i, v, 2)
    ensures Completes(g, f, AsBuilt.Exec(m))
  {
    var f1 := FlatStep(g, f, false);
    DividerAdvances(g, f.core, FlatOperands(f), Request(m, i), 2);
    DividerFinished(g, f1.core, Request(m, i));
    DivideLastClock(g, f, m, i, v);
    LastClockCompletes(g, f1, AsBuilt.Exec(m));
  }

  lemma DivideLastClock(g: Config, f: Flat, m: Machine, i: Fields, v: Word)
    requires IsDivide(i) && Held(f, m, i, Put(m.arch.regs, i.ra, v), 2)
    requires MultiplierQuiet(f.core, m.shadow.prod)
    requires f.core.divIn == Request(m, i).(enable := false)
    requires DividerProofs.Done(FlatStep(g, f, false).core.div, Request(m, i))
    ensures LastClock(g, FlatStep(g, f, false), AsBuilt.Exec(m))
  {
  }

  lemma {:induction false} DivideRuns(g: Config, f: Flat, m: Machine, i: Fields, v: Word, n: nat)
    requires Dividing(g, f, m, i, v, n) && n >= 2
    ensures Completes(g, f, AsBuilt.Exec(m))
    decreases n
  {
    if n == 2 {
      DivideTail(g, f, m, i, v);
    } else {
      DivideAdvances(g, f, m, i, v, n);
      DivideRuns(g, FlatStep(g, f, false), m, i, DividerOutput(f.core), n - 1);
    }
  }

  lemma DivideCompletes(g: Config, f: Flat, m: Machine, i: Fields)
    requires Issued(g, f, m, i) && IsDivide(i)
    ensures Completes(g, f, AsBuilt.Exec(m))
  {
    DivideStarts(g, f, m, i);
    DivideRuns(g, FlatStep(g, f, false), m, i, 0, StallDivide(g) - 1);
  }

  // ----- interrupts -----

  lemma InterruptCompletes(g: Config, f: Flat)
    requires Boundary(f) && Accepts(f.core, true)
    ensures Completes(g, FlatStep(g, f, true), AsBuilt.Interrupt(Abs(g, f)))
  {
    var f1 := FlatStep(g, f, true);
    UnitsStayIdle(g, f.core, FlatOperands(f), true);
    var f2 := FlatStep(g, f1, false);
    UnitsStayIdle(g, f1.core, FlatOperands(f1), false);
    LastClockCompletes(g, f2, AsBuilt.Interrupt(Abs(g, f)));
  }

  // ----- every instruction -----

  lemma IssuedCompletes(g: Config, f: Flat, m: Machine, i: Fields)
    requires Issued(g, f, m, i)
    ensures Completes(g, f, AsBuilt.Exec(m))
  {
    if i.group == 0 && i.op == OP_MUL {
      MultiplyCompletes(g, f, m, i);
    } else if i.group == 0 {
      DivideCompletes(g, f, m, i);
    } else if i.group == 1 {
      MuliCompletes(g, f, m, i);
    } else if i.group == 2 {
      if SignedCondition(i.op) { SignedBranchCompletes(g, f, m, i); } else { BranchCompletes(g, f, m, i); }
    } else if i.group == 3 {
      if SignedCondition(i.op) { SignedJumpCompletes(g, f, m, i); } else { JumpCompletes(g, f, m, i); }
    } else if i.group == 4 {
      if SignedCondition(i.op) { SignedCallCompletes(g, f, m, i); } else { CallCompletes(g, f, m, i); }
    } else if i.group == 5 {
      LoadStoreCompletes(g, f, m, i);
    } else {
      InterruptsStuffCompletes(g, f, m, i);
    }
  }

  /** What the sequential machine does at a boundary. */
  function Next(m: Machine, interrupt: bool): Machine {
    if m.arch.ie && interrupt then AsBuilt.Interrupt(m) else AsBuilt.Exec(m)
  }

  /** One decode, run to the next boundary, is one step of the sequential machine. */
  lemma BoundaryStep(g: Config, f: Flat, interrupt: bool)
    requires Boundary(f)
    ensures Completes(g, FlatStep(g, f, interrupt), Next(Abs(g, f), interrupt))
  {
    if Accepts(f.core, interrupt) {
      InterruptCompletes(g, f);
    } else if InstrAt(ArchOf(g, f)).stalls {
      DecodeIssues(g, f, interrupt);
      IssuedCompletes(g, FlatStep(g, f, interrupt), Abs(g, f), InstrAt(ArchOf(g, f)));
    } else {
      DecodeRetires(g, f, interrupt);
    }
  }
}
