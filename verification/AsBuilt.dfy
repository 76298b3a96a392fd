/**
 * The sequential machine that the hardware implements, for every instruction word.
 *
 * It differs from the documented one in two places: a call reads its operands
 * after it may already have written `lr`, and a multiply by an immediate runs
 * under whatever stall state the previous stalling instruction left behind.
 * Both depend on three leftovers, kept in `Shadow`.
 */
module AsBuilt {
  import opened Words
  import opened InstrDecoder
  import opened MainMem
  import opened RegisterFile
  import opened Stages
  import opened Isa
  import Multiplier

  datatype Shadow = Shadow(last: StallState, flags: Flags, prod: Word)

  datatype Machine = Machine(arch: Arch, shadow: Shadow)

  function Reset(words: Memory): Machine {
    Machine(Arch(seq(16, _ => 0), words, 0, 0, 0, false), Shadow(StInit, NO_FLAGS, 0))
  }

  predicate IsMuli(i: Fields) {
    i.group == 1 && i.op == OP_MULI
  }

  predicate IsCall(i: Fields) {
    i.group == 4 && i.op < 10
  }

  /** The first comparison of a call: a signed one reads the flags of an earlier instruction. */
  function EarlyHolds(m: Machine, i: Fields): bool {
    Holds(i.op, OperandsIn(m.arch.regs, i), m.shadow.flags)
  }

  function WithReturnAddress(a: Arch): Regs {
    Put(a.regs, LR, NextPc(a))
  }

  /** The operands of a call once its early comparison has written `lr`. */
  function LateOperands(m: Machine, i: Fields): Ops {
    OperandsIn(if EarlyHolds(m, i) then WithReturnAddress(m.arch) else m.arch.regs, i)
  }

  function CallFlags(m: Machine, i: Fields): Flags {
    Compare(if SignedCondition(i.op) then LateOperands(m, i) else OperandsIn(m.arch.regs, i))
  }

  function CallAsBuilt(m: Machine, i: Fields): Machine {
    var late := LateOperands(m, i);
    var flags := CallFlags(m, i);
    var taken := Holds(i.op, late, flags);
    Machine(
      m.arch.(regs := if EarlyHolds(m, i) || taken then WithReturnAddress(m.arch) else m.arch.regs,
              pc := if taken then late.c else NextPc(m.arch)),
      m.shadow.(last := StCtrlFlowJumpCall, flags := flags))
  }

  /** While a multiply is in flight its target register shows the previous product. */
  function MuliOperands(m: Machine, i: Fields): Ops {
    OperandsIn(Put(m.arch.regs, i.ra, m.shadow.prod), i)
  }

  function MuliAsBuilt(m: Machine, i: Fields): Machine {
    var a := m.arch;
    var p := Multiplier.Product(Get(a.regs, i.rb), i.imm);
    var o := MuliOperands(m, i);
    var done := a.(regs := Put(a.regs, i.ra, p), pc := NextPc(a));
    var shadow := m.shadow.(prod := p);
    match m.shadow.last
    case StInit => Machine(done.(pc := 0), shadow)
    case StRespondToInterrupt => Machine(done.(pc := a.idsta, ie := false), shadow)
    case StReti => Machine(done.(pc := a.ireta, ie := true), shadow)
    case StOther => Machine(done, shadow)
    case StMulDiv => Machine(done, shadow)
    case StCtrlFlowBranch =>
      Machine(if o.a != o.b then done.(pc := Add(NextPc(a), SignExtend(i.imm))) else done,
              shadow.(flags := Compare(o)))
    case StCtrlFlowJumpCall =>
      Machine(if o.a != o.b then done.(pc := o.c) else done, shadow.(flags := Compare(o)))
    case StOtherInterruptsStuff => Machine(done.(ie := false), shadow)
    case StMemAccess => Machine(done, shadow)
  }

  /** The leftovers of every other instruction. */
  function ShadowAfter(s: Shadow, a: Arch, i: Fields): Shadow {
    var o := OperandsIn(a.regs, i);
    if !i.stalls then s
    else
      var t := s.(last := StallStateFor(i, s.last));
      if i.group == 0 && i.op == OP_MUL then t.(prod := Multiplier.Product(o.b, o.c))
      else if i.group == 3 || (i.group == 2 && SignedCondition(i.op)) then t.(flags := Compare(o))
      else t
  }

  function Exec(m: Machine): Machine {
    var i := InstrAt(m.arch);
    if IsMuli(i) then MuliAsBuilt(m, i)
    else if IsCall(i) then CallAsBuilt(m, i)
    else Machine(Isa.Exec(m.arch), ShadowAfter(m.shadow, m.arch, i))
  }

  function Interrupt(m: Machine): Machine {
    Machine(Isa.Interrupt(m.arch), m.shadow.(last := StRespondToInterrupt))
  }

  // ----- exactly when the hardware does what is documented -----

  predicate CallConforms(m: Machine, i: Fields) {
    var o := OperandsIn(m.arch.regs, i);
    var late := LateOperands(m, i);
    || !EarlyHolds(m, i)
    || m.arch.regs[LR] == NextPc(m.arch)
    || (Taken(i.op, o) && i.rc != LR && (Taken(i.op, late) || o.c == NextPc(m.arch)))
  }

  predicate MuliConforms(m: Machine, i: Fields) {
    var a := m.arch;
    var o := MuliOperands(m, i);
    match m.shadow.last
    case StInit => NextPc(a) == 0
    case StRespondToInterrupt => a.idsta == NextPc(a) && !a.ie
    case StReti => a.ireta == NextPc(a) && a.ie
    case StOther => true
    case StMulDiv => true
    case StCtrlFlowBranch => o.a == o.b || i.imm == 0
    case StCtrlFlowJumpCall => o.a == o.b || NextPc(a) == 0
    case StOtherInterruptsStuff => !a.ie
    case StMemAccess => true
  }

  predicate Conforms(m: Machine) {
    var i := InstrAt(m.arch);
    (IsMuli(i) ==> MuliConforms(m, i)) && (IsCall(i) ==> CallConforms(m, i))
  }

  lemma CallConformsExactly(m: Machine, i: Fields)
    requires IsCall(i)
    ensures (CallAsBuilt(m, i).arch == Isa.Call(m.arch, i, OperandsIn(m.arch.regs, i))) <==> CallConforms(m, i)
  {
  }

  lemma MuliConformsExactly(m: Machine, i: Fields)
    requires IsMuli(i) && WellFormed(i)
    ensures (MuliAsBuilt(m, i).arch == SetReg(m.arch, i.ra, AluImm(m.arch, i, OperandsIn(m.arch.regs, i))))
            <==> MuliConforms(m, i)
  {
    OffsetMoves(NextPc(m.arch), i.imm);
  }

  lemma OffsetMoves(pc: Word, imm: Half)
    ensures Add(pc, SignExtend(imm)) == pc <==> imm == 0
  {
  }

  /** The hardware's instruction is the documented one if and only if `Conforms`. */
  lemma ConformsExactly(m: Machine)
    ensures (Exec(m).arch == Isa.Exec(m.arch)) <==> Conforms(m)
  {
    var i := InstrAt(m.arch);
    DecodeWellFormed(Load(m.arch.mem, m.arch.pc));
    if IsCall(i) {
      CallConformsExactly(m, i);
    } else if IsMuli(i) {
      MuliConformsExactly(m, i);
    }
  }
}
