/** The instruction set as documented: one instruction at a time, no pipeline. */
module Isa {
  import opened Words
  import opened InstrDecoder
  import opened MainMem
  import opened RegisterFile
  import opened Stages
  import Alu
  import Multiplier
  import DividerProofs

  datatype Arch = Arch(regs: Regs, mem: Memory, pc: Word, ireta: Word, idsta: Word, ie: bool)

  function InstrAt(a: Arch): Fields {
    Decode(Load(a.mem, a.pc))
  }

  function OperandsIn(r: Regs, i: Fields): Ops {
    Ops(Get(r, i.ra), Get(r, i.rb), Get(r, i.rc))
  }

  function NextPc(a: Arch): Word {
    Add(a.pc, 4)
  }

  /** Division by zero gives zero. */
  function DivideOrZero(signed: bool, n: Word, d: Word): Word {
    if d == 0 then 0 else DividerProofs.Quotient(signed, n, d)
  }

  /** The ten conditions of branches, jumps and calls, over the operands as they are before the instruction. */
  predicate Taken(cond: Nibble, o: Ops) {
    match cond
    case 0 => o.a != o.b
    case 1 => o.a == o.b
    case 2 => o.a < o.b
    case 3 => o.a >= o.b
    case 4 => o.a <= o.b
    case 5 => o.a > o.b
    case 6 => Signed(o.a) < Signed(o.b)
    case 7 => Signed(o.a) >= Signed(o.b)
    case 8 => Signed(o.a) <= Signed(o.b)
    case 9 => Signed(o.a) > Signed(o.b)
    case _ => false
  }

  /** The two branch opcodes after `bgts` test the interrupt enable bit. */
  predicate BranchTaken(cond: Nibble, o: Ops, ie: bool) {
    Taken(cond, o) || (cond == 10 && ie) || (cond == 11 && !ie)
  }

  /** A 16-bit immediate as a signed number. */
  function Simm(h: Half): int {
    if h < 0x8000 then h else h - 0x1_0000
  }

  function Alu3(op: Nibble, b: Word, c: Word): Word {
    if op == OP_MUL then Multiplier.Product(b, c)
    else if op == OP_UDIV then DivideOrZero(false, b, c)
    else if op == OP_SDIV then DivideOrZero(true, b, c)
    else Alu.Compute(op, b, c)
  }

  /** Only the two signed comparisons take a signed immediate. */
  function AluImm(a: Arch, i: Fields, o: Ops): Word {
    if i.op == OP_MULI then Multiplier.Product(o.b, i.imm)
    else if i.op == OP_CPYHI then i.imm * 0x1_0000 + o.a % 0x1_0000
    else if i.op == OP_ADDSI then Wrap(a.pc + Simm(i.imm))
    else if i.op == 3 || i.op == 5 then Alu.Compute(i.op, o.b, Wrap(Simm(i.imm)))
    else Alu.Compute(i.op, o.b, i.imm)
  }

  function BranchTarget(a: Arch, i: Fields): Word {
    Wrap(a.pc + 4 + Simm(i.imm))
  }

  /** Register indexed below opcode 8, immediate indexed from there on. */
  function EffectiveAddress(i: Fields, o: Ops): Word {
    if i.op < 8 then Wrap(o.b + o.c) else Wrap(o.b + Simm(i.imm))
  }

  function SetReg(a: Arch, r: Nibble, v: Word): Arch {
    a.(regs := Put(a.regs, r, v), pc := NextPc(a))
  }

  function GoTo(a: Arch, cond: bool, target: Word): Arch {
    a.(pc := if cond then target else NextPc(a))
  }

  function LoadOrStore(a: Arch, i: Fields, o: Ops): Arch {
    var addr := EffectiveAddress(i, o);
    if i.ldst < 5 then SetReg(a, i.ra, LoadedValue(i.ldst, Load(a.mem, addr)))
    else a.(mem := Store(a.mem, addr, o.a), pc := NextPc(a))
  }

  function InterruptsStuff(a: Arch, i: Fields, o: Ops): Arch {
    match i.op
    case 0 => a.(ie := true, pc := NextPc(a))
    case 1 => a.(ie := false, pc := NextPc(a))
    case 2 => a.(ireta := o.a, pc := NextPc(a))
    case 3 => SetReg(a, i.ra, a.ireta)
    case 4 => a.(idsta := o.a, pc := NextPc(a))
    case 5 => SetReg(a, i.ra, a.idsta)
    case 6 => a.(ie := true, pc := a.ireta)
    case _ => a.(pc := NextPc(a))
  }

  function Call(a: Arch, i: Fields, o: Ops): Arch {
    if Taken(i.op, o) then a.(regs := Put(a.regs, LR, NextPc(a)), pc := o.c)
    else a.(pc := NextPc(a))
  }

  /** One documented instruction. Words outside the listed opcodes do nothing. */
  function Exec(a: Arch): Arch {
    var i := InstrAt(a);
    var o := OperandsIn(a.regs, i);
    match i.group
    case 0 => SetReg(a, i.ra, Alu3(i.op, o.b, o.c))
    case 1 => SetReg(a, i.ra, AluImm(a, i, o))
    case 2 => GoTo(a, BranchTaken(i.op, o, a.ie), BranchTarget(a, i))
    case 3 => GoTo(a, Taken(i.op, o), o.c)
    case 4 => Call(a, i, o)
    case 5 => LoadOrStore(a, i, o)
    case _ => InterruptsStuff(a, i, o)
  }

  /** Responding to an interrupt between two instructions. */
  function Interrupt(a: Arch): Arch {
    a.(ireta := a.pc, pc := a.idsta, ie := false)
  }

  // ----- the datapath computes the documented quantities -----

  lemma FlagsGiveConditions(cond: Nibble, o: Ops)
    ensures Holds(cond, o, Compare(o)) == Taken(cond, o)
  {
  }

  lemma ExtensionIsSigned(a: Word, h: Half)
    ensures Add(a, SignExtend(h)) == Wrap(a + Simm(h)) && SignExtend(h) == Wrap(Simm(h))
  {
  }

  lemma BranchAdderGivesTarget(a: Arch, i: Fields)
    ensures Add(NextPc(a), SignExtend(i.imm)) == BranchTarget(a, i)
  {
    ExtensionIsSigned(NextPc(a), i.imm);
  }

  lemma AddressAdderGivesAddress(i: Fields, o: Ops)
    ensures LoadStoreAddress(i, o) == EffectiveAddress(i, o)
  {
    ExtensionIsSigned(o.b, i.imm);
  }

  lemma ExecuteGivesImmediateResult(a: Arch, i: Fields, o: Ops)
    requires i.group == 1 && i.op != OP_MULI
    ensures AluImm(a, i, o)
            == if i.op == OP_CPYHI then Cpyhi(i.imm, o.a)
               else if i.op == OP_ADDSI then Add(a.pc, SignExtend(i.imm))
               else AluOut(i, o)
  {
    ExtensionIsSigned(a.pc, i.imm);
  }
}
