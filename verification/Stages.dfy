/**
 * One clock edge of the processor, without its register file: the fetch,
 * decode and execute blocks as functions of the old state and of the three
 * operands the execute stage sees. Every right-hand side reads the old state.
 */
module Stages {
  import opened Words
  import opened InstrDecoder
  import opened MainMem
  import Alu
  import Multiplier
  import Divider

  const LR: Nibble := 13

  const STALL_BRANCH_UNSIGNED: nat := 2
  const STALL_BRANCH_SIGNED: nat := 3
  const STALL_JUMP_CALL_UNSIGNED: nat := 3
  const STALL_JUMP_CALL_SIGNED: nat := 4
  const STALL_MEM_ACCESS: nat := 3
  const STALL_INTERRUPTS_STUFF: nat := 2
  const STALL_RETI: nat := 2
  const STALL_RESPOND: nat := 2
  const STALL_MULTIPLY: nat := 5

  datatype StallState =
    | StInit
    | StRespondToInterrupt
    | StReti
    | StOther
    | StMulDiv
    | StCtrlFlowBranch
    | StCtrlFlowJumpCall
    | StOtherInterruptsStuff
    | StMemAccess

  datatype Flags = Flags(lts: bool, ges: bool, les: bool, gts: bool)

  const NO_FLAGS: Flags := Flags(false, false, false, false)

  /** The build: divider iterations per clock, and the order of the divider's two blocks. */
  datatype Config = Config(k: Divider.StepsPerClock, iterFirst: bool)

  function StallDivide(g: Config): (n: nat)
    ensures n == if g.k == 1 then 39 else if g.k == 2 then 23 else 15
  {
    32 / g.k + 7
  }

  /** The execute stage's copy of an instruction. */
  datatype Latch = Latch(raw: Word, f: Fields, pc: Word)

  datatype Core = Core(
    counter: nat, state: StallState,
    pc: Word, pcVal: Word,
    ireta: Word, idsta: Word, ie: bool,
    flags: Flags,
    ex: Latch, exIreta: Word, exIdsta: Word,
    bus: Bus, ram: Ram,
    mulIn: Multiplier.MulIn, mul: Multiplier.MulUnit,
    divIn: Divider.DivIn, div: Divider.DivUnit)

  /** The operands after the forwarding multiplexers. */
  datatype Ops = Ops(a: Word, b: Word, c: Word)

  /** What the execute stage does to forwarding slot 0. */
  datatype WriteBack = Forward(idx: Nibble, data: Word) | Stop | Hold

  // ----- combinational wires -----

  function Following(c: Core): Word {
    Add(c.ex.pc, 4)
  }

  function DecoderInput(c: Core): Word {
    if c.counter != 0 then c.ex.raw else c.ram.out
  }

  function Decoded(c: Core): Fields {
    Decode(DecoderInput(c))
  }

  function Compare(o: Ops): Flags {
    Flags(Signed(o.a) < Signed(o.b), Signed(o.a) >= Signed(o.b),
          Signed(o.a) <= Signed(o.b), Signed(o.a) > Signed(o.b))
  }

  /** The ten comparisons of jumps and calls; the signed ones come from the flags. */
  function Holds(cond: Nibble, o: Ops, s: Flags): bool {
    match cond
    case 0 => o.a != o.b
    case 1 => o.a == o.b
    case 2 => o.a < o.b
    case 3 => o.a >= o.b
    case 4 => o.a <= o.b
    case 5 => o.a > o.b
    case 6 => s.lts
    case 7 => s.ges
    case 8 => s.les
    case 9 => s.gts
    case _ => false
  }

  function BranchHolds(cond: Nibble, o: Ops, s: Flags, ie: bool): bool {
    if cond == 10 then ie else if cond == 11 then !ie else Holds(cond, o, s)
  }

  function LoadStoreAddress(f: Fields, o: Ops): Word {
    Add(o.b, if f.op >= 8 then SignExtend(f.imm) else o.c)
  }

  function ImmediateOperand(op: Nibble, imm: Half): Word {
    if op == 3 || op == 5 then SignExtend(imm) else imm
  }

  function AluOut(f: Fields, o: Ops): Word {
    match f.group
    case 0 => Alu.Compute(f.op, o.b, o.c)
    case 1 => Alu.Compute(f.op, o.b, ImmediateOperand(f.op, f.imm))
    case _ => Alu.Compute(0, 0, 0)
  }

  function Cpyhi(imm: Half, a: Word): Word {
    imm * 0x1_0000 + a % 0x1_0000
  }

  // ----- stage 0: fetch -----

  datatype Fetched = Fetched(pc: Word, pcVal: Word, bus: Bus, flags: Flags)

  function Keep(c: Core): Fetched {
    Fetched(c.pc, c.pcVal, c.bus, c.flags)
  }

  function LoadFrom(c: Core, addr: Word): Fetched {
    Fetched(addr, c.pc, Bus(0, addr, false, Size32), c.flags)
  }

  function Capture(c: Core, o: Ops): Fetched {
    Keep(c).(flags := Compare(o))
  }

  function MemoryCycle(c: Core, o: Ops): Fetched {
    var addr := LoadStoreAddress(c.ex.f, o);
    var t := c.ex.f.ldst;
    var bus :=
      if t == 0 then Bus(0, addr, false, Size32)
      else if t == 1 || t == 2 then Bus(0, addr, false, Size16)
      else if t == 3 || t == 4 then Bus(0, addr, false, Size8)
      else Bus(o.a, addr, true, if t == 5 then Size32 else if t == 6 then Size16 else Size8);
    Keep(c).(bus := bus)
  }

  function Fetch(c: Core, o: Ops, accepts: bool): Fetched {
    if c.counter == 0 then
      if accepts || Decoded(c).stalls then Keep(c) else LoadFrom(c, Add(c.pc, 4))
    else if c.counter == 1 then
      LoadFrom(c, Add(c.pc, 4))
    else if c.counter == 2 then
      match c.state
      case StOtherInterruptsStuff => LoadFrom(c, Following(c))
      case StMemAccess => LoadFrom(c, Following(c))
      case StMulDiv => LoadFrom(c, Following(c))
      case StCtrlFlowBranch =>
        LoadFrom(c, if BranchHolds(c.ex.f.cond, o, c.flags, c.ie)
                    then Add(Following(c), SignExtend(c.ex.f.imm)) else Following(c))
      case StCtrlFlowJumpCall =>
        LoadFrom(c, if Holds(c.ex.f.cond, o, c.flags) then o.c else Following(c))
      case StInit => LoadFrom(c, 0)
      case StReti => LoadFrom(c, c.ireta)
      case StRespondToInterrupt => LoadFrom(c, c.idsta)
      case StOther => Keep(c)
    else if c.counter == 3 then
      match c.state
      case StMemAccess => MemoryCycle(c, o)
      case StCtrlFlowBranch => Capture(c, o)
      case StCtrlFlowJumpCall => Capture(c, o)
      case _ => Keep(c)
    else
      Keep(c)
  }

  // ----- stage 1: decode -----

  datatype Issue = Issue(
    counter: nat, state: StallState, ireta: Word, idsta: Word, ie: bool,
    ex: Latch, exIreta: Word, exIdsta: Word)

  /** A bubble clears the decoded fields but not the raw word, immediate or address. */
  function Bubble(l: Latch): Latch {
    l.(f := l.f.(ra := 0, rb := 0, rc := 0, group := 0, op := 0, ldst := 0, stalls := false, cond := 0))
  }

  predicate SignedCondition(cond: Nibble) {
    6 <= cond <= 9
  }

  function StallFor(g: Config, f: Fields): nat {
    match f.group
    case 0 => if f.op == OP_MUL then STALL_MULTIPLY else StallDivide(g)
    case 1 => STALL_MULTIPLY
    case 2 => if SignedCondition(f.cond) then STALL_BRANCH_SIGNED else STALL_BRANCH_UNSIGNED
    case 3 => if SignedCondition(f.cond) then STALL_JUMP_CALL_SIGNED else STALL_JUMP_CALL_UNSIGNED
    case 4 => if SignedCondition(f.cond) then STALL_JUMP_CALL_SIGNED else STALL_JUMP_CALL_UNSIGNED
    case 5 => STALL_MEM_ACCESS
    case _ => if f.op != OP_RETI then STALL_INTERRUPTS_STUFF else STALL_RETI
  }

  /** A group 1 multiply leaves the old stall state in place. */
  function StallStateFor(f: Fields, before: StallState): StallState {
    match f.group
    case 0 => StMulDiv
    case 1 => before
    case 2 => StCtrlFlowBranch
    case 3 => StCtrlFlowJumpCall
    case 4 => StCtrlFlowJumpCall
    case 5 => StMemAccess
    case _ => if f.op != OP_RETI then StOtherInterruptsStuff else StReti
  }

  function DecodeStage(g: Config, c: Core, o: Ops, accepts: bool): Issue {
    if c.counter == 0 then
      if accepts then
        Issue(STALL_RESPOND, StRespondToInterrupt, c.pcVal, c.idsta, c.ie,
              Bubble(c.ex), c.exIreta, c.exIdsta)
      else
        var f := Decoded(c);
        Issue(if f.stalls then StallFor(g, f) else 0,
              if f.stalls then StallStateFor(f, c.state) else c.state,
              c.ireta, c.idsta, c.ie,
              Latch(DecoderInput(c), f, c.pcVal), c.ireta, c.idsta)
    else
      var two := c.counter == 2;
      var other := two && c.state == StOtherInterruptsStuff;
      var op := c.ex.f.op;
      Issue(c.counter - 1, c.state,
            if other && op == OP_CPY_TO_IRETA then o.a else c.ireta,
            if other && op == OP_CPY_TO_IDSTA then o.a else c.idsta,
            if other && op != OP_CPY_TO_IRETA && op != OP_CPY_TO_IDSTA then Decoded(c).op == OP_EI
            else if two && c.state == StReti then true
            else if two && c.state == StRespondToInterrupt then false
            else c.ie,
            if c.counter == 1 then Bubble(c.ex) else c.ex,
            c.exIreta, c.exIdsta)
  }

  // ----- stage 2: execute -----

  datatype Executed = Executed(wb: WriteBack, mulIn: Multiplier.MulIn, divIn: Divider.DivIn)

  function Plain(c: Core, wb: WriteBack): Executed {
    Executed(wb, c.mulIn, c.divIn)
  }

  function ControlMultiply(c: Core, x: Word, y: Word): Executed {
    if c.counter == STALL_MULTIPLY then
      Executed(Forward(c.ex.f.ra, 0), Multiplier.MulIn(true, x, y), c.divIn)
    else
      Executed(Forward(c.ex.f.ra, c.mul.prod), c.mulIn.(enable := false), c.divIn)
  }

  function ControlDivide(g: Config, c: Core, o: Ops, signed: bool): Executed {
    if c.counter == StallDivide(g) then
      Executed(Forward(c.ex.f.ra, 0), c.mulIn, Divider.DivIn(true, signed, o.b, o.c))
    else
      Executed(Forward(c.ex.f.ra, if c.divIn.denom != 0 then c.div.ctl.quot else 0),
               c.mulIn, c.divIn.(enable := false))
  }

  function CallWrite(c: Core, holds: bool): WriteBack {
    Forward(if holds then LR else 0, Following(c))
  }

  /** Sub-word loads take the low bits of the bus word. */
  function LoadedValue(t: nat, data: Word): Word
    requires t < 5
  {
    if t == 0 then data
    else if t == 1 then data % 0x1_0000
    else if t == 2 then SignExtend(data % 0x1_0000)
    else if t == 3 then data % 0x100
    else if data % 0x100 < 0x80 then data % 0x100 else data % 0x100 + 0xFFFF_FF00
  }

  function Execute(g: Config, c: Core, o: Ops): Executed {
    var f := c.ex.f;
    match f.group
    case 0 =>
      if f.op == OP_MUL then ControlMultiply(c, o.b, o.c)
      else if f.op == OP_UDIV then ControlDivide(g, c, o, false)
      else if f.op == OP_SDIV then ControlDivide(g, c, o, true)
      else Plain(c, Forward(f.ra, AluOut(f, o)))
    case 1 =>
      if f.op == OP_CPYHI then Plain(c, Forward(f.ra, Cpyhi(f.imm, o.a)))
      else if f.op == OP_ADDSI then Plain(c, Forward(f.ra, Add(c.ex.pc, SignExtend(f.imm))))
      else if f.op == OP_MULI then ControlMultiply(c, o.b, f.imm)
      else Plain(c, Forward(f.ra, AluOut(f, o)))
    case 2 => Plain(c, Stop)
    case 3 => Plain(c, Stop)
    case 4 =>
      if f.cond < 10 then Plain(c, CallWrite(c, Holds(f.cond, o, c.flags))) else Plain(c, Stop)
    case 5 =>
      if c.counter == 1 && f.ldst < 5 then Plain(c, Forward(f.ra, LoadedValue(f.ldst, c.ram.out)))
      else Plain(c, Stop)
    case 6 =>
      if f.op == OP_CPY_FROM_IRETA then Plain(c, Forward(f.ra, c.exIreta))
      else if f.op == OP_CPY_FROM_IDSTA then Plain(c, Forward(f.ra, c.exIdsta))
      else Plain(c, Stop)
    case _ => Plain(c, Hold)
  }

  // ----- one edge -----

  predicate Accepts(c: Core, interrupt: bool) {
    c.counter == 0 && c.ie && interrupt
  }

  function CoreStep(g: Config, c: Core, o: Ops, interrupt: bool): Core {
    var accepts := Accepts(c, interrupt);
    var fe := Fetch(c, o, accepts);
    var de := DecodeStage(g, c, o, accepts);
    var xe := Execute(g, c, o);
    Core(de.counter, de.state, fe.pc, fe.pcVal, de.ireta, de.idsta, de.ie, fe.flags,
         de.ex, de.exIreta, de.exIdsta, fe.bus, MainMem.Step(c.ram, c.bus),
         xe.mulIn, Multiplier.Step(c.mul, c.mulIn),
         xe.divIn, Divider.Step(c.div, c.divIn, g.k, g.iterFirst))
  }

  function Written(g: Config, c: Core, o: Ops): WriteBack {
    Execute(g, c, o).wb
  }

  /** Power-on values. The clock before the first instruction runs from here. */
  function CoreReset(words: Memory): Core {
    Core(2, StInit, 0, 0, 0, 0, false, NO_FLAGS,
         Latch(0, NOP, 0), 0, 0, Bus(0, 0, false, Size32), Ram(words, 0),
         Multiplier.RESET_IN, Multiplier.RESET_UNIT, Divider.RESET_IN, Divider.ResetUnit())
  }
}
