/** The two passes of the assembler over an abstract program, as functions of its state. */
module Assembler {
  import opened Words
  import opened Expressions
  import opened Scopes
  import Encoding

  // ----- programs -----

  /** Real and pseudo instructions, with register numbers and opcodes in place of names. */
  datatype Instr =
    | ThreeRegs(op: Nibble, ra: Nibble, rb: Nibble, rc: Nibble)
    | TwoRegsImm(op: Nibble, ra: Nibble, rb: Nibble, imm: Expr)
    | Branch(op: Nibble, ra: Nibble, rb: Nibble, target: Expr)
    | Jump(op: Nibble, ra: Nibble, rb: Nibble, rc: Nibble)
    | Call(op: Nibble, ra: Nibble, rb: Nibble, rc: Nibble)
    | LoadStoreRegs(op: Nibble, ra: Nibble, rb: Nibble, rc: Nibble)
    | LoadStoreImm(op: Nibble, ra: Nibble, rb: Nibble, imm: Expr)
    | InterruptsStuff(op: Nibble, ra: Nibble)
    | Inv(ra: Nibble, rb: Nibble)
    | Invi(ra: Nibble, imm: Expr)
    | Cpy(ra: Nibble, rb: Nibble)
    | CpyPc(ra: Nibble)
    | Cpyi(ra: Nibble, imm: Expr)
    | Cpya(ra: Nibble, imm: Expr)
    | Bra(target: Expr)
    | Jmp(rc: Nibble)
    | CallReg(rc: Nibble)
    | Jmpa(imm: Expr)
    | Calla(imm: Expr)
    | JumpAbsolute(equal: bool, ra: Nibble, rb: Nibble, imm: Expr)
    | CallAbsolute(equal: bool, ra: Nibble, rb: Nibble, imm: Expr)
    | IncDec(inc: bool, ra: Nibble)

  /** Sizes of `.db8`, `.db16` and `.db` in bytes. */
  type Width = n: nat | n == 1 || n == 2 || n == 4 witness 1

  datatype Line =
    | Blank
    | Label(name: string)
    | Code(i: Instr)
    | Org(e: Expr)
    | Space(e: Expr)
    | Data(width: Width, e: Expr)
    | Scope(body: Lines)

  datatype Lines = End | Then(first: Line, rest: Lines)

  const REG_TEMP: Nibble := 12
  const NE: Nibble := 0
  const EQ: Nibble := 1
  const ADD: Nibble := 0
  const NOR: Nibble := 10
  const ADDI: Nibble := 0
  const SUBI: Nibble := 1
  const NORI: Nibble := 10
  const ADDSI: Nibble := 14
  const CPYHI: Nibble := 15

  // ----- the words of one instruction -----

  predicate TakesExpression(i: Instr) {
    i.TwoRegsImm? || i.Branch? || i.LoadStoreImm? || i.Invi? || i.Cpyi? || i.Cpya? || i.Bra? || i.Jmpa? || i.Calla? ||
    i.JumpAbsolute? || i.CallAbsolute?
  }

  /** The expression an instruction evaluates before it encodes; zero stands in where there is none. */
  function Operand(i: Instr): Expr {
    match i
    case TwoRegsImm(_, _, _, e) => e
    case Branch(_, _, _, e) => e
    case LoadStoreImm(_, _, _, e) => e
    case Invi(_, e) => e
    case Cpyi(_, e) => e
    case Cpya(_, e) => e
    case Bra(e) => e
    case Jmpa(e) => e
    case Calla(e) => e
    case JumpAbsolute(_, _, _, e) => e
    case CallAbsolute(_, _, _, e) => e
    case _ => Num(0)
  }

  function U32(v: int): Word {
    v % 0x1_0000_0000
  }

  function EncodeCpya(ra: Nibble, v: S64): seq<Word> {
    [Encoding.TwoRegsImm(1, ra, 0, ADDI, U32(v)), Encoding.TwoRegsImm(1, ra, 0, CPYHI, U32(v / 0x1_0000))]
  }

  /** The offset is computed in unsigned 64-bit arithmetic from the address of the branch itself. */
  function EncodeBranch(op: Nibble, ra: Nibble, rb: Nibble, v: S64, pc: U64): Word {
    Encoding.TwoRegsImm(2, ra, rb, op, U32(ToU64(v - pc - 4)))
  }

  function WordsOf(i: Instr, v: S64, pc: U64): seq<Word> {
    match i
    case ThreeRegs(op, ra, rb, rc) => [Encoding.Group0(ra, rb, rc, op)]
    case TwoRegsImm(op, ra, rb, _) => [Encoding.TwoRegsImm(1, ra, rb, op, U32(v))]
    case Branch(op, ra, rb, _) => [EncodeBranch(op, ra, rb, v, pc)]
    case Jump(op, ra, rb, rc) => [Encoding.ThreeRegs(3, ra, rb, rc, op)]
    case Call(op, ra, rb, rc) => [Encoding.ThreeRegs(4, ra, rb, rc, op)]
    case LoadStoreRegs(op, ra, rb, rc) => [Encoding.ThreeRegs(5, ra, rb, rc, op)]
    case LoadStoreImm(op, ra, rb, _) => [Encoding.LoadStoreImm(ra, rb, op, U32(v))]
    case InterruptsStuff(op, ra) => [Encoding.ThreeRegs(6, ra, 0, 0, op)]
    case Inv(ra, rb) => [Encoding.Group0(ra, rb, 0, NOR)]
    case Invi(ra, _) => [Encoding.TwoRegsImm(1, ra, 0, NORI, U32(v))]
    case Cpy(ra, rb) => [Encoding.Group0(ra, rb, 0, ADD)]
    case CpyPc(ra) => [Encoding.TwoRegsImm(1, ra, 0, ADDSI, 0)]
    case Cpyi(ra, _) => [Encoding.TwoRegsImm(1, ra, 0, ADDI, U32(v))]
    case Cpya(ra, _) => EncodeCpya(ra, v)
    case Bra(_) => [EncodeBranch(EQ, 0, 0, v, pc)]
    case Jmp(rc) => [Encoding.ThreeRegs(3, 0, 0, rc, EQ)]
    case CallReg(rc) => [Encoding.ThreeRegs(4, 0, 0, rc, EQ)]
    case Jmpa(_) => EncodeCpya(REG_TEMP, v) + [Encoding.ThreeRegs(3, 0, 0, REG_TEMP, EQ)]
    case Calla(_) => EncodeCpya(REG_TEMP, v) + [Encoding.ThreeRegs(4, 0, 0, REG_TEMP, EQ)]
    case JumpAbsolute(eq, ra, rb, _) =>
      EncodeCpya(REG_TEMP, v) + [Encoding.ThreeRegs(3, ra, rb, REG_TEMP, if eq then EQ else NE)]
    case CallAbsolute(eq, ra, rb, _) =>
      EncodeCpya(REG_TEMP, v) + [Encoding.ThreeRegs(4, ra, rb, REG_TEMP, if eq then EQ else NE)]
    case IncDec(inc, ra) => [Encoding.TwoRegsImm(1, ra, ra, if inc then ADDI else SUBI, 1)]
  }

  /** The number of words, whatever the operand's value. */
  function WordCount(i: Instr): nat {
    match i
    case Cpya(_, _) => 2
    case Jmpa(_) => 3
    case Calla(_) => 3
    case JumpAbsolute(_, _, _, _) => 3
    case CallAbsolute(_, _, _, _) => 3
    case _ => 1
  }

  // ----- generating bytes -----

  /** A byte placed at an address. */
  datatype Cell = Cell(at: U64, data: Byte)

  /** Big-endian bytes of the low `width` bytes of a number. */
  function BytesOf(n: nat, width: nat): (b: seq<Byte>)
    ensures |b| == width
  {
    if width == 0 then [] else BytesOf(n / 0x100, width - 1) + [n % 0x100]
  }

  /** The bytes of a list of words. */
  function BytesOfWords(ws: seq<Word>): (b: seq<Byte>)
    ensures |b| == 4 * |ws|
  {
    if |ws| == 0 then [] else BytesOf(ws[0], 4) + BytesOfWords(ws[1..])
  }

  function Advance(pc: U64, n: nat): U64 {
    ToU64(pc + n)
  }

  function CellsFrom(pc: U64, b: seq<Byte>): (c: seq<Cell>)
    ensures |c| == |b|
    decreases |b|
  {
    if |b| == 0 then [] else [Cell(pc, b[0])] + CellsFrom(Advance(pc, 1), b[1..])
  }

  /** The part of the state that generation touches; `cells` records what pass 1 has printed. */
  datatype Output = Output(pc: U64, cells: seq<Cell>)

  function Generate(o: Output, b: seq<Byte>, pass: bool): Output {
    Output(Advance(o.pc, |b|), if pass then o.cells + CellsFrom(o.pc, b) else o.cells)
  }

  // ----- visiting lines -----

  /** `entered` logs the scope nodes in the order the visitor enters them. */
  datatype Asm = Asm(table: Table, curr: nat, childNums: seq<nat>, out: Output, entered: seq<nat>)

  function VisitLabel(s: Asm, name: string, pass: bool): Result<Asm> {
    if s.curr >= |s.table.nodes| then Err(NoSuchScope)
    else if !pass && IsLabelHere(s.table, s.curr, name) then Err(DuplicateLabel)
    else
      var (t, sym) := FindOrInsert(s.table, s.curr, name);
      Ok(s.(table := SetLabel(t, sym, s.out.pc)))
  }

  function EvalHere(s: Asm, e: Expr, pass: bool): Result<S64> {
    Eval(e, pass, s.out.pc, LookupIn(s.table, s.curr))
  }

  /** Descending into a block: pass 0 makes a node, pass 1 takes the next child. */
  function EnterScope(s: Asm, pass: bool): Result<Asm> {
    if s.curr >= |s.table.nodes| then Err(NoSuchScope)
    else if !pass then
      var n := |s.table.nodes|;
      Ok(s.(table := MkScope(s.table, s.curr), curr := n, entered := s.entered + [n]))
    else if |s.childNums| == 0 || s.childNums[|s.childNums| - 1] >= |s.table.nodes[s.curr].children| then
      Err(NoSuchScope)
    else
      var n := s.table.nodes[s.curr].children[s.childNums[|s.childNums| - 1]];
      Ok(s.(curr := n, childNums := s.childNums + [0], entered := s.entered + [n]))
  }

  function LeaveScope(s: Asm, pass: bool): Result<Asm> {
    if s.curr >= |s.table.nodes| then Err(NoSuchScope)
    else
      var up := s.table.nodes[s.curr].parent;
      if !pass then Ok(s.(curr := up))
      else if |s.childNums| == 0 then Err(NoSuchScope)
      else
        var popped := s.childNums[..|s.childNums| - 1];
        var nums :=
          if |popped| >= 1 then popped[|popped| - 1 := popped[|popped| - 1] + 1] else popped;
        Ok(s.(curr := up, childNums := nums))
  }

  function VisitLine(s: Asm, l: Line, pass: bool): Result<Asm>
    decreases l
  {
    match l
    case Blank => Ok(s)
    case Label(name) => VisitLabel(s, name, pass)
    case Code(i) =>
      var v :- EvalHere(s, Operand(i), pass);
      Ok(s.(out := Generate(s.out, BytesOfWords(WordsOf(i, v, s.out.pc)), pass)))
    case Org(e) =>
      var v :- EvalHere(s, e, pass);
      Ok(s.(out := s.out.(pc := ToU64(v))))
    case Space(e) =>
      var v :- EvalHere(s, e, pass);
      Ok(s.(out := s.out.(pc := ToU64(s.out.pc + v))))
    case Data(width, e) =>
      var v :- EvalHere(s, e, pass);
      Ok(s.(out := Generate(s.out, BytesOf(ToU64(v), width), pass)))
    case Scope(body) =>
      var s1 :- EnterScope(s, pass);
      var s2 :- VisitLines(s1, body, pass);
      LeaveScope(s2, pass)
  }

  function VisitLines(s: Asm, ls: Lines, pass: bool): Result<Asm>
    decreases ls
  {
    match ls
    case End => Ok(s)
    case Then(l, rest) =>
      var s1 :- VisitLine(s, l, pass);
      VisitLines(s1, rest, pass)
  }

  function StartPass(t: Table, childNums: seq<nat>): Asm {
    Asm(t, 1, childNums, Output(0, []), [])
  }

  function Pass0(p: Lines): Result<Asm> {
    VisitLines(StartPass(Initial(), [0]), p, false)
  }

  /** Both passes: pass 1 starts from the table that pass 0 built. */
  function Assemble(p: Lines): Result<Asm> {
    var s0 :- Pass0(p);
    VisitLines(StartPass(s0.table, s0.childNums), p, true)
  }
}
