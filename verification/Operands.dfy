/**
 * The eleven forms that take an expression: what both passes make of each depends on the value of the
 * expression that is written in it.
 */
module Operands {
  import opened Words
  import opened Expressions
  import opened Scopes
  import opened InstrDecoder
  import opened MainMem
  import opened RegisterFile
  import opened Isa
  import opened Assembler
  import opened PseudoInstructions
  import Encoding
  import InstructionSet
  import Meaning

  /** The value of an expression where the visitor stands, in pass 0 or 1. */
  function Value(s: Asm, e: Expr, pass: bool): Result<S64> {
    Eval(e, pass, s.out.pc, LookupIn(s.table, s.curr))
  }

  /**
   * Both passes stop where `e` has no value. Otherwise pass 0 moves past the words, and pass 1 prints
   * them from the current address.
   */
  ghost predicate Emits(s: Asm, i: Instr, e: Expr, ws: seq<Word>) {
    var after := Advance(s.out.pc, 4 * |ws|);
    && (match Value(s, e, false)
        case Err(x) => VisitLine(s, Code(i), false) == Err(x)
        case Ok(_) => VisitLine(s, Code(i), false) == Ok(s.(out := s.out.(pc := after))))
    && (match Value(s, e, true)
        case Err(x) => VisitLine(s, Code(i), true) == Err(x)
        case Ok(_) =>
          var printed := CellsFrom(s.out.pc, BytesOfWords(ws));
          VisitLine(s, Code(i), true) == Ok(s.(out := Output(after, s.out.cells + printed))))
  }

  lemma CodeEmits(s: Asm, i: Instr, e: Expr) returns (ws: seq<Word>)
    requires Operand(i) == e
    ensures Emits(s, i, e, ws) && |ws| == WordCount(i)
    ensures Value(s, e, true).Ok? ==> ws == WordsOf(i, Value(s, e, true).value, s.out.pc)
  {
    hide WordsOf, BytesOfWords, CellsFrom, Advance;
    var v0, v := Value(s, e, false), Value(s, e, true);
    if v0.Ok? {
      Meaning.WordCountIsLength(i, v0.value, s.out.pc);
    }
    ws := WordsOf(i, if v.Ok? then v.value else 0, s.out.pc);
    Meaning.WordCountIsLength(i, if v.Ok? then v.value else 0, s.out.pc);
  }

  // ----- one word with the value in a field -----

  lemma AluImmediate(s: Asm, op: Nibble, ra: Nibble, rb: Nibble, e: Expr) returns (w: Word)
    ensures Emits(s, TwoRegsImm(op, ra, rb, e), e, [w])
    ensures
      var v := Value(s, e, true);
      v.Ok? ==> Encoding.Reads(Decode(w), 1, ra, rb, 0, op, v.value % 0x1_0000)
  {
    hide Emits, InstrDecoder.Decode, Assembler.WordsOf;
    var i := TwoRegsImm(op, ra, rb, e);
    var ws := CodeEmits(s, i, e);
    w := ws[0];
    assert ws == [w];
    if Value(s, e, true).Ok? {
      RealInstructionsDecode(i, Value(s, e, true).value, s.out.pc);
    }
  }

  /** The field is the distance from the address after the branch. */
  lemma BranchTarget(s: Asm, op: Nibble, ra: Nibble, rb: Nibble, e: Expr) returns (w: Word)
    ensures Emits(s, Branch(op, ra, rb, e), e, [w])
    ensures
      var v := Value(s, e, true);
      v.Ok? ==> Encoding.Reads(Decode(w), 2, ra, rb, 0, op, (v.value - s.out.pc - 4) % 0x1_0000)
  {
    hide Emits, InstrDecoder.Decode, Assembler.WordsOf;
    var i := Branch(op, ra, rb, e);
    var ws := CodeEmits(s, i, e);
    w := ws[0];
    assert ws == [w];
    if Value(s, e, true).Ok? {
      RealInstructionsDecode(i, Value(s, e, true).value, s.out.pc);
    }
  }

  lemma BraTarget(s: Asm, e: Expr) returns (w: Word)
    ensures Emits(s, Bra(e), e, [w])
    ensures
      var v := Value(s, e, true);
      v.Ok? ==> Encoding.Reads(Decode(w), 2, 0, 0, 0, 1, (v.value - s.out.pc - 4) % 0x1_0000)
  {
    hide Emits, InstrDecoder.Decode, Encoding.TwoRegsImm;
    var ws := CodeEmits(s, Bra(e), e);
    w := ws[0];
    assert ws == [w];
    if Value(s, e, true).Ok? {
      RealInstructionsDecode(Branch(EQ, 0, 0, e), Value(s, e, true).value, s.out.pc);
    }
  }

  /** Executed, the word addresses the base plus the value, if that fits 12 signed bits. */
  lemma LoadStoreOffset(s: Asm, op: Nibble, ra: Nibble, rb: Nibble, e: Expr, a: Arch) returns (w: Word)
    requires op >= 8
    ensures Emits(s, LoadStoreImm(op, ra, rb, e), e, [w])
    ensures
      var v, i := Value(s, e, true), InstrAt(a);
      v.Ok? && Load(a.mem, a.pc) == w ==>
        i.group == 5 && i.op == op && i.ra == ra &&
        InstructionSet.Addressed(i, a.regs) ==
          (Get(a.regs, rb) + Encoding.Signed12(v.value)) % 0x1_0000_0000
  {
    hide Emits, InstrDecoder.Decode, Encoding.LoadStoreImm, InstructionSet.Addressed;
    var ws := CodeEmits(s, LoadStoreImm(op, ra, rb, e), e);
    w := ws[0];
    assert ws == [w];
    if Value(s, e, true).Ok? && Load(a.mem, a.pc) == w {
      InstructionSet.EncodedOffsetAddresses(a, ra, rb, op, Value(s, e, true).value);
    }
  }

  // ----- words that leave the value in a register -----

  lemma InvertedImmediate(s: Asm, ra: Nibble, e: Expr, a: Arch) returns (w: Word)
    ensures Emits(s, Invi(ra, e), e, [w])
    ensures
      var v := Value(s, e, true);
      v.Ok? && Loaded(a, [w]) ==>
        Steps(a, 1) ==
          a.(regs := Put(a.regs, ra, 0xFFFF_FFFF - v.value % 0x1_0000), pc := (a.pc + 4) % 0x1_0000_0000)
  {
    hide Emits, Assembler.WordsOf, Loaded, Steps;
    var ws := CodeEmits(s, Invi(ra, e), e);
    w := ws[0];
    assert ws == [w];
    if Value(s, e, true).Ok? && Loaded(a, [w]) {
      PseudoMeans(Invi(ra, e), Value(s, e, true).value, s.out.pc, a);
    }
  }

  lemma CopiedImmediate(s: Asm, ra: Nibble, e: Expr, a: Arch) returns (w: Word)
    ensures Emits(s, Cpyi(ra, e), e, [w])
    ensures
      var v := Value(s, e, true);
      v.Ok? && Loaded(a, [w]) ==>
        Steps(a, 1) == a.(regs := Put(a.regs, ra, v.value % 0x1_0000), pc := (a.pc + 4) % 0x1_0000_0000)
  {
    hide Emits, Assembler.WordsOf, Loaded, Steps;
    var ws := CodeEmits(s, Cpyi(ra, e), e);
    w := ws[0];
    assert ws == [w];
    if Value(s, e, true).Ok? && Loaded(a, [w]) {
      PseudoMeans(Cpyi(ra, e), Value(s, e, true).value, s.out.pc, a);
    }
  }

  lemma CopiedConstant(s: Asm, ra: Nibble, e: Expr, a: Arch) returns (ws: seq<Word>)
    ensures |ws| == 2 && Emits(s, Cpya(ra, e), e, ws)
    ensures
      var v := Value(s, e, true);
      v.Ok? && Loaded(a, ws) ==>
        Steps(a, 2) == a.(regs := Put(a.regs, ra, v.value % 0x1_0000_0000), pc := (a.pc + 8) % 0x1_0000_0000)
  {
    hide Emits, Assembler.WordsOf, Loaded, Steps;
    ws := CodeEmits(s, Cpya(ra, e), e);
    if Value(s, e, true).Ok? && Loaded(a, ws) {
      PseudoMeans(Cpya(ra, e), Value(s, e, true).value, s.out.pc, a);
    }
  }

  // ----- words that go to the value through register 12 -----

  /** Three words that leave the value in register 12 and go there if the registers compare as asked. */
  ghost predicate GoesThrough(a: Arch, call: bool, equal: bool, ra: Nibble, rb: Nibble, v: S64) {
    var target, next := v % 0x1_0000_0000, (a.pc + 12) % 0x1_0000_0000;
    var regs: Regs := a.regs[12 := target];
    if (Get(regs, ra) == Get(regs, rb)) == equal then
      Steps(a, 3) == a.(regs := if call then regs[13 := next] else regs, pc := target)
    else
      Steps(a, 3) == a.(regs := regs, pc := next)
  }

  lemma GoesThroughTemp(a: Arch, call: bool, equal: bool, ra: Nibble, rb: Nibble, v: S64)
    requires Loaded(a, EncodeCpya(REG_TEMP, v) +
      [Encoding.ThreeRegs(if call then 4 else 3, ra, rb, REG_TEMP, if equal then EQ else NE)])
    ensures GoesThrough(a, call, equal, ra, rb, v)
  {
    hide Loaded, Steps, EncodeCpya, Encoding.ThreeRegs;
    AbsoluteExecutes(a, call, equal, ra, rb, v);
  }

  lemma ThroughTemp(call: bool, equal: bool, ra: Nibble, rb: Nibble, e: Expr, v: S64, pc: U64)
    ensures
      var jump := [Encoding.ThreeRegs(if call then 4 else 3, ra, rb, REG_TEMP, if equal then EQ else NE)];
      WordsOf(if call then CallAbsolute(equal, ra, rb, e) else JumpAbsolute(equal, ra, rb, e), v, pc) ==
        EncodeCpya(REG_TEMP, v) + jump
    ensures
      var jump := [Encoding.ThreeRegs(if call then 4 else 3, 0, 0, REG_TEMP, EQ)];
      WordsOf(if call then Calla(e) else Jmpa(e), v, pc) == EncodeCpya(REG_TEMP, v) + jump
  {
    hide EncodeCpya, Encoding.ThreeRegs;
  }

  lemma JumpTarget(s: Asm, e: Expr, a: Arch) returns (ws: seq<Word>)
    ensures |ws| == 3 && Emits(s, Jmpa(e), e, ws)
    ensures
      var v := Value(s, e, true);
      v.Ok? && Loaded(a, ws) ==> GoesThrough(a, false, true, 0, 0, v.value)
  {
    hide Emits, Loaded, GoesThrough, Assembler.WordsOf, EncodeCpya, Encoding.ThreeRegs;
    ws := CodeEmits(s, Jmpa(e), e);
    if Value(s, e, true).Ok? && Loaded(a, ws) {
      ThroughTemp(false, true, 0, 0, e, Value(s, e, true).value, s.out.pc);
      GoesThroughTemp(a, false, true, 0, 0, Value(s, e, true).value);
    }
  }

  lemma CallTarget(s: Asm, e: Expr, a: Arch) returns (ws: seq<Word>)
    ensures |ws| == 3 && Emits(s, Calla(e), e, ws)
    ensures
      var v := Value(s, e, true);
      v.Ok? && Loaded(a, ws) ==> GoesThrough(a, true, true, 0, 0, v.value)
  {
    hide Emits, Loaded, GoesThrough, Assembler.WordsOf, EncodeCpya, Encoding.ThreeRegs;
    ws := CodeEmits(s, Calla(e), e);
    if Value(s, e, true).Ok? && Loaded(a, ws) {
      ThroughTemp(true, true, 0, 0, e, Value(s, e, true).value, s.out.pc);
      GoesThroughTemp(a, true, true, 0, 0, Value(s, e, true).value);
    }
  }

  lemma ConditionalJumpTarget(s: Asm, equal: bool, ra: Nibble, rb: Nibble, e: Expr, a: Arch) returns (ws: seq<Word>)
    ensures |ws| == 3 && Emits(s, JumpAbsolute(equal, ra, rb, e), e, ws)
    ensures
      var v := Value(s, e, true);
      v.Ok? && Loaded(a, ws) ==> GoesThrough(a, false, equal, ra, rb, v.value)
  {
    hide Emits, Loaded, GoesThrough, Assembler.WordsOf, EncodeCpya, Encoding.ThreeRegs;
    ws := CodeEmits(s, JumpAbsolute(equal, ra, rb, e), e);
    if Value(s, e, true).Ok? && Loaded(a, ws) {
      ThroughTemp(false, equal, ra, rb, e, Value(s, e, true).value, s.out.pc);
      GoesThroughTemp(a, false, equal, ra, rb, Value(s, e, true).value);
    }
  }

  lemma ConditionalCallTarget(s: Asm, equal: bool, ra: Nibble, rb: Nibble, e: Expr, a: Arch) returns (ws: seq<Word>)
    ensures |ws| == 3 && Emits(s, CallAbsolute(equal, ra, rb, e), e, ws)
    ensures
      var v := Value(s, e, true);
      v.Ok? && Loaded(a, ws) ==> GoesThrough(a, true, equal, ra, rb, v.value)
  {
    hide Emits, Loaded, GoesThrough, Assembler.WordsOf, EncodeCpya, Encoding.ThreeRegs;
    ws := CodeEmits(s, CallAbsolute(equal, ra, rb, e), e);
    if Value(s, e, true).Ok? && Loaded(a, ws) {
      ThroughTemp(true, equal, ra, rb, e, Value(s, e, true).value, s.out.pc);
      GoesThroughTemp(a, true, equal, ra, rb, Value(s, e, true).value);
    }
  }
}
