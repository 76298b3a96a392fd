/** What the words emitted for a pseudo instruction do when they are executed. */
module PseudoInstructions {
  import opened Words
  import opened Bits
  import opened Expressions
  import opened InstrDecoder
  import opened MainMem
  import opened RegisterFile
  import opened Stages
  import opened Isa
  import opened Assembler
  import Alu
  import Arithmetic
  import Encoding

  function Steps(a: Arch, n: nat): Arch
    decreases n
  {
    if n == 0 then a else Steps(Isa.Exec(a), n - 1)
  }

  /** The words of `ws` are in memory, one after another from the address of the next instruction. */
  ghost predicate Loaded(a: Arch, ws: seq<Word>) {
    forall k :: 0 <= k < |ws| ==> Load(a.mem, Wrap(a.pc + 4 * k)) == ws[k]
  }

  // ----- the documented effects -----

  function Low16(v: int): Half {
    v % 0x1_0000
  }

  /** Writes a register and moves past `n` words. */
  function Sets(a: Arch, r: Nibble, v: Word, n: nat): Arch {
    a.(regs := Put(a.regs, r, v), pc := Wrap(a.pc + 4 * n))
  }

  function JumpsTo(a: Arch, taken: bool, target: Word, n: nat): Arch {
    a.(pc := if taken then target else Wrap(a.pc + 4 * n))
  }

  /** A call sets `lr` to the address after its `n` words. */
  function CallsTo(a: Arch, taken: bool, target: Word, n: nat): Arch {
    if taken then a.(regs := Put(a.regs, LR, Wrap(a.pc + 4 * n)), pc := target)
    else a.(pc := Wrap(a.pc + 4 * n))
  }

  function WithTemp(a: Arch, v: Word): Arch {
    a.(regs := Put(a.regs, REG_TEMP, v))
  }

  predicate IsPseudo(i: Instr) {
    i.Inv? || i.Invi? || i.Cpy? || i.CpyPc? || i.Cpyi? || i.Cpya? || i.Jmp? || i.CallReg? ||
    i.Jmpa? || i.Calla? || i.JumpAbsolute? || i.CallAbsolute? || i.IncDec?
  }

  predicate Condition(equal: bool, x: Word, y: Word) {
    (x == y) == equal
  }

  /** The effect documented for each pseudo instruction whose operand has the value `v`. */
  function Documented(i: Instr, v: S64, a: Arch): Arch
    requires IsPseudo(i)
  {
    match i
    case Inv(ra, rb) => Sets(a, ra, 0xFFFF_FFFF - Get(a.regs, rb), 1)
    case Invi(ra, _) => Sets(a, ra, 0xFFFF_FFFF - Low16(v), 1)
    case Cpy(ra, rb) => Sets(a, ra, Get(a.regs, rb), 1)
    case CpyPc(ra) => Sets(a, ra, a.pc, 1)
    case Cpyi(ra, _) => Sets(a, ra, Low16(v), 1)
    case Cpya(ra, _) => Sets(a, ra, U32(v), 2)
    case Jmp(rc) => JumpsTo(a, true, Get(a.regs, rc), 1)
    case CallReg(rc) => CallsTo(a, true, Get(a.regs, rc), 1)
    case Jmpa(_) => JumpsTo(WithTemp(a, U32(v)), true, U32(v), 3)
    case Calla(_) => CallsTo(WithTemp(a, U32(v)), true, U32(v), 3)
    case JumpAbsolute(equal, ra, rb, _) =>
      JumpsTo(WithTemp(a, U32(v)), Condition(equal, Get(a.regs, ra), Get(a.regs, rb)), U32(v), 3)
    case CallAbsolute(equal, ra, rb, _) =>
      CallsTo(WithTemp(a, U32(v)), Condition(equal, Get(a.regs, ra), Get(a.regs, rb)), U32(v), 3)
    case IncDec(inc, ra) => Sets(a, ra, Wrap(Get(a.regs, ra) + (if inc then 1 else -1)), 1)
  }

  // ----- one encoded instruction -----

  lemma Group0Executes(a: Arch, ra: Nibble, rb: Nibble, rc: Nibble, op: Nibble)
    requires Load(a.mem, a.pc) == Encoding.Group0(ra, rb, rc, op)
    ensures Isa.Exec(a) == SetReg(a, ra, Alu3(op, Get(a.regs, rb), Get(a.regs, rc)))
  {
    hide InstrDecoder.Decode, Encoding.Group0, Alu3;
    Encoding.Group0RoundTrip(ra, rb, rc, op);
  }

  /** The plain ALU operations with an immediate. */
  lemma ImmediateExecutes(a: Arch, ra: Nibble, rb: Nibble, op: Nibble, imm: Word)
    requires Load(a.mem, a.pc) == Encoding.TwoRegsImm(1, ra, rb, op, imm)
    requires op in {ADDI, SUBI, NORI}
    ensures Isa.Exec(a) == SetReg(a, ra, Alu.Compute(op, Get(a.regs, rb), Low16(imm)))
  {
    hide InstrDecoder.Decode, Encoding.TwoRegsImm, Alu.Compute;
    Encoding.TwoRegsImmRoundTrip(1, ra, rb, op, imm);
  }

  lemma CpyhiExecutes(a: Arch, ra: Nibble, imm: Word)
    requires Load(a.mem, a.pc) == Encoding.TwoRegsImm(1, ra, 0, CPYHI, imm)
    ensures Isa.Exec(a) == SetReg(a, ra, Low16(imm) * 0x1_0000 + Get(a.regs, ra) % 0x1_0000)
  {
    hide InstrDecoder.Decode, Encoding.TwoRegsImm, Alu.Compute;
    Encoding.TwoRegsImmRoundTrip(1, ra, 0, CPYHI, imm);
  }

  lemma AddsiExecutes(a: Arch, ra: Nibble)
    requires Load(a.mem, a.pc) == Encoding.TwoRegsImm(1, ra, 0, ADDSI, 0)
    ensures Isa.Exec(a) == SetReg(a, ra, a.pc)
  {
    hide InstrDecoder.Decode, Encoding.TwoRegsImm, Alu.Compute;
    Encoding.TwoRegsImmRoundTrip(1, ra, 0, ADDSI, 0);
  }

  lemma JumpExecutes(a: Arch, ra: Nibble, rb: Nibble, rc: Nibble, equal: bool)
    requires Load(a.mem, a.pc) == Encoding.ThreeRegs(3, ra, rb, rc, if equal then EQ else NE)
    ensures Isa.Exec(a) ==
      JumpsTo(a, Condition(equal, Get(a.regs, ra), Get(a.regs, rb)), Get(a.regs, rc), 1)
  {
    hide InstrDecoder.Decode, Encoding.ThreeRegs;
    Encoding.ThreeRegsRoundTrip(3, ra, rb, rc, if equal then EQ else NE);
  }

  lemma CallExecutes(a: Arch, ra: Nibble, rb: Nibble, rc: Nibble, equal: bool)
    requires Load(a.mem, a.pc) == Encoding.ThreeRegs(4, ra, rb, rc, if equal then EQ else NE)
    ensures Isa.Exec(a) ==
      CallsTo(a, Condition(equal, Get(a.regs, ra), Get(a.regs, rb)), Get(a.regs, rc), 1)
  {
    hide InstrDecoder.Decode, Encoding.ThreeRegs;
    Encoding.ThreeRegsRoundTrip(4, ra, rb, rc, if equal then EQ else NE);
  }

  // ----- real instructions -----

  predicate IsReal(i: Instr) {
    i.ThreeRegs? || i.TwoRegsImm? || i.Branch? || i.Jump? || i.Call? || i.LoadStoreRegs? || i.LoadStoreImm? ||
    i.InterruptsStuff?
  }

  /** The hardware's fields of a real instruction are the operands written, its value cut to the field. */
  ghost predicate DecodesAs(f: Fields, i: Instr, v: S64, pc: U64)
    requires IsReal(i)
  {
    match i
    case ThreeRegs(op, ra, rb, rc) => Encoding.Reads(f, 0, ra, rb, rc, op, 0)
    case TwoRegsImm(op, ra, rb, _) => Encoding.Reads(f, 1, ra, rb, 0, op, Low16(v))
    case Branch(op, ra, rb, _) => Encoding.Reads(f, 2, ra, rb, 0, op, Low16(v - pc - 4))
    case Jump(op, ra, rb, rc) => Encoding.Reads(f, 3, ra, rb, rc, op, 0)
    case Call(op, ra, rb, rc) => Encoding.Reads(f, 4, ra, rb, rc, op, 0)
    case LoadStoreRegs(op, ra, rb, rc) => Encoding.Reads(f, 5, ra, rb, rc, op, 0)
    case LoadStoreImm(op, ra, rb, _) => Encoding.Reads(f, 5, ra, rb, 0, op, Encoding.Signed12(v) % 0x1_0000)
    case InterruptsStuff(op, ra) => Encoding.Reads(f, 6, ra, 0, 0, op, 0)
  }

  lemma RealInstructionsDecode(i: Instr, v: S64, pc: U64)
    requires IsReal(i)
    ensures |WordsOf(i, v, pc)| == 1 && DecodesAs(Decode(WordsOf(i, v, pc)[0]), i, v, pc)
  {
    hide InstrDecoder.Decode, Encoding.Group0, Encoding.ThreeRegs, Encoding.TwoRegsImm, Encoding.LoadStoreImm;
    match i
    case ThreeRegs(op, ra, rb, rc) => Encoding.Group0RoundTrip(ra, rb, rc, op);
    case TwoRegsImm(op, ra, rb, _) =>
      Encoding.TwoRegsImmRoundTrip(1, ra, rb, op, U32(v));
      LowFieldOf(v);
    case Branch(op, ra, rb, _) =>
      Encoding.TwoRegsImmRoundTrip(2, ra, rb, op, U32(ToU64(v - pc - 4)));
      OffsetHalf(v - pc - 4);
    case Jump(op, ra, rb, rc) => Encoding.ThreeRegsRoundTrip(3, ra, rb, rc, op);
    case Call(op, ra, rb, rc) => Encoding.ThreeRegsRoundTrip(4, ra, rb, rc, op);
    case LoadStoreRegs(op, ra, rb, rc) => Encoding.ThreeRegsRoundTrip(5, ra, rb, rc, op);
    case LoadStoreImm(op, ra, rb, _) =>
      Encoding.LoadStoreImmRoundTrip(ra, rb, op, U32(v));
      Encoding.LowTwelveBits(U32(v));
      Encoding.LowTwelveBits(v);
      LowFieldOf(v);
    case InterruptsStuff(op, ra) => Encoding.ThreeRegsRoundTrip(6, ra, 0, 0, op);
  }

  lemma LowFieldOf(v: int)
    ensures U32(v) % 0x1_0000 == Low16(v) && U32(v) % 0x1000 == v % 0x1000
  {
    var q, r: int := v / 0x1_0000_0000, v % 0x1_0000_0000;
    Arithmetic.QuotientUnique(v, 0x1_0000, 0x1_0000 * q + r / 0x1_0000, r % 0x1_0000);
    Arithmetic.QuotientUnique(v, 0x1000, 0x10_0000 * q + r / 0x1000, r % 0x1000);
  }

  /** The low half into the register, then the high half over it. */
  ghost predicate ConstantDecodes(low: Fields, high: Fields, ra: Nibble, v: S64) {
    && Encoding.Reads(low, 1, ra, 0, 0, 0, v % 0x1_0000)
    && Encoding.Reads(high, 1, ra, 0, 0, 15, v / 0x1_0000 % 0x1_0000)
  }

  /** The real instructions that each pseudo instruction stands for. */
  ghost predicate ExpandsTo(ws: seq<Word>, i: Instr, v: S64, pc: U64)
    requires |ws| == WordCount(i) && !IsReal(i)
  {
    match i
    case Inv(ra, rb) => Encoding.Reads(Decode(ws[0]), 0, ra, rb, 0, 10, 0)
    case Invi(ra, _) => Encoding.Reads(Decode(ws[0]), 1, ra, 0, 0, 10, v % 0x1_0000)
    case Cpy(ra, rb) => Encoding.Reads(Decode(ws[0]), 0, ra, rb, 0, 0, 0)
    case CpyPc(ra) => Encoding.Reads(Decode(ws[0]), 1, ra, 0, 0, 14, 0)
    case Cpyi(ra, _) => Encoding.Reads(Decode(ws[0]), 1, ra, 0, 0, 0, v % 0x1_0000)
    case Cpya(ra, _) => ConstantDecodes(Decode(ws[0]), Decode(ws[1]), ra, v)
    case Bra(_) => Encoding.Reads(Decode(ws[0]), 2, 0, 0, 0, 1, (v - pc - 4) % 0x1_0000)
    case Jmp(rc) => Encoding.Reads(Decode(ws[0]), 3, 0, 0, rc, 1, 0)
    case CallReg(rc) => Encoding.Reads(Decode(ws[0]), 4, 0, 0, rc, 1, 0)
    case Jmpa(_) =>
      ConstantDecodes(Decode(ws[0]), Decode(ws[1]), 12, v) && Encoding.Reads(Decode(ws[2]), 3, 0, 0, 12, 1, 0)
    case Calla(_) =>
      ConstantDecodes(Decode(ws[0]), Decode(ws[1]), 12, v) && Encoding.Reads(Decode(ws[2]), 4, 0, 0, 12, 1, 0)
    case JumpAbsolute(equal, ra, rb, _) =>
      ConstantDecodes(Decode(ws[0]), Decode(ws[1]), 12, v) &&
      Encoding.Reads(Decode(ws[2]), 3, ra, rb, 12, if equal then 1 else 0, 0)
    case CallAbsolute(equal, ra, rb, _) =>
      ConstantDecodes(Decode(ws[0]), Decode(ws[1]), 12, v) &&
      Encoding.Reads(Decode(ws[2]), 4, ra, rb, 12, if equal then 1 else 0, 0)
    case IncDec(inc, ra) => Encoding.Reads(Decode(ws[0]), 1, ra, ra, 0, if inc then 0 else 1, 1)
  }

  lemma ConstantWords(ra: Nibble, v: S64)
    ensures |EncodeCpya(ra, v)| == 2
    ensures ConstantDecodes(Decode(EncodeCpya(ra, v)[0]), Decode(EncodeCpya(ra, v)[1]), ra, v)
  {
    hide InstrDecoder.Decode, Encoding.TwoRegsImm;
    Encoding.TwoRegsImmRoundTrip(1, ra, 0, 0, U32(v));
    Encoding.TwoRegsImmRoundTrip(1, ra, 0, 15, U32(v / 0x1_0000));
    LowFieldOf(v);
    LowFieldOf(v / 0x1_0000);
  }

  /** Every pseudo instruction expands to the real ones documented for it, word by word. */
  lemma PseudoInstructionsExpand(i: Instr, v: S64, pc: U64)
    requires !IsReal(i)
    ensures |WordsOf(i, v, pc)| == WordCount(i) && ExpandsTo(WordsOf(i, v, pc), i, v, pc)
  {
    hide InstrDecoder.Decode, Encoding.Group0, Encoding.ThreeRegs, Encoding.TwoRegsImm, EncodeCpya, ConstantDecodes;
    match i
    case Inv(ra, rb) => Encoding.Group0RoundTrip(ra, rb, 0, 10);
    case Invi(ra, _) =>
      Encoding.TwoRegsImmRoundTrip(1, ra, 0, 10, U32(v));
      LowFieldOf(v);
    case Cpy(ra, rb) => Encoding.Group0RoundTrip(ra, rb, 0, 0);
    case CpyPc(ra) => Encoding.TwoRegsImmRoundTrip(1, ra, 0, 14, 0);
    case Cpyi(ra, _) =>
      Encoding.TwoRegsImmRoundTrip(1, ra, 0, 0, U32(v));
      LowFieldOf(v);
    case Cpya(ra, _) =>
      assert WordsOf(i, v, pc) == EncodeCpya(ra, v);
      ConstantWords(ra, v);
    case Bra(_) =>
      Encoding.TwoRegsImmRoundTrip(2, 0, 0, 1, U32(ToU64(v - pc - 4)));
      OffsetHalf(v - pc - 4);
    case Jmp(rc) => Encoding.ThreeRegsRoundTrip(3, 0, 0, rc, 1);
    case CallReg(rc) => Encoding.ThreeRegsRoundTrip(4, 0, 0, rc, 1);
    case Jmpa(_) => AbsoluteExpands(3, 0, 0, 1, v);
    case Calla(_) => AbsoluteExpands(4, 0, 0, 1, v);
    case JumpAbsolute(equal, ra, rb, _) => AbsoluteExpands(3, ra, rb, if equal then 1 else 0, v);
    case CallAbsolute(equal, ra, rb, _) => AbsoluteExpands(4, ra, rb, if equal then 1 else 0, v);
    case IncDec(inc, ra) => Encoding.TwoRegsImmRoundTrip(1, ra, ra, if inc then 0 else 1, 1);
  }

  lemma AbsoluteExpands(group: Nibble, ra: Nibble, rb: Nibble, op: Nibble, v: S64)
    requires group in {3, 4}
    ensures
      var ws := EncodeCpya(REG_TEMP, v) + [Encoding.ThreeRegs(group, ra, rb, REG_TEMP, op)];
      |ws| == 3 && ConstantDecodes(Decode(ws[0]), Decode(ws[1]), 12, v) &&
      Encoding.Reads(Decode(ws[2]), group, ra, rb, 12, op, 0)
  {
    hide InstrDecoder.Decode, Encoding.ThreeRegs, ConstantDecodes;
    ConstantWords(12, v);
    Encoding.ThreeRegsRoundTrip(group, ra, rb, 12, op);
  }

  // ----- building a 32-bit constant -----

  lemma HalvesOfWord(v: int)
    ensures Low16(U32(v / 0x1_0000)) * 0x1_0000 + Low16(U32(v)) == U32(v)
  {
    var q, r: int := v / 0x1_0000_0000, v % 0x1_0000_0000;
    assert v == 0x1_0000_0000 * q + r;
    Arithmetic.QuotientUnique(v, 0x1_0000, 0x1_0000 * q + r / 0x1_0000, r % 0x1_0000);
    Arithmetic.QuotientUnique(v / 0x1_0000, 0x1_0000_0000, q / 0x1_0000, q % 0x1_0000 * 0x1_0000 + r / 0x1_0000);
    Arithmetic.QuotientUnique(q % 0x1_0000 * 0x1_0000 + r / 0x1_0000, 0x1_0000, q % 0x1_0000, r / 0x1_0000);
  }

  lemma PcMoves(pc: Word, j: nat, k: nat)
    ensures Wrap(Wrap(pc + 4 * j) + 4 * k) == Wrap(pc + 4 * (j + k))
  {
    var m: int := 0x1_0000_0000;
    var q, r: int := (pc + 4 * j) / m, (pc + 4 * j) % m;
    var p, t: int := (r + 4 * k) / m, (r + 4 * k) % m;
    Arithmetic.QuotientUnique(pc + 4 * (j + k), m, q + p, t);
  }

  /** The first word is fetched first, and the others are loaded for the instruction after it. */
  lemma FetchFirst(a: Arch, ws: seq<Word>, next: Arch)
    requires Loaded(a, ws) && |ws| > 0
    ensures Load(a.mem, a.pc) == ws[0]
    ensures next.mem == a.mem && next.pc == NextPc(a) ==> Loaded(next, ws[1..])
  {
    assert Wrap(a.pc + 4 * 0) == a.pc;
    if next.mem == a.mem && next.pc == NextPc(a) {
      forall k | 0 <= k < |ws| - 1 ensures Load(next.mem, Wrap(next.pc + 4 * k)) == ws[1..][k] {
        PcMoves(a.pc, 1, k);
      }
    }
  }

  lemma ConstantExecutes(a: Arch, ra: Nibble, v: S64, rest: seq<Word>)
    requires Loaded(a, EncodeCpya(ra, v) + rest)
    ensures Steps(a, 2) == Sets(a, ra, U32(v), 2) && Loaded(Steps(a, 2), rest)
  {
    hide Isa.Exec, Encoding.TwoRegsImm, Alu.Compute, Loaded;
    var ws := EncodeCpya(ra, v) + rest;
    var a1 := Isa.Exec(a);
    FetchFirst(a, ws, a1);
    ImmediateExecutes(a, ra, 0, ADDI, U32(v));
    AddZero(Low16(U32(v)));
    assert a1 == SetReg(a, ra, Low16(U32(v)));
    var a2 := Isa.Exec(a1);
    FetchFirst(a1, ws[1..], a2);
    CpyhiExecutes(a1, ra, U32(v / 0x1_0000));
    assert ws[1..][1..] == rest;
    HighOverLow(a, ra, v);
    PcMoves(a.pc, 1, 1);
    assert Steps(a, 2) == Steps(a1, 1) == Steps(a2, 0) == a2;
  }

  lemma AddZero(h: Half)
    ensures Alu.Compute(ADDI, 0, h) == h
  {
  }

  lemma HighOverLow(a: Arch, ra: Nibble, v: S64)
    ensures
      var low := Put(a.regs, ra, Low16(U32(v)));
      var value := Low16(U32(v / 0x1_0000)) * 0x1_0000 + Get(low, ra) % 0x1_0000;
      Put(low, ra, value) == Put(a.regs, ra, U32(v))
  {
    if ra != 0 {
      HalvesOfWord(v);
      var h: int := Low16(U32(v));
      assert h % 0x1_0000 == h;
      assert a.regs[ra := Low16(U32(v))][ra := U32(v)] == a.regs[ra := U32(v)];
    }
  }

  lemma StepsAdd(a: Arch, j: nat, k: nat)
    ensures Steps(a, j + k) == Steps(Steps(a, j), k)
    decreases j
  {
    hide Isa.Exec;
    if j > 0 {
      StepsAdd(Isa.Exec(a), j - 1, k);
    }
  }

  /** A constant in `temp` and then a jump or call through it: the condition sees the new `temp`. */
  lemma AbsoluteExecutes(a: Arch, call: bool, equal: bool, ra: Nibble, rb: Nibble, v: S64)
    requires Loaded(a, EncodeCpya(REG_TEMP, v) +
      [Encoding.ThreeRegs(if call then 4 else 3, ra, rb, REG_TEMP, if equal then EQ else NE)])
    ensures
      var b := WithTemp(a, U32(v));
      var taken := Condition(equal, Get(b.regs, ra), Get(b.regs, rb));
      Steps(a, 3) == if call then CallsTo(b, taken, U32(v), 3) else JumpsTo(b, taken, U32(v), 3)
  {
    hide Isa.Exec, Encoding.TwoRegsImm, Encoding.ThreeRegs, Loaded;
    var w := Encoding.ThreeRegs(if call then 4 else 3, ra, rb, REG_TEMP, if equal then EQ else NE);
    ConstantExecutes(a, REG_TEMP, v, [w]);
    var c := Steps(a, 2);
    FetchFirst(c, [w], c);
    if call {
      CallExecutes(c, ra, rb, REG_TEMP, equal);
    } else {
      JumpExecutes(c, ra, rb, REG_TEMP, equal);
    }
    PcMoves(a.pc, 2, 1);
    StepsAdd(a, 2, 1);
    assert Steps(c, 1) == Isa.Exec(c);
  }

  // ----- the theorem -----

  lemma OneStep(a: Arch, w: Word)
    requires Loaded(a, [w])
    ensures Load(a.mem, a.pc) == w && Steps(a, 1) == Isa.Exec(a)
  {
    hide Isa.Exec;
    FetchFirst(a, [w], a);
    assert Steps(Isa.Exec(a), 0) == Isa.Exec(a);
  }

  lemma ComplementWithZero(x: Word)
    ensures Alu.Compute(NOR, x, 0) == 0xFFFF_FFFF - x && Alu.Compute(NOR, 0, x) == 0xFFFF_FFFF - x
    ensures Alu.Compute(ADD, x, 0) == x
  {
    hide Bits.Or, Bits.Not;
    Pow2At32();
    OrZero(x, 32);
    NotIsSubtraction(x, 32);
  }

  lemma {:induction false} OrZero(x: nat, n: nat)
    requires x < Pow2(n)
    ensures Or(x, 0, n) == x && Or(0, x, n) == x
  {
    if n > 0 {
      OrZero(x / 2, n - 1);
    }
  }

  /** The registers of a conditional form are compared after `temp` has changed. */
  predicate ReadsTemp(i: Instr) {
    (i.JumpAbsolute? || i.CallAbsolute?) && (i.ra == REG_TEMP || i.rb == REG_TEMP)
  }

  lemma RegisterToRegisterMeans(i: Instr, v: S64, pc: U64, a: Arch)
    requires (i.Inv? || i.Cpy? || i.CpyPc?) && Loaded(a, WordsOf(i, v, pc))
    ensures Steps(a, 1) == Documented(i, v, a)
  {
    hide Isa.Exec, Encoding.TwoRegsImm, Encoding.Group0, Loaded, Steps, Alu.Compute;
    match i
    case Inv(ra, rb) =>
      OneStep(a, Encoding.Group0(ra, rb, 0, NOR));
      Group0Executes(a, ra, rb, 0, NOR);
      ComplementWithZero(Get(a.regs, rb));
    case Cpy(ra, rb) =>
      OneStep(a, Encoding.Group0(ra, rb, 0, ADD));
      Group0Executes(a, ra, rb, 0, ADD);
      ComplementWithZero(Get(a.regs, rb));
    case CpyPc(ra) =>
      OneStep(a, Encoding.TwoRegsImm(1, ra, 0, ADDSI, 0));
      AddsiExecutes(a, ra);
  }

  lemma InviMeans(ra: Nibble, e: Expr, v: S64, pc: U64, a: Arch)
    requires Loaded(a, WordsOf(Invi(ra, e), v, pc))
    ensures Steps(a, 1) == Documented(Invi(ra, e), v, a)
  {
    hide Isa.Exec, Encoding.TwoRegsImm, Loaded, Steps, Alu.Compute;
    OneStep(a, Encoding.TwoRegsImm(1, ra, 0, NORI, U32(v)));
    ImmediateExecutes(a, ra, 0, NORI, U32(v));
    LowFieldOf(v);
    ComplementWithZero(Low16(v));
  }

  lemma CpyiMeans(ra: Nibble, e: Expr, v: S64, pc: U64, a: Arch)
    requires Loaded(a, WordsOf(Cpyi(ra, e), v, pc))
    ensures Steps(a, 1) == Documented(Cpyi(ra, e), v, a)
  {
    hide Isa.Exec, Encoding.TwoRegsImm, Loaded, Steps, Alu.Compute;
    OneStep(a, Encoding.TwoRegsImm(1, ra, 0, ADDI, U32(v)));
    ImmediateExecutes(a, ra, 0, ADDI, U32(v));
    LowFieldOf(v);
    AddZero(Low16(v));
  }

  lemma IncDecMeans(inc: bool, ra: Nibble, v: S64, pc: U64, a: Arch)
    requires Loaded(a, WordsOf(IncDec(inc, ra), v, pc))
    ensures Steps(a, 1) == Documented(IncDec(inc, ra), v, a)
  {
    hide Isa.Exec, Encoding.TwoRegsImm, Loaded, Steps, Alu.Compute;
    OneStep(a, Encoding.TwoRegsImm(1, ra, ra, if inc then ADDI else SUBI, 1));
    ImmediateExecutes(a, ra, ra, if inc then ADDI else SUBI, 1);
    CountsByOne(Get(a.regs, ra));
  }

  lemma CountsByOne(x: Word)
    ensures Alu.Compute(ADDI, x, 1) == Wrap(x + 1) && Alu.Compute(SUBI, x, 1) == Wrap(x - 1)
  {
  }

  lemma TempLeavesOthers(a: Arch, v: Word, r: Nibble)
    requires r != REG_TEMP
    ensures Get(WithTemp(a, v).regs, r) == Get(a.regs, r)
  {
  }

  lemma AbsoluteMeans(i: Instr, v: S64, pc: U64, a: Arch)
    requires i.Jmpa? || i.Calla? || i.JumpAbsolute? || i.CallAbsolute?
    requires !ReadsTemp(i) && Loaded(a, WordsOf(i, v, pc))
    ensures Steps(a, 3) == Documented(i, v, a)
  {
    hide Isa.Exec, Encoding.ThreeRegs, EncodeCpya, Loaded, Steps, WithTemp;
    match i
    case Jmpa(_) => AbsoluteExecutes(a, false, true, 0, 0, v);
    case Calla(_) => AbsoluteExecutes(a, true, true, 0, 0, v);
    case JumpAbsolute(equal, ra, rb, _) =>
      TempLeavesOthers(a, U32(v), ra);
      TempLeavesOthers(a, U32(v), rb);
      AbsoluteExecutes(a, false, equal, ra, rb, v);
    case CallAbsolute(equal, ra, rb, _) =>
      TempLeavesOthers(a, U32(v), ra);
      TempLeavesOthers(a, U32(v), rb);
      AbsoluteExecutes(a, true, equal, ra, rb, v);
  }

  lemma RegisterMeans(i: Instr, v: S64, pc: U64, a: Arch)
    requires (i.Cpya? || i.Jmp? || i.CallReg?) && Loaded(a, WordsOf(i, v, pc))
    ensures Steps(a, WordCount(i)) == Documented(i, v, a)
  {
    hide Isa.Exec, Encoding.ThreeRegs, EncodeCpya, Loaded, Steps;
    match i
    case Cpya(ra, _) =>
      assert EncodeCpya(ra, v) + [] == EncodeCpya(ra, v);
      ConstantExecutes(a, ra, v, []);
    case Jmp(rc) =>
      OneStep(a, Encoding.ThreeRegs(3, 0, 0, rc, EQ));
      JumpExecutes(a, 0, 0, rc, true);
    case CallReg(rc) =>
      OneStep(a, Encoding.ThreeRegs(4, 0, 0, rc, EQ));
      CallExecutes(a, 0, 0, rc, true);
  }

  /** Every pseudo instruction does what is documented, unless it compares the register it has just used. */
  lemma PseudoMeans(i: Instr, v: S64, pc: U64, a: Arch)
    requires IsPseudo(i) && !ReadsTemp(i) && Loaded(a, WordsOf(i, v, pc))
    ensures Steps(a, WordCount(i)) == Documented(i, v, a)
  {
    hide Assembler.WordsOf, Documented, Loaded, Steps;
    if i.Jmpa? || i.Calla? || i.JumpAbsolute? || i.CallAbsolute? {
      AbsoluteMeans(i, v, pc, a);
    } else if i.Cpya? || i.Jmp? || i.CallReg? {
      RegisterMeans(i, v, pc, a);
    } else if i.Inv? || i.Cpy? || i.CpyPc? {
      RegisterToRegisterMeans(i, v, pc, a);
    } else {
      match i
      case Invi(ra, e) => InviMeans(ra, e, v, pc, a);
      case Cpyi(ra, e) => CpyiMeans(ra, e, v, pc, a);
      case IncDec(inc, ra) => IncDecMeans(inc, ra, v, pc, a);
    }
  }

  /** A conditional form that compares `temp` compares the target instead: exactly then it can go the wrong way. */
  lemma ConditionalMeansExactly(equal: bool, call: bool, ra: Nibble, rb: Nibble, e: Expr, v: S64, pc: U64, a: Arch)
    requires
      var i := if call then CallAbsolute(equal, ra, rb, e) else JumpAbsolute(equal, ra, rb, e);
      Loaded(a, WordsOf(i, v, pc))
    ensures
      var i := if call then CallAbsolute(equal, ra, rb, e) else JumpAbsolute(equal, ra, rb, e);
      var b := WithTemp(a, U32(v));
      var fallsOnTarget := U32(v) == Wrap(a.pc + 12) && (call ==> b.regs[LR] == Wrap(a.pc + 12));
      Steps(a, 3) == Documented(i, v, a) <==>
        (Condition(equal, Get(b.regs, ra), Get(b.regs, rb)) == Condition(equal, Get(a.regs, ra), Get(a.regs, rb)) ||
         fallsOnTarget)
  {
    hide Isa.Exec, Encoding.ThreeRegs, EncodeCpya, Loaded, Steps;
    AbsoluteExecutes(a, call, equal, ra, rb, v);
    var b := WithTemp(a, U32(v));
    assert Put(b.regs, LR, Wrap(a.pc + 12))[LR] == Wrap(a.pc + 12);
    if b.regs[LR] == Wrap(a.pc + 12) {
      assert Put(b.regs, LR, Wrap(a.pc + 12)) == b.regs;
    }
  }

  // ----- branches -----

  /** The offset the assembler computes, as it compares it with the range of an immediate. */
  function Offset(v: S64, pc: U64): S64 {
    ToS64(ToU64(v - pc - 4))
  }

  /** The assembler warns when the offset does not survive 16 signed bits. */
  predicate WarnsOutOfRange(v: S64, pc: U64) {
    !(-0x8000 <= Offset(v, pc) < 0x8000)
  }

  lemma Congruent(n: int, m: int, k: int)
    requires n == 0x1_0000_0000 * k + m
    ensures U32(n) == U32(m)
  {
    var q, r: int := m / 0x1_0000_0000, m % 0x1_0000_0000;
    assert n == 0x1_0000_0000 * (k + q) + r;
    Arithmetic.QuotientUnique(n, 0x1_0000_0000, k + q, r);
  }

  lemma OffsetHalf(n: int)
    ensures U32(ToU64(n)) == U32(n) && Low16(U32(n)) == Low16(n)
    ensures Low16(n) == Low16(Signed(U32(n)))
  {
    var q: int := n / 0x1_0000_0000_0000_0000;
    Congruent(n, ToU64(n), 0x1_0000_0000 * q);
    var p, r: int := U32(n) / 0x1_0000, U32(n) % 0x1_0000;
    assert n == 0x1_0000 * (0x1_0000 * (n / 0x1_0000_0000) + p) + r;
    Arithmetic.QuotientUnique(n, 0x1_0000, 0x1_0000 * (n / 0x1_0000_0000) + p, r);
    assert Signed(U32(n)) == 0x1_0000 * (if U32(n) < 0x8000_0000 then p else p - 0x1_0000) + r;
    Arithmetic.QuotientUnique(Signed(U32(n)), 0x1_0000, if U32(n) < 0x8000_0000 then p else p - 0x1_0000, r);
  }

  /** A 16-bit field stands for the number it was cut from exactly when that number fits. */
  lemma FieldKeepsExactly(m: int)
    ensures Simm(Low16(m)) == m <==> -0x8000 <= m < 0x8000
  {
  }

  lemma SameTarget(pc: U64, s: int, v: S64)
    requires -0x8000 <= s < 0x8000
    ensures Wrap(Wrap(pc) + 4 + s) == U32(v) <==> s == Signed(U32(v - pc - 4))
  {
    var n, m: int := v - pc - 4, Signed(U32(v - pc - 4));
    Congruent(pc + 4 + s, Wrap(pc) + 4 + s, pc / 0x1_0000_0000);
    var k: int := if U32(n) < 0x8000_0000 then n / 0x1_0000_0000 else n / 0x1_0000_0000 + 1;
    assert n == 0x1_0000_0000 * k + m;
    Congruent(v, pc + 4 + m, k);
    CloseTargets(pc + 4, s, m);
  }

  lemma CloseTargets(at: int, s: int, m: int)
    requires -0x8000_0000 <= s < 0x8000_0000 && -0x8000_0000 <= m < 0x8000_0000
    ensures U32(at + s) == U32(at + m) <==> s == m
  {
  }

  /** A taken branch goes to the target written exactly when the offset fits, modulo 2^32, in 16 signed bits. */
  lemma OffsetReaches(v: S64, pc: U64)
    ensures
      Wrap(Wrap(pc) + 4 + Simm(Low16(U32(ToU64(v - pc - 4))))) == U32(v) <==>
      -0x8000 <= Signed(U32(v - pc - 4)) < 0x8000
  {
    var n := v - pc - 4;
    OffsetHalf(n);
    SameTarget(pc, Simm(Low16(n)), v);
    FieldKeepsExactly(Signed(U32(n)));
  }

  lemma NoWarningFits(v: S64, pc: U64)
    requires !WarnsOutOfRange(v, pc)
    ensures -0x8000 <= Signed(U32(v - pc - 4)) < 0x8000
  {
    var n := v - pc - 4;
    var o, q: int := Offset(v, pc), n / 0x1_0000_0000_0000_0000;
    Congruent(n, o, 0x1_0000_0000 * (if o < 0 then q + 1 else q));
  }

  lemma BranchExecutes(a: Arch, op: Nibble, ra: Nibble, rb: Nibble, imm: Word)
    requires Load(a.mem, a.pc) == Encoding.TwoRegsImm(2, ra, rb, op, imm)
    ensures
      Isa.Exec(a) ==
      GoTo(a, BranchTaken(op, Ops(Get(a.regs, ra), Get(a.regs, rb), 0), a.ie), Wrap(a.pc + 4 + Simm(Low16(imm))))
  {
    hide InstrDecoder.Decode, Encoding.TwoRegsImm;
    Encoding.TwoRegsImmRoundTrip(2, ra, rb, op, imm);
  }

  /**
   * A branch assembled for the target `v` at address `pc` and executed there goes to `v` when it is
   * taken, exactly when the offset fits; and then the assembler's silence is enough to know it fits.
   */
  lemma BranchReachesTarget(op: Nibble, ra: Nibble, rb: Nibble, v: S64, pc: U64, a: Arch)
    requires a.pc == Wrap(pc) && Load(a.mem, a.pc) == EncodeBranch(op, ra, rb, v, pc)
    ensures
      var taken := BranchTaken(op, Ops(Get(a.regs, ra), Get(a.regs, rb), 0), a.ie);
      var fits := -0x8000 <= Signed(U32(v - pc - 4)) < 0x8000;
      (!taken ==> Isa.Exec(a) == a.(pc := NextPc(a))) &&
      (taken ==> (Isa.Exec(a) == a.(pc := U32(v)) <==> fits)) &&
      (!WarnsOutOfRange(v, pc) ==> fits)
  {
    hide Isa.Exec, Encoding.TwoRegsImm;
    BranchExecutes(a, op, ra, rb, U32(ToU64(v - pc - 4)));
    OffsetReaches(v, pc);
    if !WarnsOutOfRange(v, pc) {
      NoWarningFits(v, pc);
    }
  }

  /** `bra` is always taken, so it reaches its target exactly when the offset fits. */
  lemma BraReachesTarget(e: Expr, v: S64, pc: U64, a: Arch)
    requires a.pc == Wrap(pc) && Loaded(a, WordsOf(Bra(e), v, pc))
    ensures Isa.Exec(a) == a.(pc := U32(v)) <==> -0x8000 <= Signed(U32(v - pc - 4)) < 0x8000
  {
    hide Isa.Exec, Encoding.TwoRegsImm, Loaded;
    OneStep(a, EncodeBranch(EQ, 0, 0, v, pc));
    BranchReachesTarget(EQ, 0, 0, v, pc, a);
  }
}
