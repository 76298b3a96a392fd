/**
 * The documented instructions by group and opcode number: what each leaves in registers, memory and `pc`,
 * in numbers and bits, without the datapath's own functions.
 */
module InstructionSet {
  import opened Words
  import opened Bits
  import opened InstrDecoder
  import opened MainMem
  import opened RegisterFile
  import opened Isa
  import Alu
  import DividerProofs
  import Encoding
  import Evaluation
  import Stages

  /** A 16-bit immediate as a signed number. */
  function SignedHalf(h: Half): int {
    if h < 0x8000 then h else h - 0x1_0000
  }

  function SignedByte(b: Byte): int {
    if b < 0x80 then b else b - 0x100
  }

  function SignedWord(w: Word): int {
    if w < 0x8000_0000 then w else w - 0x1_0000_0000
  }

  // ----- groups 0 and 1 -----

  /** The result of an ALU opcode on two operands. */
  ghost predicate Produces(op: Nibble, x: Word, y: Word, r: Word) {
    match op
    case 0 => r == (x + y) % 0x1_0000_0000
    case 1 => r == (x - y) % 0x1_0000_0000
    case 2 => r == if x < y then 1 else 0
    case 3 => r == if SignedWord(x) < SignedWord(y) then 1 else 0
    case 4 => r == if x > y then 1 else 0
    case 5 => r == if SignedWord(x) > SignedWord(y) then 1 else 0
    case 6 => r == x * y % 0x1_0000_0000
    case 7 => forall i: nat | i < 32 :: Bit(r, i) == (Bit(x, i) && Bit(y, i))
    case 8 => forall i: nat | i < 32 :: Bit(r, i) == (Bit(x, i) || Bit(y, i))
    case 9 => forall i: nat | i < 32 :: Bit(r, i) == (Bit(x, i) != Bit(y, i))
    case 10 => forall i: nat | i < 32 :: Bit(r, i) == !(Bit(x, i) || Bit(y, i))
    case 11 => forall i: nat | i < 32 :: Bit(r, i) == (i >= y && Bit(x, i - y))
    case 12 => forall i: nat | i < 32 :: Bit(r, i) == (i + y < 32 && Bit(x, i + y))
    case 13 => forall i: nat | i < 32 :: Bit(r, i) == if i + y < 32 then Bit(x, i + y) else x >= 0x8000_0000
    case 14 => if y == 0 then r == 0 else Evaluation.Divides(x, y, r, x - y * r)
    case _ =>
      if y == 0 then r == 0
      else exists q :: Quotes(SignedWord(x), SignedWord(y), q) && r == q % 0x1_0000_0000
  }

  /** `q` is `n / d` rounded toward zero. */
  predicate Quotes(n: int, d: int, q: int) {
    Evaluation.Divides(n, d, q, n - d * q)
  }

  /** With an immediate: opcodes 3 and 5 compare it signed, and 14 and 15 are `addsi` and `cpyhi`. */
  ghost predicate ProducesImmediate(op: Nibble, x: Word, own: Word, pc: Word, h: Half, r: Word) {
    match op
    case 3 => r == if SignedWord(x) < SignedHalf(h) then 1 else 0
    case 5 => r == if SignedWord(x) > SignedHalf(h) then 1 else 0
    case 14 => r == (pc + SignedHalf(h)) % 0x1_0000_0000
    case 15 => r == h * 0x1_0000 + own % 0x1_0000
    case _ => Produces(op, x, h, r)
  }

  lemma BitwiseProduces(op: Nibble, x: Word, y: Word)
    requires op in {7, 8, 9, 10}
    ensures Produces(op, x, y, Alu.Compute(op, x, y))
  {
    hide Bit, And, Or, Xor, Not;
    forall i: nat | i < 32
      ensures Bit(Alu.Compute(op, x, y), i) == match op
        case 7 => Bit(x, i) && Bit(y, i)
        case 8 => Bit(x, i) || Bit(y, i)
        case 9 => Bit(x, i) != Bit(y, i)
        case _ => !(Bit(x, i) || Bit(y, i))
    {
      AndMeaning(x, y, 32, i);
      OrMeaning(x, y, 32, i);
      XorMeaning(x, y, 32, i);
      NotMeaning(Or(x, y, 32), 32, i);
    }
  }

  lemma ShiftProduces(op: Nibble, x: Word, y: Word)
    requires op in {11, 12, 13}
    ensures Produces(op, x, y, Alu.Compute(op, x, y))
  {
    hide Bit, Alu.Shl, Alu.Lsr, Alu.Asr;
    forall i: nat | i < 32
      ensures Bit(Alu.Compute(op, x, y), i) == match op
        case 11 => i >= y && Bit(x, i - y)
        case 12 => i + y < 32 && Bit(x, i + y)
        case _ => if i + y < 32 then Bit(x, i + y) else x >= 0x8000_0000
    {
      Alu.ShlMeaning(x, y, i);
      Alu.LsrMeaning(x, y, i);
      Alu.AsrMeaning(x, y, i);
    }
  }

  lemma DivisionProduces(op: Nibble, x: Word, y: Word)
    requires op in {14, 15}
    ensures Produces(op, x, y, Alu3(op, x, y))
  {
    hide DividerProofs.Truncated;
    if y != 0 {
      if op == 14 {
        var q, m: int := x / y, x % y;
        assert x == y * q + m;
      } else {
        var n, d := SignedWord(x), SignedWord(y);
        DividerProofs.TruncatedRebuilds(n, d);
        assert Quotes(n, d, DividerProofs.Truncated(n, d));
      }
    }
  }

  lemma OpcodeProduces(op: Nibble, x: Word, y: Word)
    ensures Produces(op, x, y, Alu3(op, x, y))
  {
    hide Bit, Produces, Alu.Compute;
    if op in {7, 8, 9, 10} {
      BitwiseProduces(op, x, y);
    } else if op in {11, 12, 13} {
      ShiftProduces(op, x, y);
    } else if op in {14, 15} {
      DivisionProduces(op, x, y);
    } else {
      ArithmeticProduces(op, x, y);
    }
  }

  lemma ArithmeticProduces(op: Nibble, x: Word, y: Word)
    requires op <= 6
    ensures Produces(op, x, y, Alu3(op, x, y))
  {
  }

  lemma ImmediateProduces(a: Arch, i: Fields, o: Stages.Ops)
    ensures ProducesImmediate(i.op, o.b, o.a, a.pc, i.imm, AluImm(a, i, o))
  {
    hide Bit, Produces;
    if i.op !in {3, 5, 14, 15} {
      OpcodeProduces(i.op, o.b, i.imm);
    } else {
      ExtensionIsSigned(a.pc, i.imm);
    }
  }

  /** Group 0 leaves the opcode's result of rB and rC in rA and goes on. */
  lemma RegisterForm(a: Arch) returns (r: Word)
    requires InstrAt(a).group == 0
    ensures
      var i := InstrAt(a);
      Isa.Exec(a) == a.(regs := Put(a.regs, i.ra, r), pc := (a.pc + 4) % 0x1_0000_0000) &&
      Produces(i.op, Get(a.regs, i.rb), Get(a.regs, i.rc), r)
  {
    hide Produces, Alu3;
    var i := InstrAt(a);
    OpcodeProduces(i.op, Get(a.regs, i.rb), Get(a.regs, i.rc));
    r := Alu3(i.op, Get(a.regs, i.rb), Get(a.regs, i.rc));
  }

  /** Group 1 leaves the opcode's result of rB and the immediate in rA and goes on. */
  lemma ImmediateForm(a: Arch) returns (r: Word)
    requires InstrAt(a).group == 1
    ensures
      var i := InstrAt(a);
      Isa.Exec(a) == a.(regs := Put(a.regs, i.ra, r), pc := (a.pc + 4) % 0x1_0000_0000) &&
      ProducesImmediate(i.op, Get(a.regs, i.rb), Get(a.regs, i.ra), a.pc, i.imm, r)
  {
    hide ProducesImmediate, AluImm;
    var i := InstrAt(a);
    ImmediateProduces(a, i, OperandsIn(a.regs, i));
    r := AluImm(a, i, OperandsIn(a.regs, i));
  }

  // ----- group 4 -----

  /** A taken call leaves the next address in register 13 and goes to rC; one that is not taken goes on. */
  lemma CallForm(a: Arch)
    requires InstrAt(a).group == 4
    ensures
      var i := InstrAt(a);
      var next := (a.pc + 4) % 0x1_0000_0000;
      Isa.Exec(a) ==
        if Taken(i.op, OperandsIn(a.regs, i)) then a.(regs := a.regs[13 := next], pc := Get(a.regs, i.rc))
        else a.(pc := next)
  {
  }

  // ----- group 5 -----

  /** The base plus rC, or from opcode 8 on plus the signed immediate. */
  function Addressed(i: Fields, r: Regs): Word {
    (Get(r, i.rb) + if i.op < 8 then Get(r, i.rc) else SignedHalf(i.imm)) % 0x1_0000_0000
  }

  /** The word of memory that an address is in. */
  function WordAt(m: Memory, addr: Word): Word {
    m[addr / 4 % 2048]
  }

  /** What each of the five loads makes of that word. */
  function Extracted(op: Nibble, w: Word): Word {
    match op
    case 0 => w
    case 1 => w % 0x1_0000
    case 2 => SignedHalf(w % 0x1_0000) % 0x1_0000_0000
    case 3 => w % 0x100
    case _ => SignedByte(w % 0x100) % 0x1_0000_0000
  }

  lemma LoadMeans(op: Nibble, w: Word)
    requires op < 5
    ensures Stages.LoadedValue(op, w) == Extracted(op, w)
  {
    hide Words.SignExtend, SignedHalf, SignedByte;
    HalfExtends(w % 0x1_0000);
    ByteExtends(w % 0x100);
  }

  lemma HalfExtends(h: Half)
    ensures SignExtend(h) == SignedHalf(h) % 0x1_0000_0000
  {
  }

  lemma ByteExtends(b: Byte)
    ensures SignedByte(b) % 0x1_0000_0000 == if b < 0x80 then b else b + 0xFFFF_FF00
  {
  }

  lemma AddressMeans(r: Regs, i: Fields)
    ensures EffectiveAddress(i, OperandsIn(r, i)) == Addressed(i, r)
  {
  }

  /** Opcodes 0 to 4 and 8 to 12 load a word, half or byte into rA; the others store rA as a word. */
  lemma LoadStoreForm(a: Arch)
    requires InstrAt(a).group == 5
    ensures
      var i := InstrAt(a);
      var addr := Addressed(i, a.regs);
      var next := (a.pc + 4) % 0x1_0000_0000;
      Isa.Exec(a) ==
        if i.op % 8 < 5 then a.(regs := Put(a.regs, i.ra, Extracted(i.op % 8, WordAt(a.mem, addr))), pc := next)
        else a.(mem := a.mem[addr / 4 % 2048 := Get(a.regs, i.ra)], pc := next)
  {
    hide InstrDecoder.Decode, Stages.LoadedValue, Extracted, EffectiveAddress, Addressed, RegisterFile.Put;
    var i, o := InstrAt(a), OperandsIn(a.regs, InstrAt(a));
    DecodeWellFormed(Load(a.mem, a.pc));
    AddressMeans(a.regs, i);
    if i.ldst < 5 {
      LoadMeans(i.op % 8, WordAt(a.mem, EffectiveAddress(i, o)));
    }
  }

  /** Loading where a word was stored gives that word; every other word is as before. */
  lemma StoreThenLoad(m: Memory, stored: Word, loaded: Word, v: Word)
    ensures
      Load(Store(m, stored, v), loaded) == if stored / 4 % 2048 == loaded / 4 % 2048 then v else WordAt(m, loaded)
  {
  }

  lemma HalfOfSigned12(n: int)
    ensures SignedHalf(Encoding.Signed12(n) % 0x1_0000) == Encoding.Signed12(n)
  {
  }

  /** The 12 bits of an encoded immediate address base plus the number written, if that fits 12 signed bits. */
  lemma EncodedOffsetAddresses(a: Arch, ra: Nibble, rb: Nibble, op: Nibble, v: int)
    requires op >= 8 && Load(a.mem, a.pc) == Encoding.LoadStoreImm(ra, rb, op, v % 0x1_0000_0000)
    ensures
      var i := InstrAt(a);
      i.group == 5 && i.op == op && i.ra == ra &&
      Addressed(i, a.regs) == (Get(a.regs, rb) + Encoding.Signed12(v)) % 0x1_0000_0000 &&
      EffectiveAddress(i, OperandsIn(a.regs, i)) == Addressed(i, a.regs)
    ensures -0x800 <= v < 0x800 ==> Encoding.Signed12(v) == v
  {
    hide InstrDecoder.Decode, Encoding.LoadStoreImm;
    Encoding.LoadStoreImmRoundTrip(ra, rb, op, v % 0x1_0000_0000);
    Encoding.CutToWord(v);
    HalfOfSigned12(v);
  }
}
