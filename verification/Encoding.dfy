/** The assembler's encoders, the disassembler's decoders and the hardware decoder read each other's fields. */
module Encoding {
  import opened Words
  import opened InstrDecoder
  import opened BitRanges
  import Arithmetic

  // Field positions.
  const GROUP_HI: nat := 31
  const GROUP_LO: nat := 28
  const RA_HI: nat := 27
  const RA_LO: nat := 24
  const RB_HI: nat := 23
  const RB_LO: nat := 20
  const RC_HI: nat := 19
  const RC_LO: nat := 16
  const IMM16_HI: nat := 15
  const IMM16_LO: nat := 0
  const IMM12_HI: nat := 15
  const IMM12_LO: nat := 4
  const OP_HI: nat := 3
  const OP_LO: nat := 0

  /** The 64-bit `to_gen` passed on as a 32-bit argument. */
  function ToU32(x: nat): Word {
    x % 0x1_0000_0000
  }

  function Group0(ra: Nibble, rb: Nibble, rc: Nibble, op: Nibble): Word {
    var t := ClearAndSet(0, ra, RA_HI, RA_LO);
    var t := ClearAndSet(t, rb, RB_HI, RB_LO);
    var t := ClearAndSet(t, rc, RC_HI, RC_LO);
    ToU32(ClearAndSet(t, op, OP_HI, OP_LO))
  }

  /** Groups 3, 4 and 6, and group 5 without an immediate. */
  function ThreeRegs(group: Nibble, ra: Nibble, rb: Nibble, rc: Nibble, op: Nibble): Word {
    var t := ClearAndSet(0, group, GROUP_HI, GROUP_LO);
    var t := ClearAndSet(t, ra, RA_HI, RA_LO);
    var t := ClearAndSet(t, rb, RB_HI, RB_LO);
    var t := ClearAndSet(t, rc, RC_HI, RC_LO);
    ToU32(ClearAndSet(t, op, OP_HI, OP_LO))
  }

  /** Groups 1 and 2. */
  function TwoRegsImm(group: Nibble, ra: Nibble, rb: Nibble, op: Nibble, imm: Word): Word {
    var t := ClearAndSet(0, group, GROUP_HI, GROUP_LO);
    var t := ClearAndSet(t, ra, RA_HI, RA_LO);
    var t := ClearAndSet(t, rb, RB_HI, RB_LO);
    var t := ClearAndSet(t, op, RC_HI, RC_LO);
    ToU32(ClearAndSet(t, imm, IMM16_HI, IMM16_LO))
  }

  /** Group 5 with a 12-bit immediate. */
  function LoadStoreImm(ra: Nibble, rb: Nibble, op: Nibble, imm: Word): Word {
    var t := ClearAndSet(0, 5, GROUP_HI, GROUP_LO);
    var t := ClearAndSet(t, ra, RA_HI, RA_LO);
    var t := ClearAndSet(t, rb, RB_HI, RB_LO);
    var t := ClearAndSet(t, imm, IMM12_HI, IMM12_LO);
    ToU32(ClearAndSet(t, op, OP_HI, OP_LO))
  }

  // ----- the disassembler's field reads -----

  datatype Listed = Listed(iog: nat, ra: nat, rb: nat, rc: nat, lowOp: nat, highOp: nat, imm: nat, simm12: int)

  /** A 12-bit signed bit-field member. */
  function SignedField12(v: nat): int {
    if v % 4096 < 0x800 then v % 4096 else v % 4096 - 0x1000
  }

  function Disassemble(w: Word): Listed {
    Listed(GetBits(w, GROUP_HI, GROUP_LO), GetBits(w, RA_HI, RA_LO), GetBits(w, RB_HI, RB_LO), GetBits(w, RC_HI, RC_LO),
           GetBits(w, OP_HI, OP_LO), GetBits(w, RC_HI, RC_LO), GetBits(w, IMM16_HI, IMM16_LO),
            SignedField12(GetBits(w, IMM12_HI, IMM12_LO)))
  }

  // ----- the hardware's slices are the same fields -----

  lemma {:induction false} Pow2Grows(a: nat, b: nat)
    requires a <= b
    ensures Pow2(a) <= Pow2(b)
  {
    if a < b {
      Pow2Grows(a, b - 1);
    }
  }

  lemma Pow2Values()
    ensures Pow2(4) == 16 && Pow2(12) == 0x1000 && Pow2(16) == 0x1_0000 && Pow2(20) == 0x10_0000
    ensures Pow2(24) == 0x100_0000 && Pow2(28) == 0x1000_0000 && Pow2(32) == 0x1_0000_0000 && Pow2(64) > 0x1_0000_0000
  {
    assert Pow2(8) == 0x100;
    Pow2At32();
    Pow2Grows(33, 64);
  }

  lemma SlicesAreFields(w: Word)
    ensures GroupOf(w) == Field(w, 4, 28) && RaOf(w) == Field(w, 4, 24) && RbOf(w) == Field(w, 4, 20)
    ensures RcOf(w) == Field(w, 4, 16) && LowOpOf(w) == Field(w, 4, 0)
    ensures Imm16Of(w) == Field(w, 16, 0) && Imm12Of(w) == Field(w, 12, 4)
  {
    Pow2Values();
    FieldIsSlice(w, 4, 28);
    FieldIsSlice(w, 4, 24);
    FieldIsSlice(w, 4, 20);
    FieldIsSlice(w, 4, 16);
    FieldIsSlice(w, 4, 0);
    FieldIsSlice(w, 16, 0);
    FieldIsSlice(w, 12, 4);
  }

  /** For every word, the disassembler's fields are the ones the hardware decodes. */
  lemma DisassemblerAgrees(w: Word)
    ensures Disassemble(w)
            == Listed(GroupOf(w), RaOf(w), RbOf(w), RcOf(w), LowOpOf(w), RcOf(w), Imm16Of(w), SignedField12(Imm12Of(w)))
  {
    SlicesAreFields(w);
    GetBitsReadsField(w, GROUP_HI, GROUP_LO);
    GetBitsReadsField(w, RA_HI, RA_LO);
    GetBitsReadsField(w, RB_HI, RB_LO);
    GetBitsReadsField(w, RC_HI, RC_LO);
    GetBitsReadsField(w, IMM16_HI, IMM16_LO);
    GetBitsReadsField(w, IMM12_HI, IMM12_LO);
    GetBitsReadsField(w, OP_HI, OP_LO);
  }

  // ----- the encoders lay the fields side by side -----

  function Top(group: int, ra: int, rb: int): int {
    group * 0x1000_0000 + ra * 0x100_0000 + rb * 0x10_0000
  }

  lemma SetGroup(v: Nibble)
    ensures ClearAndSet(0, v, GROUP_HI, GROUP_LO) == v * 0x1000_0000
  {
    assert v % 16 == v;
    Pow2Values();
    ClearAndSetAdds(0, v, GROUP_HI, GROUP_LO, 0x1_0000_0000, 16, 0x1000_0000);
  }

  lemma SetRa(x: nat, v: Nibble)
    requires x < 0x1_0000_0000 && x % 0x1000_0000 == 0
    ensures ClearAndSet(x, v, RA_HI, RA_LO) == x + v * 0x100_0000
  {
    assert v % 16 == v;
    Pow2Values();
    ClearAndSetAdds(x, v, RA_HI, RA_LO, 0x1000_0000, 16, 0x100_0000);
  }

  lemma SetRb(x: nat, v: Nibble)
    requires x < 0x1_0000_0000 && x % 0x100_0000 == 0
    ensures ClearAndSet(x, v, RB_HI, RB_LO) == x + v * 0x10_0000
  {
    assert v % 16 == v;
    Pow2Values();
    ClearAndSetAdds(x, v, RB_HI, RB_LO, 0x100_0000, 16, 0x10_0000);
  }

  lemma SetRc(x: nat, v: Nibble)
    requires x < 0x1_0000_0000 && x % 0x10_0000 == 0
    ensures ClearAndSet(x, v, RC_HI, RC_LO) == x + v * 0x1_0000
  {
    assert v % 16 == v;
    Pow2Values();
    ClearAndSetAdds(x, v, RC_HI, RC_LO, 0x10_0000, 16, 0x1_0000);
  }

  lemma SetImm16(x: nat, v: Word)
    requires x < 0x1_0000_0000 && x % 0x1_0000 == 0
    ensures ClearAndSet(x, v, IMM16_HI, IMM16_LO) == x + v % 0x1_0000
  {
    Pow2Values();
    ClearAndSetAdds(x, v, IMM16_HI, IMM16_LO, 0x1_0000, 0x1_0000, 1);
  }

  lemma SetImm12(x: nat, v: Word)
    requires x < 0x1_0000_0000 && x % 0x1_0000 == 0
    ensures ClearAndSet(x, v, IMM12_HI, IMM12_LO) == x + v % 0x1000 * 16
  {
    Pow2Values();
    ClearAndSetAdds(x, v, IMM12_HI, IMM12_LO, 0x1_0000, 0x1000, 16);
  }

  lemma SetLowOp(x: nat, v: Nibble)
    requires x < 0x1_0000_0000 && x % 16 == 0
    ensures ClearAndSet(x, v, OP_HI, OP_LO) == x + v
  {
    assert v % 16 == v;
    Pow2Values();
    ClearAndSetAdds(x, v, OP_HI, OP_LO, 16, 16, 1);
  }

  lemma TopIsAligned(group: Nibble, ra: Nibble, rb: Nibble)
    ensures 0 <= group * 0x1000_0000 < 0x1_0000_0000 && group * 0x1000_0000 % 0x1000_0000 == 0
    ensures 0 <= group * 0x1000_0000 + ra * 0x100_0000 < 0x1_0000_0000
    ensures (group * 0x1000_0000 + ra * 0x100_0000) % 0x100_0000 == 0
    ensures 0 <= Top(group, ra, rb) <= 0xFFF0_0000 && Top(group, ra, rb) % 0x10_0000 == 0
  {
    assert group * 0x1000_0000 + ra * 0x100_0000 == (group * 16 + ra) * 0x100_0000;
    assert Top(group, ra, rb) == (group * 256 + ra * 16 + rb) * 0x10_0000;
    Arithmetic.QuotientUnique(group * 0x1000_0000, 0x1000_0000, group, 0);
    Arithmetic.QuotientUnique(group * 0x1000_0000 + ra * 0x100_0000, 0x100_0000, group * 16 + ra, 0);
    Arithmetic.QuotientUnique(Top(group, ra, rb), 0x10_0000, group * 256 + ra * 16 + rb, 0);
  }

  lemma WithRcIsAligned(top: nat, rc: Nibble)
    requires top <= 0xFFF0_0000 && top % 0x10_0000 == 0
    ensures (top + rc * 0x1_0000) % 0x1_0000 == 0 && (top + rc * 0x1_0000) % 16 == 0
    ensures top + rc * 0x1_0000 <= 0xFFFF_0000 && top % 0x1_0000 == 0
  {
    var q, c: int := top / 0x10_0000, rc;
    Arithmetic.QuotientUnique(top, 0x1_0000, 16 * q, 0);
    Arithmetic.QuotientUnique(top + c * 0x1_0000, 0x1_0000, 16 * q + c, 0);
    Arithmetic.QuotientUnique(top + c * 0x1_0000, 16, 0x1_0000 * q + 0x1000 * c, 0);
  }

  lemma SetTop(group: Nibble, ra: Nibble, rb: Nibble)
    ensures ClearAndSet(ClearAndSet(ClearAndSet(0, group, GROUP_HI, GROUP_LO), ra, RA_HI, RA_LO), rb, RB_HI, RB_LO)
            == Top(group, ra, rb)
  {
    TopIsAligned(group, ra, rb);
    SetGroup(group);
    SetRa(group * 0x1000_0000, ra);
    SetRb(group * 0x1000_0000 + ra * 0x100_0000, rb);
  }

  lemma FitsU32(x: nat)
    requires x < 0x1_0000_0000
    ensures ToU32(x) == x
  {
  }

  lemma ThreeRegsLayout(group: Nibble, ra: Nibble, rb: Nibble, rc: Nibble, op: Nibble)
    ensures ThreeRegs(group, ra, rb, rc, op) == Top(group, ra, rb) + rc * 0x1_0000 + op
  {
    var top := Top(group, ra, rb);
    SetTop(group, ra, rb);
    TopIsAligned(group, ra, rb);
    WithRcIsAligned(top, rc);
    SetRc(top, rc);
    SetLowOp(top + rc * 0x1_0000, op);
    FitsU32(top + rc * 0x1_0000 + op);
  }

  lemma TwoRegsImmLayout(group: Nibble, ra: Nibble, rb: Nibble, op: Nibble, imm: Word)
    ensures TwoRegsImm(group, ra, rb, op, imm) == Top(group, ra, rb) + op * 0x1_0000 + imm % 0x1_0000
  {
    var top := Top(group, ra, rb);
    SetTop(group, ra, rb);
    TopIsAligned(group, ra, rb);
    WithRcIsAligned(top, op);
    SetRc(top, op);
    SetImm16(top + op * 0x1_0000, imm);
    FitsU32(top + op * 0x1_0000 + imm % 0x1_0000);
  }

  lemma LoadStoreImmLayout(ra: Nibble, rb: Nibble, op: Nibble, imm: Word)
    ensures LoadStoreImm(ra, rb, op, imm) == Top(5, ra, rb) + imm % 0x1000 * 16 + op
  {
    var top := Top(5, ra, rb);
    SetTop(5, ra, rb);
    TopIsAligned(5, ra, rb);
    WithRcIsAligned(top, 0);
    SetImm12(top, imm);
    Imm12IsAligned(top, imm);
    SetLowOp(top + imm % 0x1000 * 16, op);
    FitsU32(top + imm % 0x1000 * 16 + op);
  }

  lemma Imm12IsAligned(top: nat, imm: Word)
    requires top <= 0xFFF0_0000 && top % 0x1_0000 == 0
    ensures (top + imm % 0x1000 * 16) % 16 == 0 && top + imm % 0x1000 * 16 <= 0xFFFF_FFF0
  {
  }

  lemma SetTopOfGroup0(ra: Nibble, rb: Nibble)
    ensures ClearAndSet(ClearAndSet(0, ra, RA_HI, RA_LO), rb, RB_HI, RB_LO) == Top(0, ra, rb)
  {
    var t: nat := ra * 0x100_0000;
    assert t % 0x100_0000 == 0 && t < 0x1000_0000;
    assert Top(0, ra, rb) == t + rb * 0x10_0000;
    SetRa(0, ra);
    SetRb(t, rb);
  }

  /** Group 0 never writes its group field, and needs not. */
  lemma Group0Layout(ra: Nibble, rb: Nibble, rc: Nibble, op: Nibble)
    ensures Group0(ra, rb, rc, op) == Top(0, ra, rb) + rc * 0x1_0000 + op
  {
    var top := Top(0, ra, rb);
    SetTopOfGroup0(ra, rb);
    TopIsAligned(0, ra, rb);
    WithRcIsAligned(top, rc);
    SetRc(top, rc);
    SetLowOp(top + rc * 0x1_0000, op);
    FitsU32(top + rc * 0x1_0000 + op);
  }

  // ----- round trips through the hardware decoder -----

  lemma GroupSlice(group: Nibble, rest: int)
    requires 0 <= rest < 0x1000_0000
    ensures (group * 0x1000_0000 + rest) / 0x1000_0000 == group
  {
  }

  lemma RaSlice(above: int, ra: Nibble, rest: int)
    requires 0 <= rest < 0x100_0000
    ensures ((above * 16 + ra) * 0x100_0000 + rest) / 0x100_0000 % 16 == ra
  {
    assert ((above * 16 + ra) * 0x100_0000 + rest) / 0x100_0000 == above * 16 + ra;
  }

  lemma RbSlice(above: int, rb: Nibble, rest: int)
    requires 0 <= rest < 0x10_0000
    ensures ((above * 16 + rb) * 0x10_0000 + rest) / 0x10_0000 % 16 == rb
  {
    assert ((above * 16 + rb) * 0x10_0000 + rest) / 0x10_0000 == above * 16 + rb;
  }

  lemma RcSlice(above: int, rc: Nibble, rest: int)
    requires 0 <= rest < 0x1_0000
    ensures ((above * 16 + rc) * 0x1_0000 + rest) / 0x1_0000 % 16 == rc
  {
    assert ((above * 16 + rc) * 0x1_0000 + rest) / 0x1_0000 == above * 16 + rc;
  }

  lemma LowSlices(above: int, low: Half)
    ensures (above * 0x1_0000 + low) % 0x1_0000 == low && (above * 0x1_0000 + low) % 16 == low % 16
    ensures (above * 0x1_0000 + low) / 16 % 4096 == low / 16
  {
    assert (above * 0x1_0000 + low) / 16 == above * 4096 + low / 16;
  }

  /** Each hardware slice reads back the field laid there. */
  lemma TopFields(w: Word, group: Nibble, ra: Nibble, rb: Nibble, rc: Nibble, low: Half)
    requires w == Top(group, ra, rb) + rc * 0x1_0000 + low
    ensures GroupOf(w) == group && RaOf(w) == ra && RbOf(w) == rb && RcOf(w) == rc
    ensures LowOpOf(w) == low % 16 && Imm16Of(w) == low && Imm12Of(w) == low / 16
  {
    GroupSlice(group, ra * 0x100_0000 + rb * 0x10_0000 + rc * 0x1_0000 + low);
    RaSlice(group, ra, rb * 0x10_0000 + rc * 0x1_0000 + low);
    RbSlice(group * 16 + ra, rb, rc * 0x1_0000 + low);
    RcSlice(group * 256 + ra * 16 + rb, rc, low);
    LowSlices(group * 4096 + ra * 256 + rb * 16 + rc, low);
  }

  /** The fields of an instruction as its encoder was given them. */
  ghost predicate Reads(i: Fields, group: Nibble, ra: Nibble, rb: Nibble, rc: Nibble, op: Nibble, imm: Half) {
    i.group == group && i.ra == ra && i.rb == rb && i.rc == rc && i.op == op && i.imm == imm
  }

  lemma Group0RoundTrip(ra: Nibble, rb: Nibble, rc: Nibble, op: Nibble)
    ensures Reads(Decode(Group0(ra, rb, rc, op)), 0, ra, rb, rc, op, 0)
  {
    var w := Group0(ra, rb, rc, op);
    Group0Layout(ra, rb, rc, op);
    ThreeRegsFields(w, 0, ra, rb, rc, op);
  }

  lemma ThreeRegsRoundTrip(group: Nibble, ra: Nibble, rb: Nibble, rc: Nibble, op: Nibble)
    requires group in {3, 4, 5, 6}
    ensures Reads(Decode(ThreeRegs(group, ra, rb, rc, op)), group, ra, rb, rc, op, 0)
  {
    var w := ThreeRegs(group, ra, rb, rc, op);
    ThreeRegsLayout(group, ra, rb, rc, op);
    ThreeRegsFields(w, group, ra, rb, rc, op);
  }

  lemma ThreeRegsFields(w: Word, group: Nibble, ra: Nibble, rb: Nibble, rc: Nibble, op: Nibble)
    requires w == Top(group, ra, rb) + rc * 0x1_0000 + op && group in {0, 3, 4, 5, 6}
    ensures Reads(Decode(w), group, ra, rb, rc, op, 0)
  {
    TopFields(w, group, ra, rb, rc, op);
    assert op % 16 == op && op / 16 == 0;
  }

  lemma TwoRegsImmRoundTrip(group: Nibble, ra: Nibble, rb: Nibble, op: Nibble, imm: Word)
    requires group in {1, 2}
    ensures Reads(Decode(TwoRegsImm(group, ra, rb, op, imm)), group, ra, rb, 0, op, imm % 0x1_0000)
  {
    var w := TwoRegsImm(group, ra, rb, op, imm);
    TwoRegsImmLayout(group, ra, rb, op, imm);
    TwoRegsImmFields(w, group, ra, rb, op, imm % 0x1_0000);
  }

  lemma TwoRegsImmFields(w: Word, group: Nibble, ra: Nibble, rb: Nibble, op: Nibble, imm: Half)
    requires w == Top(group, ra, rb) + op * 0x1_0000 + imm && group in {1, 2}
    ensures Reads(Decode(w), group, ra, rb, 0, op, imm)
  {
    TopFields(w, group, ra, rb, op, imm);
  }

  /** The number that the low 12 bits of `n` stand for. */
  function Signed12(n: int): (s: int)
    ensures -0x800 <= n < 0x800 ==> s == n
  {
    (n + 0x800) % 0x1000 - 0x800
  }

  /** The hardware extends them to 16 bits, and a signed bit-field reads them as that number. */
  lemma LowTwelveBits(n: int)
    ensures Extend12(n % 0x1000) == Signed12(n) % 0x1_0000 && SignedField12(n % 0x1000) == Signed12(n)
  {
  }

  lemma CutToWord(v: int)
    ensures Signed12(v % 0x1_0000_0000) == Signed12(v)
  {
    var q, r: int := v / 0x1_0000_0000, v % 0x1_0000_0000;
    var p, t: int := (r + 0x800) / 0x1000, (r + 0x800) % 0x1000;
    assert v + 0x800 == 0x1000 * (0x10_0000 * q + p) + t;
    Arithmetic.QuotientUnique(v + 0x800, 0x1000, 0x10_0000 * q + p, t);
  }

  lemma LoadStoreImmRoundTrip(ra: Nibble, rb: Nibble, op: Nibble, imm: Word)
    ensures Reads(Decode(LoadStoreImm(ra, rb, op, imm)), 5, ra, rb, 0, op, Signed12(imm) % 0x1_0000)
  {
    LowTwelveBits(imm);
    var w := LoadStoreImm(ra, rb, op, imm);
    LoadStoreImmLayout(ra, rb, op, imm);
    LoadStoreImmFields(w, ra, rb, op, imm % 0x1000);
  }

  lemma LoadStoreImmFields(w: Word, ra: Nibble, rb: Nibble, op: Nibble, imm: int)
    requires 0 <= imm < 4096 && w == Top(5, ra, rb) + imm * 16 + op
    ensures Reads(Decode(w), 5, ra, rb, 0, op, Extend12(imm))
  {
    TopFields(w, 5, ra, rb, 0, imm * 16 + op);
    assert (imm * 16 + op) % 16 == op && (imm * 16 + op) / 16 == imm;
  }
}
