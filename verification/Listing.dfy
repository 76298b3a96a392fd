/** Word mode: an encoded instruction printed, parsed by the disassembler and decoded gives its operands back. */
module Listing {
  import opened Words
  import opened Expressions
  import opened InstrDecoder
  import opened Encoding
  import opened HexText

  /** The characters a line of `len` digits holds, and the fields of the word they stand for. */
  function Relisted(line: string): Option<Listed> {
    var digits := Filtered(line);
    if |digits| == 8 && Value(digits).Some? then Some(Disassemble(Wrap(Value(digits).value))) else None
  }

  lemma {:induction false} FilteredAppends(a: string, b: string)
    ensures Filtered(a + b) == Filtered(a) + Filtered(b)
    decreases |b|
  {
    if |b| == 0 {
      assert a + b == a;
    } else {
      assert (a + b)[..|a + b| - 1] == a + b[..|b| - 1];
      FilteredAppends(a, b[..|b| - 1]);
    }
  }

  lemma ByteIsKept(b: Byte)
    ensures Filtered(HexByte(b)) == HexByte(b) && |HexByte(b)| == 2
  {
    TwoDigits(b);
    DigitReads(b / 16);
    DigitReads(b % 16);
    OneKept(Digit(b / 16));
    OneKept(Digit(b % 16));
    FilteredAppends([Digit(b / 16)], [Digit(b % 16)]);
  }

  lemma OneKept(c: char)
    requires c !in "@ \n"
    ensures Filtered([c]) == [c]
  {
    assert [c][..0] == "" && Filtered("") == "";
    assert c != '@' && c != ' ';
  }

  lemma DigitAppends(s: string, v: nat, d: Nibble)
    requires Value(s) == Some(v)
    ensures Value(s + [Digit(d)]) == Some(16 * v + d)
  {
    DigitReads(d);
    assert (s + [Digit(d)])[..|s|] == s;
  }

  lemma ByteAppends(s: string, v: nat, b: Byte)
    requires Value(s) == Some(v)
    ensures Value(s + HexByte(b)) == Some(0x100 * v + b)
  {
    TwoDigits(b);
    DigitAppends(s, v, b / 16);
    DigitAppends(s + [Digit(b / 16)], 16 * v + b / 16, b % 16);
    assert s + HexByte(b) == s + [Digit(b / 16)] + [Digit(b % 16)];
  }

  lemma HalfIsKept(h: Half)
    ensures Filtered(HexHalf(h)) == HexHalf(h) && |HexHalf(h)| == 4
  {
    ByteIsKept(h / 0x100);
    ByteIsKept(h % 0x100);
    FilteredAppends(HexByte(h / 0x100), HexByte(h % 0x100));
  }

  lemma HalfAppends(s: string, v: nat, h: Half)
    requires Value(s) == Some(v)
    ensures Value(s + HexHalf(h)) == Some(0x1_0000 * v + h)
  {
    hide HexText.Value, HexText.HexByte;
    var a, b := h / 0x100, h % 0x100;
    assert h == 0x100 * a + b;
    ByteAppends(s, v, a);
    ByteAppends(s + HexByte(a), 0x100 * v + a, b);
    assert s + HexHalf(h) == s + HexByte(a) + HexByte(b);
  }

  /** Every word printed in word mode is read back as eight digits with its value. */
  lemma WordReadsBack(w: Word)
    ensures |Filtered(HexWord(w))| == 8 && Value(Filtered(HexWord(w))) == Some(w)
  {
    hide HexText.Filtered, HexText.Value, HexText.HexHalf;
    var a, b := w / 0x1_0000, w % 0x1_0000;
    HalfIsKept(a);
    HalfIsKept(b);
    SpaceIsDropped();
    FilteredAppends(HexHalf(a), " ");
    FilteredAppends(HexHalf(a) + " ", HexHalf(b));
    assert Filtered(HexWord(w)) == HexHalf(a) + HexHalf(b);
    NothingIsZero();
    HalfAppends("", 0, a);
    assert "" + HexHalf(a) == HexHalf(a);
    HalfAppends(HexHalf(a), a, b);
  }

  lemma SpaceIsDropped()
    ensures Filtered(" ") == ""
  {
    assert " "[..0] == "";
  }

  lemma NothingIsZero()
    ensures Value("") == Some(0)
  {
  }

  lemma RelistsWord(w: Word)
    ensures Relisted(HexWord(w)) == Some(Disassemble(w))
  {
    hide Encoding.Disassemble, HexText.HexWord, HexText.Filtered, HexText.Value;
    WordReadsBack(w);
  }

  /** The operands the disassembler reads for instructions with their opcode at the bottom. */
  ghost predicate ListsLow(l: Option<Listed>, group: Nibble, ra: Nibble, rb: Nibble, rc: Nibble, op: Nibble) {
    l.Some? && l.value.iog == group && l.value.ra == ra && l.value.rb == rb && l.value.rc == rc && l.value.lowOp == op
  }

  lemma Group0Relists(ra: Nibble, rb: Nibble, rc: Nibble, op: Nibble)
    ensures ListsLow(Relisted(HexWord(Group0(ra, rb, rc, op))), 0, ra, rb, rc, op)
  {
    hide Relisted, HexText.HexWord, Encoding.Disassemble, Encoding.Group0;
    var w := Group0(ra, rb, rc, op);
    RelistsWord(w);
    DisassemblerAgrees(w);
    Group0Layout(ra, rb, rc, op);
    LowFields(w, 0, ra, rb, rc, op);
  }

  lemma LowFields(w: Word, group: Nibble, ra: Nibble, rb: Nibble, rc: Nibble, op: Nibble)
    requires w == Top(group, ra, rb) + rc * 0x1_0000 + op
    ensures GroupOf(w) == group && RaOf(w) == ra && RbOf(w) == rb && RcOf(w) == rc && LowOpOf(w) == op
  {
    TopFields(w, group, ra, rb, rc, op);
    assert op % 16 == op;
  }

  lemma ThreeRegsRelists(group: Nibble, ra: Nibble, rb: Nibble, rc: Nibble, op: Nibble)
    requires group in {3, 4, 5, 6}
    ensures ListsLow(Relisted(HexWord(ThreeRegs(group, ra, rb, rc, op))), group, ra, rb, rc, op)
  {
    hide Relisted, HexText.HexWord, Encoding.Disassemble, Encoding.ThreeRegs;
    var w := ThreeRegs(group, ra, rb, rc, op);
    RelistsWord(w);
    DisassemblerAgrees(w);
    ThreeRegsLayout(group, ra, rb, rc, op);
    LowFields(w, group, ra, rb, rc, op);
  }

  /** Groups 1 and 2: the opcode sits where rC would be, and the immediate is cut to 16 bits. */
  lemma TwoRegsImmRelists(group: Nibble, ra: Nibble, rb: Nibble, op: Nibble, imm: Word)
    requires group in {1, 2}
    ensures
      var l := Relisted(HexWord(TwoRegsImm(group, ra, rb, op, imm)));
      l.Some? && l.value.iog == group && l.value.ra == ra && l.value.rb == rb && l.value.highOp == op &&
      l.value.imm == imm % 0x1_0000
  {
    hide Relisted, HexText.HexWord, Encoding.Disassemble, Encoding.TwoRegsImm;
    var w := TwoRegsImm(group, ra, rb, op, imm);
    RelistsWord(w);
    DisassemblerAgrees(w);
    TwoRegsImmLayout(group, ra, rb, op, imm);
    TopFields(w, group, ra, rb, op, imm % 0x1_0000);
  }

  /** Group 5 with an immediate: the 12 bits come back as the number they stand for. */
  lemma LoadStoreImmRelists(ra: Nibble, rb: Nibble, op: Nibble, imm: Word)
    ensures
      var l := Relisted(HexWord(LoadStoreImm(ra, rb, op, imm)));
      l.Some? && l.value.iog == 5 && l.value.ra == ra && l.value.rb == rb && l.value.lowOp == op &&
      l.value.simm12 == Signed12(imm)
    ensures forall v: int | -0x800 <= v < 0x800 && imm == v % 0x1_0000_0000 :: Signed12(imm) == v
  {
    hide Relisted, HexText.HexWord, Encoding.Disassemble, Encoding.LoadStoreImm, Encoding.Signed12;
    forall v: int | -0x800 <= v < 0x800 && imm == v % 0x1_0000_0000 ensures Signed12(imm) == v {
      CutToWord(v);
    }
    var w := LoadStoreImm(ra, rb, op, imm);
    RelistsWord(w);
    DisassemblerAgrees(w);
    LowTwelveBits(imm);
    LoadStoreImmLayout(ra, rb, op, imm);
    Imm12Fields(w, ra, rb, op, imm % 0x1000);
  }

  lemma Imm12Fields(w: Word, ra: Nibble, rb: Nibble, op: Nibble, imm: int)
    requires 0 <= imm < 4096 && w == Top(5, ra, rb) + imm * 16 + op
    ensures GroupOf(w) == 5 && RaOf(w) == ra && RbOf(w) == rb && LowOpOf(w) == op && Imm12Of(w) == imm
  {
    TopFields(w, 5, ra, rb, 0, imm * 16 + op);
    assert (imm * 16 + op) % 16 == op && (imm * 16 + op) / 16 == imm;
  }
}
