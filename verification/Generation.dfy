/** The bytes of numbers, and how generated output adds up. */
module Generation {
  import opened Words
  import opened Expressions
  import opened Assembler
  import opened BitRanges
  import Arithmetic
  import Encoding

  lemma AdvanceTwice(pc: U64, a: nat, b: nat)
    ensures Advance(Advance(pc, a), b) == Advance(pc, a + b)
  {
    var m: int := 0x1_0000_0000_0000_0000;
    var q, r: int := (pc + a) / m, (pc + a) % m;
    var p, t: int := (r + b) / m, (r + b) % m;
    assert pc + (a + b) == m * (q + p) + t;
    Arithmetic.QuotientUnique(pc + (a + b), m, q + p, t);
  }

  lemma AdvanceNone(pc: U64)
    ensures Advance(pc, 0) == pc
  {
  }

  lemma {:induction false} CellsAppend(pc: U64, a: seq<Byte>, b: seq<Byte>)
    ensures CellsFrom(pc, a + b) == CellsFrom(pc, a) + CellsFrom(Advance(pc, |a|), b)
    decreases |a|
  {
    hide Assembler.Advance;
    if |a| == 0 {
      assert a + b == b;
      AdvanceNone(pc);
    } else {
      assert (a + b)[1..] == a[1..] + b;
      CellsAppend(Advance(pc, 1), a[1..], b);
      AdvanceTwice(pc, 1, |a| - 1);
    }
  }

  /** Generating two runs of bytes is generating them as one. */
  lemma GenerateTwice(o: Output, a: seq<Byte>, b: seq<Byte>, pass: bool)
    ensures Generate(Generate(o, a, pass), b, pass) == Generate(o, a + b, pass)
  {
    AdvanceTwice(o.pc, |a|, |b|);
    CellsAppend(o.pc, a, b);
    assert o.cells + CellsFrom(o.pc, a) + CellsFrom(Advance(o.pc, |a|), b) ==
      o.cells + (CellsFrom(o.pc, a) + CellsFrom(Advance(o.pc, |a|), b));
  }

  lemma GenerateNothing(o: Output, pass: bool)
    ensures Generate(o, [], pass) == o
  {
    assert o.cells + [] == o.cells;
  }

  /** Generating one more word of a list. */
  lemma {:induction false} WordsAppend(ws: seq<Word>, w: Word)
    ensures BytesOfWords(ws + [w]) == BytesOfWords(ws) + BytesOf(w, 4)
    decreases |ws|
  {
    if |ws| == 0 {
      assert ws + [w] == [w] && [w][1..] == [];
      assert BytesOf(w, 4) + [] == [] + BytesOf(w, 4);
    } else {
      assert (ws + [w])[1..] == ws[1..] + [w];
      WordsAppend(ws[1..], w);
    }
  }

  // ----- the bytes that the bit-range helper cuts out -----

  lemma OneByte(n: nat)
    ensures BytesOf(n, 1) == [n % 0x100]
  {
    assert BytesOf(n, 1) == BytesOf(n / 0x100, 0) + [n % 0x100];
  }

  lemma TwoBytes(n: nat)
    ensures BytesOf(n, 2) == [n / 0x100 % 0x100, n % 0x100]
  {
    OneByte(n / 0x100);
  }

  lemma FourBytes(n: nat)
    ensures BytesOf(n, 4) == BytesOf(n / 0x1_0000, 2) + BytesOf(n, 2)
  {
    TwoBytes(n);
    assert BytesOf(n, 4) == BytesOf(n / 0x100, 3) + [n % 0x100];
    assert BytesOf(n / 0x100, 3) == BytesOf(n / 0x100 / 0x100, 2) + [n / 0x100 % 0x100];
    assert n / 0x100 / 0x100 == n / 0x1_0000;
  }

  lemma ByteFields(n: nat)
    requires n < 0x1_0000_0000
    ensures GetBits(n, 7, 0) == n % 0x100 && GetBits(n, 15, 8) == n / 0x100 % 0x100
    ensures GetBits(n, 23, 16) == n / 0x1_0000 % 0x100 && GetBits(n, 31, 24) == n / 0x100_0000 % 0x100
  {
    Encoding.Pow2Values();
    assert Pow2(8) == 0x100;
    GetBitsReadsField(n, 7, 0);
    GetBitsReadsField(n, 15, 8);
    GetBitsReadsField(n, 23, 16);
    GetBitsReadsField(n, 31, 24);
    FieldIsSlice(n, 8, 0);
    FieldIsSlice(n, 8, 8);
    FieldIsSlice(n, 8, 16);
    FieldIsSlice(n, 8, 24);
  }

  lemma HalfFields(n: nat)
    requires n < 0x1_0000_0000
    ensures GetBits(n, 15, 0) == n % 0x1_0000 && GetBits(n, 31, 16) == n / 0x1_0000
  {
    Encoding.Pow2Values();
    GetBitsReadsField(n, 15, 0);
    GetBitsReadsField(n, 31, 16);
    FieldIsSlice(n, 16, 0);
    FieldIsSlice(n, 16, 16);
  }

  lemma CutHalves(n: nat)
    ensures n % 0x1_0000_0000 % 0x1_0000 == n % 0x1_0000
    ensures n % 0x1_0000_0000 / 0x1_0000 == n / 0x1_0000 % 0x1_0000
  {
    var q, r: int := n / 0x1_0000_0000, n % 0x1_0000_0000;
    Arithmetic.QuotientUnique(n, 0x1_0000, 0x1_0000 * q + r / 0x1_0000, r % 0x1_0000);
    Arithmetic.QuotientUnique(n / 0x1_0000, 0x1_0000, q, r / 0x1_0000);
  }

  /** A number cut to 32 bits has the same four low bytes. */
  lemma CutKeepsFour(n: nat)
    ensures BytesOf(n % 0x1_0000_0000, 4) == BytesOf(n, 4)
  {
    hide Assembler.BytesOf;
    var m: nat := n % 0x1_0000_0000;
    FourBytes(n);
    FourBytes(m);
    CutHalves(n);
    CutKeepsTwo(n / 0x1_0000);
    CutKeepsTwo(n);
    CutKeepsTwo(m);
  }

  lemma CutKeepsTwo(n: nat)
    ensures BytesOf(n % 0x1_0000, 2) == BytesOf(n, 2)
  {
    hide Assembler.BytesOf;
    TwoBytes(n);
    TwoBytes(n % 0x1_0000);
    CutQuarters(n);
  }

  lemma CutQuarters(n: nat)
    ensures n % 0x1_0000 % 0x100 == n % 0x100 && n % 0x1_0000 / 0x100 % 0x100 == n / 0x100 % 0x100
  {
    var q, r: int := n / 0x1_0000, n % 0x1_0000;
    var h, t: int := r / 0x100, r % 0x100;
    Arithmetic.QuotientUnique(n, 0x100, 0x100 * q + h, t);
    Arithmetic.QuotientUnique(n / 0x100, 0x100, q, h);
  }

  /** The bytes of a half, as the bit-range helper cuts them. */
  lemma HalfParts(n: Half)
    ensures GetBits(n, 15, 8) == n / 0x100 && GetBits(n, 7, 0) == n % 0x100
  {
    ByteFields(n);
  }

  /** The halves of a word and their bytes, as the bit-range helper cuts them. */
  lemma WordParts(n: Word)
    ensures GetBits(n, 31, 16) == n / 0x1_0000 && GetBits(n, 15, 0) == n % 0x1_0000
    ensures GetBits(n, 31, 24) < 0x100 && GetBits(n, 23, 16) < 0x100
    ensures GetBits(n, 15, 8) < 0x100 && GetBits(n, 7, 0) < 0x100
    ensures 0x100 * GetBits(n, 31, 24) + GetBits(n, 23, 16) == n / 0x1_0000
    ensures 0x100 * GetBits(n, 15, 8) + GetBits(n, 7, 0) == n % 0x1_0000
    ensures BytesOf(n, 4) == BytesOf(n / 0x1_0000, 2) + BytesOf(n % 0x1_0000, 2)
  {
    hide BitRanges.GetBits, Assembler.BytesOf;
    HalfFields(n);
    ByteFields(n);
    Quarters(n);
    FourBytes(n);
    CutKeepsTwo(n);
  }

  lemma Quarters(n: Word)
    ensures n / 0x100_0000 < 0x100
    ensures n / 0x100_0000 % 0x100 == n / 0x100_0000
    ensures 0x100 * (n / 0x100_0000) + n / 0x1_0000 % 0x100 == n / 0x1_0000
    ensures 0x100 * (n / 0x100 % 0x100) + n % 0x100 == n % 0x1_0000
  {
    var h, l: int := n / 0x1_0000, n % 0x1_0000;
    Arithmetic.QuotientUnique(n, 0x100_0000, h / 0x100, h % 0x100 * 0x1_0000 + l);
    Arithmetic.QuotientUnique(n / 0x100, 0x100, h, l / 0x100);
    Arithmetic.QuotientUnique(n, 0x100, h * 0x100 + l / 0x100, l % 0x100);
  }

  /** The number that bytes stand for, the first byte highest. */
  function Join(b: seq<Byte>): nat {
    if |b| == 0 then 0 else 0x100 * Join(b[..|b| - 1]) + b[|b| - 1]
  }

  function Pow256(n: nat): (p: nat)
    ensures p > 0
  {
    if n == 0 then 1 else 0x100 * Pow256(n - 1)
  }

  /** The bytes of a number, joined again, are its low bytes. */
  lemma {:induction false} BytesRebuild(n: nat, width: nat)
    ensures Join(BytesOf(n, width)) == n % Pow256(width)
  {
    if width > 0 {
      var above := BytesOf(n / 0x100, width - 1);
      BytesRebuild(n / 0x100, width - 1);
      assert BytesOf(n, width)[..width - 1] == above;
      LowByte(n, Pow256(width - 1));
    }
  }

  lemma LowByte(n: nat, p: nat)
    requires p > 0
    ensures n % (0x100 * p) == 0x100 * (n / 0x100 % p) + n % 0x100
  {
    var m, k: int := n / 0x100, p;
    var q, r: int := m / k, m % k;
    assert m == k * q + r;
    assert n == 0x100 * k * q + (0x100 * r + n % 0x100);
    Arithmetic.QuotientUnique(n, 0x100 * k, q, 0x100 * r + n % 0x100);
  }
}
