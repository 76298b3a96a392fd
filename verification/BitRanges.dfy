/**
 * Bit ranges of 64-bit numbers: the mask-and-shift helpers, and the fields they
 * read and replace. Everything recurses on bits, so no power of two is multiplied.
 */
module BitRanges {
  import opened Words
  import opened Bits
  import Arithmetic

  /** Width of `size_t` and of the 64-bit numbers the encoders build. */
  const SIZE_BITS: nat := 64

  /** `w` one bits above `lo` zero bits. */
  function Mask(w: nat, lo: nat): nat {
    if lo > 0 then 2 * Mask(w, lo - 1) else if w > 0 then 2 * Mask(w - 1, 0) + 1 else 0
  }

  function ShiftLeft(v: nat, n: nat): nat {
    if n == 0 then v else 2 * ShiftLeft(v, n - 1)
  }

  function ShiftRight(v: nat, n: nat): nat {
    if n == 0 then v else ShiftRight(v / 2, n - 1)
  }

  /** The helper that reads bits `hi` down to `lo`. */
  function GetBits(x: nat, hi: nat, lo: nat): nat
    requires lo <= hi
  {
    ShiftRight(And(x, Mask(hi - lo + 1, lo), SIZE_BITS), lo)
  }

  /** The helper that clears bits `hi` down to `lo` and sets them from `val`. */
  function ClearAndSet(x: nat, val: nat, hi: nat, lo: nat): nat
    requires lo <= hi
  {
    var w := hi - lo + 1;
    Or(And(x, Not(Mask(w, lo), SIZE_BITS), SIZE_BITS), ShiftLeft(And(val, Mask(w, 0), SIZE_BITS), lo), SIZE_BITS)
  }

  /** Bits `lo + w - 1` down to `lo`. */
  function Field(x: nat, w: nat, lo: nat): nat {
    if lo > 0 then Field(x / 2, w, lo - 1) else if w > 0 then 2 * Field(x / 2, w - 1, 0) + x % 2 else 0
  }

  /** `x` with those bits taken from the low bits of `val`. */
  function Replace(x: nat, val: nat, w: nat, lo: nat): nat {
    if lo > 0 then 2 * Replace(x / 2, val, w, lo - 1) + x % 2
    else if w > 0 then 2 * Replace(x / 2, val / 2, w - 1, 0) + val % 2
    else x
  }

  // ----- the helpers read and replace fields -----

  lemma {:induction false} AndMaskIsField(x: nat, w: nat, lo: nat, n: nat)
    requires w + lo <= n
    ensures And(x, Mask(w, lo), n) == ShiftLeft(Field(x, w, lo), lo)
  {
    if lo > 0 {
      AndMaskIsField(x / 2, w, lo - 1, n - 1);
    } else if w > 0 {
      AndMaskIsField(x / 2, w - 1, 0, n - 1);
    } else {
      AndZero(x, n);
    }
  }

  lemma {:induction false} AndZero(x: nat, n: nat)
    ensures And(x, 0, n) == 0
  {
    if n > 0 {
      AndZero(x / 2, n - 1);
    }
  }

  lemma {:induction false} ShiftBack(v: nat, n: nat)
    ensures ShiftRight(ShiftLeft(v, n), n) == v
  {
    if n > 0 {
      ShiftBack(v, n - 1);
    }
  }

  lemma GetBitsReadsField(x: nat, hi: nat, lo: nat)
    requires lo <= hi < 64
    ensures GetBits(x, hi, lo) == Field(x, hi - lo + 1, lo)
  {
    AndMaskIsField(x, hi - lo + 1, lo, SIZE_BITS);
    ShiftBack(Field(x, hi - lo + 1, lo), lo);
  }

  lemma {:induction false} KeepAll(x: nat, n: nat)
    requires x < Pow2(n)
    ensures Or(And(x, Not(0, n), n), 0, n) == x
  {
    if n > 0 {
      KeepAll(x / 2, n - 1);
    }
  }

  lemma {:induction false} MergeLow(x: nat, val: nat, w: nat, n: nat)
    requires x < Pow2(n) && w <= n
    ensures Or(And(x, Not(Mask(w, 0), n), n), Field(val, w, 0), n) == Replace(x, val, w, 0)
  {
    hide *;
    if w > 0 {
      LowBits(x, val, w, n);
      NotBit(Mask(w - 1, 0), n);
      MergeLow(x / 2, val / 2, w - 1, n - 1);
      MergeSetBit(x, Not(Mask(w - 1, 0), n - 1), Field(val / 2, w - 1, 0), val % 2, n);
    } else {
      NothingMerged(x, val, n);
    }
  }

  lemma NothingMerged(x: nat, val: nat, n: nat)
    requires x < Pow2(n)
    ensures Or(And(x, Not(Mask(0, 0), n), n), Field(val, 0, 0), n) == Replace(x, val, 0, 0)
  {
    hide Bits.And, Bits.Or, Bits.Not;
    KeepAll(x, n);
  }

  lemma LowBits(x: nat, val: nat, w: nat, n: nat)
    requires x < Pow2(n) && 0 < w <= n
    ensures x / 2 < Pow2(n - 1) && Mask(w, 0) == 2 * Mask(w - 1, 0) + 1
    ensures Field(val, w, 0) == 2 * Field(val / 2, w - 1, 0) + val % 2
    ensures Replace(x, val, w, 0) == 2 * Replace(x / 2, val / 2, w - 1, 0) + val % 2
  {
  }

  lemma NotBit(m: nat, n: nat)
    requires n > 0
    ensures Not(2 * m + 1, n) == 2 * Not(m, n - 1) && Not(2 * m, n) == 2 * Not(m, n - 1) + 1
  {
    assert (2 * m + 1) / 2 == m && (2 * m) / 2 == m;
  }

  lemma MergeSetBit(x: nat, keep: nat, v: nat, bit: nat, n: nat)
    requires n > 0 && bit < 2
    ensures Or(And(x, 2 * keep, n), 2 * v + bit, n) == 2 * Or(And(x / 2, keep, n - 1), v, n - 1) + bit
  {
  }

  lemma {:induction false} MergeIsReplace(x: nat, val: nat, w: nat, lo: nat, n: nat)
    requires x < Pow2(n) && w + lo <= n
    ensures Or(And(x, Not(Mask(w, lo), n), n), ShiftLeft(Field(val, w, 0), lo), n) == Replace(x, val, w, lo)
  {
    if lo > 0 {
      hide Bits.And, Bits.Or, Bits.Not, Field;
      NotBit(Mask(w, lo - 1), n);
      var v := ShiftLeft(Field(val, w, 0), lo - 1);
      var keep := Not(Mask(w, lo - 1), n - 1);
      MergeIsReplace(x / 2, val, w, lo - 1, n - 1);
      MergeEvenBit(x, keep, v, n);
    } else {
      MergeLow(x, val, w, n);
    }
  }

  lemma MergeEvenBit(x: nat, keep: nat, v: nat, n: nat)
    requires n > 0
    ensures Or(And(x, 2 * keep + 1, n), 2 * v, n) == 2 * Or(And(x / 2, keep, n - 1), v, n - 1) + x % 2
  {
  }

  lemma ClearAndSetReplaces(x: nat, val: nat, hi: nat, lo: nat)
    requires lo <= hi < 64 && x < Pow2(SIZE_BITS)
    ensures ClearAndSet(x, val, hi, lo) == Replace(x, val, hi - lo + 1, lo)
  {
    AndMaskIsField(val, hi - lo + 1, 0, SIZE_BITS);
    MergeIsReplace(x, val, hi - lo + 1, lo, SIZE_BITS);
  }

  /** Above zero bits, replacing is adding. */
  lemma {:induction false} ReplaceAdds(x: nat, val: nat, w: nat, lo: nat)
    requires x % Pow2(w + lo) == 0
    ensures Replace(x, val, w, lo) == x + ShiftLeft(Field(val, w, 0), lo)
  {
    if w + lo > 0 {
      Arithmetic.ModHalf(x, Pow2(w + lo - 1));
    }
    if lo > 0 {
      ReplaceAdds(x / 2, val, w, lo - 1);
    } else if w > 0 {
      ReplaceAdds(x / 2, val / 2, w - 1, 0);
    }
  }

  lemma {:induction false} ShiftLeftIsProduct(v: nat, n: nat)
    ensures ShiftLeft(v, n) == v * Pow2(n)
  {
    if n > 0 {
      ShiftLeftIsProduct(v, n - 1);
      Arithmetic.Double(v, Pow2(n - 1));
    }
  }

  /** The helper, used from the top field down, adds the cut value in place. */
  lemma ClearAndSetAdds(x: nat, val: nat, hi: nat, lo: nat, above: nat, size: nat, unit: nat)
    requires lo <= hi < 64 && x < Pow2(SIZE_BITS)
    requires above == Pow2(hi + 1) && size == Pow2(hi - lo + 1) && unit == Pow2(lo)
    requires x % above == 0
    ensures ClearAndSet(x, val, hi, lo) == x + (val % size) * unit
  {
    hide ClearAndSet, Field, Replace, ShiftLeft;
    ClearAndSetReplaces(x, val, hi, lo);
    ReplaceAdds(x, val, hi - lo + 1, lo);
    FieldIsRemainder(val, hi - lo + 1);
    ShiftLeftIsProduct(Field(val, hi - lo + 1, 0), lo);
  }

  // ----- fields as division and remainder -----

  lemma {:induction false} FieldIsRemainder(x: nat, w: nat)
    ensures Field(x, w, 0) == x % Pow2(w)
  {
    if w > 0 {
      FieldIsRemainder(x / 2, w - 1);
      Arithmetic.ModHalf(x, Pow2(w - 1));
    }
  }

  lemma {:induction false} FieldIsSlice(x: nat, w: nat, lo: nat)
    ensures Field(x, w, lo) == x / Pow2(lo) % Pow2(w)
  {
    if lo > 0 {
      FieldIsSlice(x / 2, w, lo - 1);
      Arithmetic.DivHalf(x, Pow2(lo - 1));
    } else {
      FieldIsRemainder(x, w);
    }
  }
}
