/** The 32-bit multiplier: three 16-bit partial products over two clocks. */
module Multiplier {
  import opened Words

  datatype MulIn = MulIn(enable: bool, x: Word, y: Word)

  datatype MulUnit = MulUnit(
    state: nat, x: Word, y: Word,
    x0y0: Word, x1y0: Word, x0y1: Word,
    canAccept: bool, ready: bool, prod: Word)

  const RESET_UNIT: MulUnit := MulUnit(0, 0, 0, 0, 0, 0, true, false, 0)
  const RESET_IN: MulIn := MulIn(false, 0, 0)

  function Lo(w: Word): Half { w % 0x1_0000 }
  function Hi(w: Word): Half { w / 0x1_0000 }

  /** A 16-bit by 16-bit product fits its 32-bit target. */
  function Partial(a: Half, b: Half): (p: Word)
    ensures p == a * b
  {
    MulBound(a, b);
    a * b
  }

  lemma MulBound(a: Half, b: Half)
    ensures 0 <= a * b < 0x1_0000_0000
  {
    ProductNonNegative(a, b);
    ProductNonNegative(0xFFFF - a, b);
  }

  lemma ProductNonNegative(m: int, n: int)
    requires 0 <= m && 0 <= n
    ensures 0 <= m * n
  {
  }

  /**
   * The middle sum sits inside a concatenation, so it is cut to 32 bits before
   * it is placed above sixteen zeroes; the outer sum is cut to 32 bits too.
   */
  function Combine(x0y0: Word, x1y0: Word, x0y1: Word): Word {
    Wrap(Wrap(x1y0 + x0y1) * 0x1_0000 + x0y0)
  }

  function Product(x: Word, y: Word): Word {
    Wrap(x * y)
  }

  function Step(u: MulUnit, i: MulIn): MulUnit {
    if i.enable && u.canAccept then
      u.(x := i.x, y := i.y, canAccept := false, ready := false, state := 1)
    else if !u.canAccept then
      if u.state == 1 then
        u.(state := 0,
           x0y0 := Partial(Lo(u.x), Lo(u.y)),
           x0y1 := Partial(Lo(u.x), Hi(u.y)),
           x1y0 := Partial(Hi(u.x), Lo(u.y)))
      else
        u.(state := 1, prod := Combine(u.x0y0, u.x1y0, u.x0y1), canAccept := true, ready := true)
    else
      u
  }

  /** The dropped high product and the cut middle sum only lose multiples of 2^32. */
  lemma PartialProductsCombine(x: Word, y: Word)
    ensures Combine(Partial(Lo(x), Lo(y)), Partial(Hi(x), Lo(y)), Partial(Lo(x), Hi(y))) == Product(x, y)
  {
    var x0: int, x1: int, y0: int, y1: int := Lo(x), Hi(x), Lo(y), Hi(y);
    var mid := x1 * y0 + x0 * y1;
    var cut := mid / 0x1_0000_0000;
    assert x * y == x1 * y1 * 0x1_0000_0000 + mid * 0x1_0000 + x0 * y0 by {
      assert x == x1 * 0x1_0000 + x0 && y == y1 * 0x1_0000 + y0;
      Distribute(x1, x0, y1, y0);
    }
    assert Wrap(mid) == mid - cut * 0x1_0000_0000;
    assert x * y == Wrap(mid) * 0x1_0000 + x0 * y0 + (x1 * y1 + cut * 0x1_0000) * 0x1_0000_0000;
    WrapShift(Wrap(mid) * 0x1_0000 + x0 * y0, x1 * y1 + cut * 0x1_0000);
  }

  lemma Distribute(x1: int, x0: int, y1: int, y0: int)
    ensures (x1 * 0x1_0000 + x0) * (y1 * 0x1_0000 + y0)
            == x1 * y1 * 0x1_0000_0000 + (x1 * y0 + x0 * y1) * 0x1_0000 + x0 * y0
  {
    var b := 0x1_0000;
    assert (x1 * b + x0) * (y1 * b + y0) == (x1 * b) * (y1 * b) + (x1 * b) * y0 + x0 * (y1 * b) + x0 * y0;
    assert (x1 * b) * (y1 * b) == x1 * y1 * 0x1_0000_0000;
  }

  lemma WrapShift(n: int, k: int)
    ensures Wrap(n + k * 0x1_0000_0000) == Wrap(n)
  {
  }

  predicate Idle(u: MulUnit) {
    u.canAccept
  }

  /** Three clocks after a request the product is on the output, and the unit is free again. */
  lemma MultiplyTakesThreeClocks(u: MulUnit, i: MulIn, quiet: MulIn)
    requires Idle(u) && i.enable && !quiet.enable
    ensures var u1 := Step(u, i);
            var u2 := Step(u1, quiet);
            var u3 := Step(u2, quiet);
            && u1.prod == u.prod && u2.prod == u.prod
            && u3.prod == Product(i.x, i.y)
            && !Idle(u1) && !Idle(u2) && Idle(u3)
  {
    PartialProductsCombine(i.x, i.y);
  }
}
