/** The combinational ALU and the magnitude comparison. */
module Alu {
  import opened Words
  import opened Bits
  import Arithmetic

  function Shl(a: Word, n: Word): Word {
    if n >= 32 then 0 else Wrap(a * Pow2(n))
  }

  function Lsr(a: Word, n: Word): Word {
    if n >= 32 then 0 else Floor(a, Pow2(n))
  }

  function Floor(a: Word, d: nat): Word
    requires d > 0
  {
    a / d
  }

  /** Arithmetic shift: the quotient rounds down because the divisor is positive. */
  function Asr(a: Word, n: Word): Word {
    if n >= 32 then (if Signed(a) < 0 then 0xFFFF_FFFF else 0) else Wrap(Signed(a) / Pow2(n))
  }

  function Truth(b: bool): Word {
    if b then 1 else 0
  }

  /** A 32-bit result is a word. */
  function Fit(r: nat): Word
    requires r < Pow2(32)
  {
    Pow2At32();
    r
  }

  function Compute(oper: Nibble, a: Word, b: Word): Word {
    match oper
    case 0 => Wrap(a + b)
    case 1 => Wrap(a - b)
    case 2 => Truth(a < b)
    case 3 => Truth(Signed(a) < Signed(b))
    case 4 => Truth(a > b)
    case 5 => Truth(Signed(a) > Signed(b))
    case 6 => 0
    case 7 => Fit(And(a, b, 32))
    case 8 => Fit(Or(a, b, 32))
    case 9 => Fit(Xor(a, b, 32))
    case 10 => Fit(Not(Or(a, b, 32), 32))
    case 11 => Shl(a, b)
    case 12 => Lsr(a, b)
    case 13 => Asr(a, b)
    case _ => 0
  }

  /** Multiplies and divides are not the ALU's: it gives zero for their opcodes. */
  lemma OthersGiveZero(oper: Nibble, a: Word, b: Word)
    ensures oper in {6, 14, 15} ==> Compute(oper, a, b) == 0
  {
  }

  // ----- shifts move bits -----

  lemma {:induction false} TimesMovesBits(a: nat, n: nat, i: nat)
    ensures Bit(a * Pow2(n), i) == (i >= n && Bit(a, i - n))
  {
    if n > 0 {
      var y: nat := a * Pow2(n - 1);
      Arithmetic.Double(a, Pow2(n - 1));
      assert a * Pow2(n) == 2 * y && 2 * y / 2 == y;
      if i > 0 {
        TimesMovesBits(a, n - 1, i - 1);
      }
    }
  }

  lemma {:induction false} RemainderKeepsBits(x: nat, k: nat, i: nat)
    ensures Bit(Rest(x, Pow2(k)), i) == (i < k && Bit(x, i))
  {
    if k == 0 {
      ZeroHasNoBits(i);
    } else {
      HalfOfRest(x, Pow2(k - 1));
      if i > 0 {
        RemainderKeepsBits(x / 2, k - 1, i - 1);
      }
    }
  }

  function Rest(x: nat, p: nat): nat
    requires p > 0
  {
    x % p
  }

  lemma HalfOfRest(x: nat, p: nat)
    requires p > 0
    ensures Rest(x, 2 * p) % 2 == x % 2 && Rest(x, 2 * p) / 2 == Rest(x / 2, p)
  {
    Arithmetic.ModHalf(x, p);
  }

  function Quotient(x: nat, d: nat): nat
    requires d > 0
  {
    Arithmetic.QuotientBound(x, d);
    x / d
  }

  lemma {:induction false} QuotientMovesBits(x: nat, n: nat, i: nat)
    ensures Bit(Quotient(x, Pow2(n)), i) == Bit(x, i + n)
  {
    if n > 0 {
      Arithmetic.DivHalf(x, Pow2(n - 1));
      QuotientMovesBits(x / 2, n - 1, i);
    }
  }

  lemma ShlMeaning(a: Word, n: Word, i: nat)
    ensures Bit(Shl(a, n), i) == (n <= i < 32 && Bit(a, i - n))
  {
    if n >= 32 {
      ZeroHasNoBits(i);
    } else {
      Pow2At32();
      TimesMovesBits(a, n, i);
      RemainderKeepsBits(a * Pow2(n), 32, i);
    }
  }

  lemma {:induction false} NoHighBits(x: nat, k: nat, i: nat)
    requires x < Pow2(k) && i >= k
    ensures !Bit(x, i)
  {
    if k == 0 {
      ZeroHasNoBits(i);
    } else {
      NoHighBits(x / 2, k - 1, i - 1);
    }
  }

  lemma LsrMeaning(a: Word, n: Word, i: nat)
    ensures Bit(Lsr(a, n), i) == (i + n < 32 && Bit(a, i + n))
  {
    Pow2At32();
    if n >= 32 {
      ZeroHasNoBits(i);
    } else {
      QuotientMovesBits(a, n, i);
      if i + n >= 32 {
        NoHighBits(a, 32, i + n);
      }
    }
  }

  /** A negative number shifted arithmetically is the complement of its complement shifted logically. */
  lemma AsrOfNegative(a: Word, n: Word)
    requires a >= 0x8000_0000 && n < 32
    ensures Asr(a, n) == Not(Lsr(Fit(Not(a, 32)), n), 32)
  {
    hide Bits.Not;
    Pow2At32();
    NotIsSubtraction(a, 32);
    var b: Word := Fit(Not(a, 32));
    Arithmetic.FloorOfNegative(b, Pow2(n));
    Arithmetic.QuotientBound(b, Pow2(n));
    NotIsSubtraction(Lsr(b, n), 32);
  }

  /** The sign fills in from the top. */
  lemma AsrMeaning(a: Word, n: Word, i: nat)
    requires i < 32
    ensures Bit(Asr(a, n), i) == if i + n < 32 then Bit(a, i + n) else a >= 0x8000_0000
  {
    hide Bits.Not, Bits.Bit, Asr, Lsr;
    if n >= 32 {
      AllOrNothing(a, n, i);
    } else if a < 0x8000_0000 {
      AsrOfPositive(a, n);
      LsrMeaning(a, n, i);
    } else {
      var b := Fit(Not(a, 32));
      AsrOfNegative(a, n);
      NotMeaning(Lsr(b, n), 32, i);
      LsrMeaning(b, n, i);
      NotMeaning(a, 32, i + n);
    }
  }

  lemma AsrOfPositive(a: Word, n: Word)
    requires a < 0x8000_0000 && n < 32
    ensures Asr(a, n) == Lsr(a, n)
  {
    Arithmetic.QuotientBound(a, Pow2(n));
  }

  lemma AllOrNothing(a: Word, n: Word, i: nat)
    requires i < 32 && n >= 32
    ensures Bit(Asr(a, n), i) == (a >= 0x8000_0000)
  {
    hide Bits.Not;
    Pow2At32();
    NotIsSubtraction(0, 32);
    NotMeaning(0, 32, i);
    ZeroHasNoBits(i);
  }
}
