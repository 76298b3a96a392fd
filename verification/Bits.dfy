/** Bitwise operators on naturals, bit by bit from the least significant end. */
module Bits {
  import opened Words

  /** Bit `i` of `x`. */
  function Bit(x: nat, i: nat): bool {
    if i == 0 then x % 2 == 1 else Bit(x / 2, i - 1)
  }

  function FromBit(b: bool): nat {
    if b then 1 else 0
  }

  function And(a: nat, b: nat, n: nat): (r: nat)
    ensures r < Pow2(n)
  {
    if n == 0 then 0 else 2 * And(a / 2, b / 2, n - 1) + FromBit(a % 2 == 1 && b % 2 == 1)
  }

  function Or(a: nat, b: nat, n: nat): (r: nat)
    ensures r < Pow2(n)
  {
    if n == 0 then 0 else 2 * Or(a / 2, b / 2, n - 1) + FromBit(a % 2 == 1 || b % 2 == 1)
  }

  function Xor(a: nat, b: nat, n: nat): (r: nat)
    ensures r < Pow2(n)
  {
    if n == 0 then 0 else 2 * Xor(a / 2, b / 2, n - 1) + FromBit((a % 2 == 1) != (b % 2 == 1))
  }

  function Not(a: nat, n: nat): (r: nat)
    ensures r < Pow2(n)
  {
    if n == 0 then 0 else 2 * Not(a / 2, n - 1) + FromBit(a % 2 == 0)
  }

  // Each operator acts on every bit position alone, below the width and nowhere above it.

  lemma {:induction false} AndMeaning(a: nat, b: nat, n: nat, i: nat)
    ensures Bit(And(a, b, n), i) == (i < n && Bit(a, i) && Bit(b, i))
  {
    if n == 0 {
      ZeroHasNoBits(i);
    } else if i > 0 {
      AndMeaning(a / 2, b / 2, n - 1, i - 1);
    }
  }

  lemma {:induction false} OrMeaning(a: nat, b: nat, n: nat, i: nat)
    ensures Bit(Or(a, b, n), i) == (i < n && (Bit(a, i) || Bit(b, i)))
  {
    if n == 0 {
      ZeroHasNoBits(i);
    } else if i > 0 {
      OrMeaning(a / 2, b / 2, n - 1, i - 1);
    }
  }

  lemma {:induction false} XorMeaning(a: nat, b: nat, n: nat, i: nat)
    ensures Bit(Xor(a, b, n), i) == (i < n && Bit(a, i) != Bit(b, i))
  {
    if n == 0 {
      ZeroHasNoBits(i);
    } else if i > 0 {
      XorMeaning(a / 2, b / 2, n - 1, i - 1);
    }
  }

  lemma {:induction false} NotMeaning(a: nat, n: nat, i: nat)
    ensures Bit(Not(a, n), i) == (i < n && !Bit(a, i))
  {
    if n == 0 {
      ZeroHasNoBits(i);
    } else if i > 0 {
      NotMeaning(a / 2, n - 1, i - 1);
    }
  }

  lemma {:induction false} ZeroHasNoBits(i: nat)
    ensures !Bit(0, i)
  {
    if i > 0 {
      ZeroHasNoBits(i - 1);
    }
  }

  /** Complement is subtraction from the all-ones number. */
  lemma {:induction false} NotIsSubtraction(a: nat, n: nat)
    requires a < Pow2(n)
    ensures Not(a, n) == Pow2(n) - 1 - a
  {
    if n > 0 {
      NotIsSubtraction(a / 2, n - 1);
    }
  }
}
