/** Facts about products, quotients and remainders with a variable divisor. */
module Arithmetic {

  lemma NonNegative(a: int, b: int)
    requires 0 <= a && 0 <= b
    ensures 0 <= a * b
  {
  }

  lemma Subtract(d: int, a: int, b: int)
    ensures d * (a - b) == d * a - d * b
  {
  }

  lemma Double(n: int, p: int)
    ensures n * (2 * p) == 2 * (n * p)
  {
  }

  lemma Grow(d: nat, e: int)
    requires e >= 1
    ensures d * e >= d && d * (0 - e) <= 0 - d
  {
    Subtract(d, e, 1);
    NonNegative(d, e - 1);
  }

  lemma QuotientUnique(n: int, d: int, q: int, r: int)
    requires d > 0 && n == d * q + r && 0 <= r < d
    ensures q == n / d && r == n % d
  {
    var e := q - n / d;
    assert d * e == n % d - r by {
      assert n == d * (n / d) + n % d;
      Subtract(d, q, n / d);
    }
    if e > 0 {
      Grow(d, e);
    } else if e < 0 {
      Grow(d, 0 - e);
    }
  }

  lemma QuotientBound(n: nat, d: nat)
    requires d > 0
    ensures 0 <= n / d <= n
  {
    QuotientBoundParts(n, d, n / d, n % d);
  }

  lemma QuotientBoundParts(n: nat, d: nat, q: int, r: int)
    requires d > 0 && n == d * q + r && 0 <= r < d
    ensures 0 <= q <= n
  {
    if q < 0 {
      Grow(d, 0 - q);
    } else {
      NonNegative(d - 1, q);
    }
  }

  lemma ModHalf(x: nat, p: nat)
    requires p > 0
    ensures x % (2 * p) == 2 * (x / 2 % p) + x % 2
  {
    Halves(x, p);
  }

  lemma DivHalf(x: nat, p: nat)
    requires p > 0
    ensures x / (2 * p) == x / 2 / p
  {
    Halves(x, p);
  }

  lemma Halves(x: nat, p: nat)
    requires p > 0
    ensures x / (2 * p) == x / 2 / p && x % (2 * p) == 2 * (x / 2 % p) + x % 2
  {
    var q, r := x / 2 / p, x / 2 % p;
    assert x / 2 == p * q + r;
    Double(q, p);
    QuotientUnique(x, 2 * p, q, 2 * r + x % 2);
  }

  lemma FloorOfNegative(b: nat, d: nat)
    requires d > 0
    ensures (-1 - b) / d == -1 - b / d
  {
    var e, q, r: int := d, b / d, b % d;
    assert -1 - b == e * (-1 - q) + (e - 1 - r) by {
      assert b == e * q + r;
      assert e * (-1 - q) == -e - e * q;
    }
    QuotientUnique(-1 - b, e, -1 - q, e - 1 - r);
  }
}
