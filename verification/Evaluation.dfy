/** What every form of expression evaluates to, in numbers and bits. */
module Evaluation {
  import opened Words
  import opened Bits
  import opened Expressions
  import Arithmetic

  const LEAST: int := -0x8000_0000_0000_0000
  const MODULUS: int := 0x1_0000_0000_0000_0000

  predicate InRange(n: int) {
    -0x8000_0000_0000_0000 <= n < 0x8000_0000_0000_0000
  }

  /** The bits of a number in two's complement. */
  predicate BitAt(n: int, i: nat) {
    Bit(n % 0x1_0000_0000_0000_0000, i)
  }

  /** `q` is `n / d` rounded toward zero, and `m` what is left. */
  predicate Divides(n: int, d: int, q: int, m: int) {
    && n == d * q + m
    && (if m < 0 then -m else m) < (if d < 0 then -d else d)
    && (m == 0 || (m < 0) == (n < 0))
  }

  /** The signed 64-bit number congruent to `n`. */
  predicate Represents(v: S64, n: int)
    requires 0 <= n < 0x1_0000_0000_0000_0000
  {
    v == n || v == n - 0x1_0000_0000_0000_0000
  }

  function Unsigned(n: S64): nat {
    if n < 0 then n + 0x1_0000_0000_0000_0000 else n
  }

  /** The value of each operator; `Undefined` where C++ has none. */
  ghost predicate Gives(op: BinOp, x: S64, y: S64, pass: bool, r: Result<S64>) {
    match op
    case LogAnd => r == Ok(if x != 0 && y != 0 then 1 else 0)
    case LogOr => r == Ok(if x != 0 || y != 0 then 1 else 0)
    case Eq => r == Ok(if x == y then 1 else 0)
    case Ne => r == Ok(if x != y then 1 else 0)
    case Lt => r == Ok(if x < y then 1 else 0)
    case Gt => r == Ok(if x > y then 1 else 0)
    case Le => r == Ok(if x <= y then 1 else 0)
    case Ge => r == Ok(if x >= y then 1 else 0)
    case Add => if InRange(x + y) then r == Ok(x + y) else r == Err(Undefined)
    case Sub => if InRange(x - y) then r == Ok(x - y) else r == Err(Undefined)
    case Mul => if InRange(x * y) then r == Ok(x * y) else r == Err(Undefined)
    case Div =>
      if y == 0 then r == if pass then Err(DivideByZero) else Ok(0)
      else if x == LEAST && y == -1 then r == Err(Undefined)
      else r.Ok? && Divides(x, y, r.value, x - y * r.value)
    case Mod =>
      if y == 0 || (x == LEAST && y == -1) then r == Err(Undefined)
      else r.Ok? && exists q :: Divides(x, y, q, r.value)
    case BitAnd => r.Ok? && forall i: nat | i < 64 :: BitAt(r.value, i) == (BitAt(x, i) && BitAt(y, i))
    case BitOr => r.Ok? && forall i: nat | i < 64 :: BitAt(r.value, i) == (BitAt(x, i) || BitAt(y, i))
    case BitXor => r.Ok? && forall i: nat | i < 64 :: BitAt(r.value, i) == (BitAt(x, i) != BitAt(y, i))
    case Shl =>
      if 0 <= y < 64 && 0 <= x && x * Pow2(y) < MODULUS then r.Ok? && Represents(r.value, x * Pow2(y))
      else r == Err(Undefined)
    case Shr =>
      if 0 <= y < 64 then r.Ok? && IsFloor(Unsigned(x), Pow2(y), Unsigned(r.value)) else r == Err(Undefined)
    case Sar =>
      if 0 <= y < 64 then r.Ok? && IsFloor(x, Pow2(y), r.value) else r == Err(Undefined)
  }

  predicate IsFloor(n: int, d: nat, q: int) {
    d * q <= n < d * (q + 1)
  }

  // ----- bits -----

  lemma Pow2At64()
    ensures Pow2(64) == 0x1_0000_0000_0000_0000
  {
    Pow2At32();
    assert Pow2(40) == 0x100_0000_0000;
    assert Pow2(48) == 0x1_0000_0000_0000;
    assert Pow2(56) == 0x100_0000_0000_0000;
  }

  lemma SignedKeepsBits(u: nat, i: nat)
    requires u < 0x1_0000_0000_0000_0000
    ensures ToS64(ToU64(u)) % 0x1_0000_0000_0000_0000 == u && BitAt(ToS64(ToU64(u)), i) == Bit(u, i)
  {
  }

  lemma BitwiseMeans(op: BinOp, x: S64, y: S64, pass: bool)
    requires op.BitAnd? || op.BitOr? || op.BitXor?
    ensures Gives(op, x, y, pass, Apply(op, x, y, pass))
  {
    hide Bit, And, Or, Xor, ToS64;
    Pow2At64();
    var a, b: nat := ToU64(x), ToU64(y);
    var r := Apply(op, x, y, pass).value;
    forall i: nat | i < 64
      ensures BitAt(r, i) == match op
        case BitAnd => BitAt(x, i) && BitAt(y, i)
        case BitOr => BitAt(x, i) || BitAt(y, i)
        case _ => BitAt(x, i) != BitAt(y, i)
    {
      if op.BitAnd? {
        AndMeaning(a, b, 64, i);
        SignedKeepsBits(And(a, b, 64), i);
      } else if op.BitOr? {
        OrMeaning(a, b, 64, i);
        SignedKeepsBits(Or(a, b, 64), i);
      } else {
        XorMeaning(a, b, 64, i);
        SignedKeepsBits(Xor(a, b, 64), i);
      }
    }
  }

  // ----- division and shifts -----

  lemma OnlyOneOverflow(x: S64, y: S64)
    requires y != 0
    ensures InRange(Quotient(x, y)) <==> !(x == LEAST && y == -1)
    ensures InRange(Remainder(x, y))
  {
    var q, m := SizesDivide(x, y);
    SmallQuotient(Magnitude(x), Magnitude(y), q, m);
  }

  lemma SmallQuotient(a: nat, b: nat, q: int, m: int)
    requires b > 0 && a == b * q + m && 0 <= m < b
    ensures 0 <= q <= a && (b >= 2 && a > 0 ==> q < a) && (b == 1 ==> q == a)
  {
    Arithmetic.QuotientBoundParts(a, b, q, m);
    if b >= 2 {
      assert b * q >= 2 * q;
    }
  }

  lemma DivisionMeans(op: BinOp, x: S64, y: S64, pass: bool)
    requires op.Div? || op.Mod?
    ensures Gives(op, x, y, pass, Apply(op, x, y, pass))
  {
    hide Quotient, Remainder;
    if y != 0 {
      OnlyOneOverflow(x, y);
      DivisionTruncates(x, y);
      assert Divides(x, y, Quotient(x, y), Remainder(x, y));
    }
  }

  lemma FloorOf(n: int, d: nat)
    requires d > 0
    ensures IsFloor(n, d, n / d)
  {
    var q, r, e: int := n / d, n % d, d;
    assert n == e * q + r;
    assert e * (q + 1) == e * q + e;
  }

  lemma FloorIsSmall(n: int, d: nat)
    requires d > 0
    ensures if n >= 0 then 0 <= n / d <= n else n <= n / d < 0
  {
    if n >= 0 {
      Arithmetic.QuotientBound(n, d);
    } else {
      Arithmetic.FloorOfNegative(-1 - n, d);
      Arithmetic.QuotientBound(-1 - n, d);
    }
  }

  lemma ShiftMeans(op: BinOp, x: S64, y: S64, pass: bool)
    requires op.Shl? || op.Shr? || op.Sar?
    ensures Gives(op, x, y, pass, Apply(op, x, y, pass))
  {
    hide Pow2, IsFloor;
    if 0 <= y < 64 {
      if op.Shl? && 0 <= x {
        ProductIsNatural(x, Pow2(y));
      } else if op.Shr? {
        LogicalShift(x, Pow2(y));
      } else if op.Sar? {
        FloorOf(x, Pow2(y));
        FloorIsSmall(x, Pow2(y));
      }
    }
  }

  lemma LogicalShift(x: S64, d: nat)
    requires d > 0
    ensures IsFloor(Unsigned(x), d, Unsigned(ToS64(ToU64(ToU64(x) / d))))
  {
    hide IsFloor;
    FloorOf(Unsigned(x), d);
    FloorIsSmall(Unsigned(x), d);
    assert ToU64(x) == Unsigned(x);
  }

  lemma ProductIsNatural(x: int, d: nat)
    requires 0 <= x
    ensures 0 <= x * d
  {
  }

  // ----- every constructor -----

  lemma OperatorMeans(op: BinOp, x: S64, y: S64, pass: bool)
    ensures Gives(op, x, y, pass, Apply(op, x, y, pass))
  {
    if op.BitAnd? || op.BitOr? || op.BitXor? {
      BitwiseMeans(op, x, y, pass);
    } else if op.Div? || op.Mod? {
      DivisionMeans(op, x, y, pass);
    } else if op.Shl? || op.Shr? || op.Sar? {
      ShiftMeans(op, x, y, pass);
    }
  }

  /** The left operand is evaluated before the right one, and then the operator applies to their values. */
  lemma BinaryMeans(op: BinOp, l: Expr, r: Expr, pass: bool, pc: U64, look: Lookup)
    ensures
      var x, y, v := Eval(l, pass, pc, look), Eval(r, pass, pc, look), Eval(Binary(op, l, r), pass, pc, look);
      if x.Err? then v == x else if y.Err? then v == y else Gives(op, x.value, y.value, pass, v)
  {
    hide Apply, Gives;
    var x, y := Eval(l, pass, pc, look), Eval(r, pass, pc, look);
    if x.Ok? && y.Ok? {
      OperatorMeans(op, x.value, y.value, pass);
    }
  }

  /** Inversion of every bit, the opposite number unless it is out of range, and the test for zero. */
  ghost predicate GivesUnary(op: UnOp, x: S64, r: Result<S64>) {
    match op
    case Invert => r.Ok? && forall i: nat | i < 64 :: BitAt(r.value, i) == !BitAt(x, i)
    case Negate => if x == LEAST then r == Err(Undefined) else r == Ok(-x)
    case LogNot => r == Ok(if x == 0 then 1 else 0)
  }

  lemma UnaryMeans(op: UnOp, e: Expr, pass: bool, pc: U64, look: Lookup)
    ensures
      var x, v := Eval(e, pass, pc, look), Eval(Unary(op, e), pass, pc, look);
      if x.Err? then v == x else GivesUnary(op, x.value, v)
  {
    var x := Eval(e, pass, pc, look);
    if x.Ok? && op.Invert? {
      InversionMeans(x.value);
    }
  }

  lemma InversionMeans(x: S64)
    ensures forall i: nat | i < 64 :: BitAt(-1 - x, i) == !BitAt(x, i)
  {
    hide Bit, Not;
    Pow2At64();
    forall i: nat | i < 64 ensures BitAt(-1 - x, i) == !BitAt(x, i) {
      var u: nat := ToU64(x);
      NotIsSubtraction(u, 64);
      NotMeaning(u, 64, i);
      assert (-1 - x) % 0x1_0000_0000_0000_0000 == 0xFFFF_FFFF_FFFF_FFFF - u;
    }
  }

  /** Numbers are themselves; `.` is the current address; a name is zero in pass 0 and its label's address in pass 1. */
  lemma LeavesMean(n: S64, name: string, pass: bool, pc: U64, look: Lookup)
    ensures Eval(Num(n), pass, pc, look) == Ok(n)
    ensures Eval(CurrPc, pass, pc, look).Ok? && Represents(Eval(CurrPc, pass, pc, look).value, pc)
    ensures
      var v := Eval(Ident(name), pass, pc, look);
      if !pass then v == Ok(0)
      else if look(name).None? then v == Err(UnknownSymbol)
      else v.Ok? && Represents(v.value, look(name).value)
  {
  }
}
