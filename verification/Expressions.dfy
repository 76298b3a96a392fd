/** Assembler expressions: 64-bit signed arithmetic with labels and the current address. */
module Expressions {
  import opened Words
  import opened Bits

  type U64 = n: int | 0 <= n < 0x1_0000_0000_0000_0000
  type S64 = n: int | -0x8000_0000_0000_0000 <= n < 0x8000_0000_0000_0000

  /** Why the assembler stops. `Undefined` is arithmetic that C++ gives no meaning. */
  datatype Error = Undefined | DivideByZero | UnknownSymbol | DuplicateLabel | NoSuchScope

  datatype Result<+T> = Ok(value: T) | Err(error: Error) {
    predicate IsFailure() {
      Err?
    }

    function PropagateFailure<U>(): Result<U>
      requires Err?
    {
      Err(error)
    }

    function Extract(): T
      requires Ok?
    {
      value
    }
  }

  datatype Option<+T> = None | Some(value: T)

  datatype BinOp =
    | LogAnd | LogOr
    | Eq | Ne | Lt | Gt | Le | Ge
    | Add | Sub
    | Mul | Div | Mod
    | BitAnd | BitOr | BitXor | Shl | Shr | Sar

  datatype UnOp = Invert | Negate | LogNot

  datatype Expr =
    | Num(v: S64)
    | Ident(name: string)
    | CurrPc
    | Binary(op: BinOp, l: Expr, r: Expr)
    | Unary(uop: UnOp, e: Expr)

  function ToU64(n: int): U64 {
    n % 0x1_0000_0000_0000_0000
  }

  function ToS64(u: U64): S64 {
    if u < 0x8000_0000_0000_0000 then u else u - 0x1_0000_0000_0000_0000
  }

  function Truth(b: bool): S64 {
    if b then 1 else 0
  }

  /** Signed overflow has no meaning. */
  function Checked(n: int): Result<S64> {
    if -0x8000_0000_0000_0000 <= n < 0x8000_0000_0000_0000 then Ok(n) else Err(Undefined)
  }

  function Magnitude(n: int): nat {
    if n < 0 then -n else n
  }

  /** C++ division rounds toward zero, and the remainder follows the left operand. */
  function Quotient(l: S64, r: S64): int
    requires r != 0
  {
    var q := Magnitude(l) / Magnitude(r);
    if (l < 0) == (r < 0) then q else -q
  }

  function Remainder(l: S64, r: S64): int
    requires r != 0
  {
    var m := Magnitude(l) % Magnitude(r);
    if l < 0 then -m else m
  }

  lemma Opposites(b: int, q: int)
    ensures (0 - b) * q == 0 - b * q && b * (0 - q) == 0 - b * q && (0 - b) * (0 - q) == b * q
  {
  }

  /** The quotient of signed numbers from that of their sizes. */
  lemma SignsOfDivision(l: int, r: int, a: nat, b: nat, q: int, m: int)
    requires b > 0 && a == b * q + m && l == (if l < 0 then 0 - a else a) && r == (if r < 0 then 0 - b else b)
    ensures l == r * (if (l < 0) == (r < 0) then q else 0 - q) + (if l < 0 then 0 - m else m)
  {
    Opposites(b, q);
  }

  /** The quotient rounds toward zero: what is left is smaller than the divisor and has the left operand's sign. */
  lemma DivisionTruncates(l: S64, r: S64)
    requires r != 0
    ensures l == r * Quotient(l, r) + Remainder(l, r)
    ensures Magnitude(Remainder(l, r)) < Magnitude(r)
    ensures Remainder(l, r) == 0 || (Remainder(l, r) < 0) == (l < 0)
  {
    hide Quotient, Remainder;
    var q, m := SizesDivide(l, r);
    SignsOfDivision(l, r, Magnitude(l), Magnitude(r), q, m);
  }

  lemma SizesDivide(l: S64, r: S64) returns (q: int, m: int)
    requires r != 0
    ensures Magnitude(l) == Magnitude(r) * q + m && 0 <= m < Magnitude(r)
    ensures Quotient(l, r) == if (l < 0) == (r < 0) then q else 0 - q
    ensures Remainder(l, r) == if l < 0 then 0 - m else m
  {
    var a, b: int := Magnitude(l), Magnitude(r);
    q, m := a / b, a % b;
    assert a == b * q + m && 0 <= m < b;
  }

  /** Shift amounts outside the width have no meaning. */
  function ShiftBy(r: S64): Result<nat> {
    if 0 <= r < 64 then Ok(r) else Err(Undefined)
  }

  /** A negative number has no left shift, nor has one whose value does not fit 64 unsigned bits. */
  function ShiftedLeft(l: S64, n: nat): Result<S64> {
    if 0 <= l && l * Pow2(n) < 0x1_0000_0000_0000_0000 then Ok(ToS64(ToU64(l * Pow2(n)))) else Err(Undefined)
  }

  function Apply(op: BinOp, l: S64, r: S64, pass: bool): Result<S64> {
    match op
    case LogAnd => Ok(Truth(l != 0 && r != 0))
    case LogOr => Ok(Truth(l != 0 || r != 0))
    case Eq => Ok(Truth(l == r))
    case Ne => Ok(Truth(l != r))
    case Lt => Ok(Truth(l < r))
    case Gt => Ok(Truth(l > r))
    case Le => Ok(Truth(l <= r))
    case Ge => Ok(Truth(l >= r))
    case Add => Checked(l + r)
    case Sub => Checked(l - r)
    case Mul => Checked(l * r)
    case Div =>
      if r != 0 then Checked(Quotient(l, r))
      else if pass then Err(DivideByZero)
      else Ok(0)
    case Mod => if r == 0 || Checked(Quotient(l, r)).Err? then Err(Undefined) else Checked(Remainder(l, r))
    case BitAnd => Ok(ToS64(ToU64(And(ToU64(l), ToU64(r), 64))))
    case BitOr => Ok(ToS64(ToU64(Or(ToU64(l), ToU64(r), 64))))
    case BitXor => Ok(ToS64(ToU64(Xor(ToU64(l), ToU64(r), 64))))
    case Shl =>
      var n :- ShiftBy(r);
      ShiftedLeft(l, n)
    case Shr =>
      var n :- ShiftBy(r);
      Ok(ToS64(ToU64(ToU64(l) / Pow2(n))))
    case Sar =>
      var n :- ShiftBy(r);
      Checked(l / Pow2(n))
  }

  function ApplyUnary(op: UnOp, v: S64): Result<S64> {
    match op
    case Invert => Ok(-1 - v)
    case Negate => Checked(0 - v)
    case LogNot => Ok(Truth(v == 0))
  }

  /** What a label stands for; `None` is a name that is not a label. */
  type Lookup = string -> Option<U64>

  /** The value of an expression. In pass 0 every name is zero. */
  function Eval(e: Expr, pass: bool, pc: U64, look: Lookup): Result<S64> {
    match e
    case Num(v) => Ok(v)
    case Ident(name) =>
      if !pass then Ok(0)
      else if look(name).Some? then Ok(ToS64(look(name).value))
      else Err(UnknownSymbol)
    case CurrPc => Ok(ToS64(pc))
    case Binary(op, l, r) =>
      var x :- Eval(l, pass, pc, look);
      var y :- Eval(r, pass, pc, look);
      Apply(op, x, y, pass)
    case Unary(op, e) =>
      var x :- Eval(e, pass, pc, look);
      ApplyUnary(op, x)
  }

  predicate LabelFree(e: Expr) {
    match e
    case Num(v) => true
    case Ident(name) => false
    case CurrPc => true
    case Binary(op, l, r) => LabelFree(l) && LabelFree(r)
    case Unary(op, e) => LabelFree(e)
  }

  /** Where pass 1 gives a label-free expression a value, pass 0 gave it the same one. */
  lemma {:induction false} LabelFreeAgrees(e: Expr, pc: U64, look: Lookup, other: Lookup)
    requires LabelFree(e) && Eval(e, true, pc, look).Ok?
    ensures Eval(e, false, pc, other) == Eval(e, true, pc, look)
  {
    match e
    case Binary(op, l, r) =>
      LabelFreeAgrees(l, pc, look, other);
      LabelFreeAgrees(r, pc, look, other);
    case Unary(op, e) =>
      LabelFreeAgrees(e, pc, look, other);
    case _ =>
  }

  /** Only what the names stand for matters. */
  lemma {:induction false} EvalCongruence(e: Expr, pass: bool, pc: U64, a: Lookup, b: Lookup)
    requires forall n :: a(n) == b(n)
    ensures Eval(e, pass, pc, a) == Eval(e, pass, pc, b)
  {
    match e
    case Binary(op, l, r) =>
      EvalCongruence(l, pass, pc, a, b);
      EvalCongruence(r, pass, pc, a, b);
    case Unary(op, e) =>
      EvalCongruence(e, pass, pc, a, b);
    case _ =>
  }
}
