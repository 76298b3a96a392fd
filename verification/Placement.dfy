/** Pass 0 gives every label of a program that does not shadow its own symbol and its own address. */
module Placement {
  import opened Expressions
  import opened Scopes
  import opened Assembler
  import opened Meaning
  import opened ScopeReplay
  import opened LabelAgreement

  lemma {:induction false} PassZeroIgnoresNames(e: Expr, pc: U64, a: Lookup, b: Lookup)
    ensures Eval(e, false, pc, a) == Eval(e, false, pc, b)
  {
    hide Expressions.Apply;
    match e
    case Binary(op, l, r) =>
      PassZeroIgnoresNames(l, pc, a, b);
      PassZeroIgnoresNames(r, pc, a, b);
    case Unary(op, e) =>
      PassZeroIgnoresNames(e, pc, a, b);
    case _ =>
  }

  lemma {:induction false} PassZeroLayout(s: Asm, ls: Lines, r: Asm)
    requires VisitLines(s, ls, false) == Ok(r)
    ensures AfterLines(ls, s.out.pc) == Ok(r.out.pc)
    decreases ls, 0
  {
    hide Assembler.VisitLine;
    if ls.Then? {
      var m := VisitLine(s, ls.first, false).value;
      PassZeroLineLayout(s, ls.first, m);
      PassZeroLayout(m, ls.rest, r);
    }
  }

  lemma {:induction false} PassZeroLineLayout(s: Asm, l: Line, r: Asm)
    requires VisitLine(s, l, false) == Ok(r)
    ensures After(l, s.out.pc) == Ok(r.out.pc)
    decreases l
  {
    var pc, look := s.out.pc, LookupIn(s.table, s.curr);
    match l
    case Blank =>
    case Label(name) =>
    case Code(i) => WordCountIsLength(i, EvalHere(s, Operand(i), false).value, pc);
    case Org(e) => PassZeroIgnoresNames(e, pc, look, NoNames());
    case Space(e) => PassZeroIgnoresNames(e, pc, look, NoNames());
    case Data(width, e) =>
    case Scope(body) =>
      var s1 := EnterScope(s, false).value;
      PassZeroLayout(s1, body, VisitLines(s1, body, false).value);
  }

  /** The labels that lines declare, nested blocks included. */
  function LabelsIn(ls: Lines): nat {
    match ls
    case End => 0
    case Then(l, rest) => LabelsOf(l) + LabelsIn(rest)
  }

  function LabelsOf(l: Line): nat {
    match l
    case Label(name) => 1
    case Scope(body) => LabelsIn(body)
    case _ => 0
  }

  /** Every label of these lines and of the blocks inside has its own symbol, from `sym` on, at its own address. */
  predicate Placed(t: Table, n: nat, ls: Lines, pc: U64, next: nat, sym: nat)
    decreases ls
  {
    match ls
    case End => true
    case Then(l, rest) =>
      && After(l, pc).Ok?
      && Placed(t, n, rest, After(l, pc).value, next + BlocksOf(l), sym + LabelsOf(l))
      && match l
         case Label(name) => HasLabel(t, n, name, pc, sym) && name !in Names(rest)
         case Scope(body) => HasBlock(t, n, body, next) && Placed(t, next, body, pc, next + 1, sym)
         case _ => true
  }

  predicate HasLabel(t: Table, n: nat, name: string, addr: U64, sym: nat) {
    n < |t.nodes| && IsLabelHere(t, n, name) && t.nodes[n].table[name] == sym && t.syms[sym].addr == addr
  }

  predicate HasBlock(t: Table, n: nat, body: Lines, c: nat) {
    n < c < |t.nodes| && t.nodes[c].parent == n && t.nodes[c].table.Keys == Names(body)
  }

  /** Tables of nodes from `next` on are final; node `n` and the symbol pool have only grown. */
  ghost predicate Later(t: Table, u: Table, n: nat) {
    && n < |t.nodes| && OnlyAt(t, u, n)
    && t.syms <= u.syms
    && forall x :: x in t.nodes[n].table ==>
         x in u.nodes[n].table && u.nodes[n].table[x] == t.nodes[n].table[x]
  }

  lemma HasLabelStays(t: Table, u: Table, n: nat, m: nat, name: string, addr: U64, sym: nat)
    requires Later(t, u, n) && HasLabel(t, m, name, addr, sym)
    ensures HasLabel(u, m, name, addr, sym)
  {
  }

  lemma {:induction false} PlacedStays(t: Table, u: Table, n: nat, m: nat, ls: Lines, pc: U64, next: nat,
        sym: nat)
    requires Later(t, u, n) && Placed(t, m, ls, pc, next, sym) && n < next
    ensures Placed(u, m, ls, pc, next, sym)
    decreases ls
  {
    match ls
    case End =>
    case Then(l, rest) =>
      PlacedStays(t, u, n, m, rest, After(l, pc).value, next + BlocksOf(l), sym + LabelsOf(l));
      match l
      case Label(name) => HasLabelStays(t, u, n, m, name, pc, sym);
      case Scope(body) => PlacedStays(t, u, n, next, body, pc, next + 1, sym);
      case _ =>
  }

  lemma {:induction false} PassZeroPlaces(s: Asm, ls: Lines, outer: set<string>, here: set<string>, r: Asm)
    requires WellFormed(s.table) && Sees(s.table, s.curr, outer, here)
    requires VisitLines(s, ls, false) == Ok(r)
    requires NoShadowing(ls, outer + here) && Names(ls) !! outer
    ensures Later(s.table, r.table, s.curr) && Names(ls) !! here
    ensures Placed(r.table, s.curr, ls, s.out.pc, |s.table.nodes|, |s.table.syms|)
    ensures |r.table.syms| == |s.table.syms| + LabelsIn(ls)
    decreases ls, 0
  {
    hide Assembler.VisitLine, Grown, ScopeReplay.Fits, WellFormed, Sees, OnlyAt, Later, HasLabel, HasBlock;
    if ls.End? {
      NothingLater(s.table, s.curr, outer, here);
    } else {
      var l, rest := ls.first, ls.rest;
      var m := VisitLine(s, l, false).value;
      var names := if l.Label? then {l.name} else {};
      LinePlaces(s, l, outer, here, m);
      assert outer + (here + names) == (if l.Label? then outer + here + names else outer + here);
      PassZeroPlaces(m, rest, outer, here + names, r);
      LaterTwice(s.table, m.table, r.table, s.curr);
      if l.Label? {
        HasLabelStays(m.table, r.table, s.curr, s.curr, l.name, s.out.pc, |s.table.syms|);
      } else if l.Scope? {
        HasBlockStays(m.table, r.table, s.curr, l.body, |s.table.nodes|);
        PlacedStays(m.table, r.table, s.curr, |s.table.nodes|, l.body, s.out.pc, |s.table.nodes| + 1, |s.table.syms|);
      }
    }
  }

  lemma HasBlockStays(t: Table, u: Table, n: nat, body: Lines, c: nat)
    requires Later(t, u, n) && HasBlock(t, n, body, c)
    ensures n < c && HasBlock(u, n, body, c)
  {
  }

  lemma NothingLater(t: Table, n: nat, outer: set<string>, here: set<string>)
    requires Sees(t, n, outer, here)
    ensures Later(t, t, n)
  {
  }

  lemma LaterTwice(t: Table, u: Table, v: Table, n: nat)
    requires Later(t, u, n) && Later(u, v, n)
    ensures Later(t, v, n)
  {
  }

  /** What one line of pass 0 leaves for the next. */
  ghost predicate LinePlaced(s: Asm, l: Line, r: Asm) {
    && Later(s.table, r.table, s.curr)
    && After(l, s.out.pc) == Ok(r.out.pc)
    && |r.table.nodes| == |s.table.nodes| + BlocksOf(l)
    && |r.table.syms| == |s.table.syms| + LabelsOf(l)
    && match l
       case Label(name) => HasLabel(r.table, s.curr, name, s.out.pc, |s.table.syms|)
       case Scope(body) =>
         HasBlock(r.table, s.curr, body, |s.table.nodes|) &&
         Placed(r.table, |s.table.nodes|, body, s.out.pc, |s.table.nodes| + 1, |s.table.syms|)
       case _ => true
  }

  lemma {:induction false} LinePlaces(s: Asm, l: Line, outer: set<string>, here: set<string>, r: Asm)
    requires WellFormed(s.table) && Sees(s.table, s.curr, outer, here)
    requires VisitLine(s, l, false) == Ok(r)
    requires l.Label? ==> l.name !in outer
    requires l.Scope? ==> NoShadowing(l.body, outer + here) && Names(l.body) !! outer + here
    ensures LinePlaced(s, l, r) && (l.Label? ==> l.name !in here)
    ensures Named(s, r, outer, here, if l.Label? then {l.name} else {})
    decreases l
  {
    LineNames(s, l, outer, here, r);
    PassZeroBuildsLine(s, l, r);
    PassZeroLineLayout(s, l, r);
    match l
    case Label(name) => LabelPlaces(s, name, outer, here, r);
    case Scope(body) => BlockPlaces(s, body, outer, here, r);
    case _ =>
  }

  lemma LabelPlaces(s: Asm, name: string, outer: set<string>, here: set<string>, r: Asm)
    requires WellFormed(s.table) && Sees(s.table, s.curr, outer, here)
    requires VisitLabel(s, name, false) == Ok(r) && name !in outer
    ensures name !in here && HasLabel(r.table, s.curr, name, s.out.pc, |s.table.syms|)
    ensures Later(s.table, r.table, s.curr)
    ensures |r.table.syms| == |s.table.syms| + 1
  {
    LabelNames(s, name, outer, here, r);
  }

  lemma {:induction false} BlockPlaces(s: Asm, body: Lines, outer: set<string>, here: set<string>, r: Asm)
    requires WellFormed(s.table) && Sees(s.table, s.curr, outer, here)
    requires VisitLine(s, Scope(body), false) == Ok(r)
    requires NoShadowing(body, outer + here) && Names(body) !! outer + here
    ensures Later(s.table, r.table, s.curr) && HasBlock(r.table, s.curr, body, |s.table.nodes|)
    ensures Placed(r.table, |s.table.nodes|, body, s.out.pc, |s.table.nodes| + 1, |s.table.syms|)
    ensures |r.table.syms| == |s.table.syms| + LabelsIn(body)
    decreases body, 1
  {
    hide Assembler.VisitLine, Assembler.VisitLines, Placed, ScopeReplay.Fits;
    BlockIsVisited(s, body, false);
    var s1 := EnterScope(s, false).value;
    var s2 := VisitLines(s1, body, false).value;
    EnteredSees(s, s1, outer, here);
    assert outer + here + {} == outer + here;
    PassZeroPlaces(s1, body, outer + here, {}, s2);
    BlockNames(s, body, outer, here, r);
    assert Names(body) - (outer + here) == Names(body);
    PassZeroBuildsBlock(s, body, r);
  }
}
