/** Exactly which programs pass 0 accepts. */
module Acceptance {
  import opened Expressions
  import opened Scopes
  import opened Assembler
  import opened Meaning
  import opened ScopeReplay
  import opened LabelAgreement
  import opened Placement

  /**
   * Every expression has a value when all names are zero, and no label comes twice in a block; but a
   * label that an enclosing block has declared above, one in `outer`, may come any number of times.
   */
  predicate Acceptable(ls: Lines, pc: U64, outer: set<string>, here: set<string>)
    decreases ls
  {
    match ls
    case End => true
    case Then(l, rest) =>
      && AcceptableLine(l, pc, outer, here)
      && Acceptable(rest, After(l, pc).value, outer, if l.Label? then here + {l.name} else here)
  }

  predicate AcceptableLine(l: Line, pc: U64, outer: set<string>, here: set<string>)
    ensures AcceptableLine(l, pc, outer, here) ==> After(l, pc).Ok?
    decreases l
  {
    match l
    case Blank => true
    case Label(name) => name !in here || name in outer
    case Code(i) => Eval(Operand(i), false, pc, NoNames()).Ok?
    case Org(e) => Eval(e, false, pc, NoNames()).Ok?
    case Space(e) => Eval(e, false, pc, NoNames()).Ok?
    case Data(width, e) => Eval(e, false, pc, NoNames()).Ok?
    case Scope(body) => Acceptable(body, pc, outer + here, {}) && AfterLines(body, pc).Ok?
  }

  lemma {:induction false} AcceptsLines(s: Asm, ls: Lines, outer: set<string>, here: set<string>)
    requires LabelAgreement.WellFormed(s.table) && Sees(s.table, s.curr, outer, here)
    ensures VisitLines(s, ls, false).Ok? <==> Acceptable(ls, s.out.pc, outer, here)
    decreases ls, 0
  {
    hide Assembler.VisitLine, LabelAgreement.WellFormed, Sees, AcceptableLine;
    if ls.Then? {
      var l, rest := ls.first, ls.rest;
      var names := if l.Label? then {l.name} else {};
      AcceptsLine(s, l, outer, here);
      if VisitLine(s, l, false).Ok? {
        var m := VisitLine(s, l, false).value;
        LineNames(s, l, outer, here, m);
        PassZeroLineLayout(s, l, m);
        assert here + {} == here;
        AcceptsLines(m, rest, outer, here + names);
      }
    }
  }

  lemma {:induction false} AcceptsLine(s: Asm, l: Line, outer: set<string>, here: set<string>)
    requires LabelAgreement.WellFormed(s.table) && Sees(s.table, s.curr, outer, here)
    ensures VisitLine(s, l, false).Ok? <==> AcceptableLine(l, s.out.pc, outer, here)
    decreases l
  {
    var pc, look := s.out.pc, LookupIn(s.table, s.curr);
    match l
    case Blank =>
    case Label(name) => AcceptsLabel(s, name, outer, here);
    case Code(i) => PassZeroIgnoresNames(Operand(i), pc, look, NoNames());
    case Org(e) => PassZeroIgnoresNames(e, pc, look, NoNames());
    case Space(e) => PassZeroIgnoresNames(e, pc, look, NoNames());
    case Data(width, e) => PassZeroIgnoresNames(e, pc, look, NoNames());
    case Scope(body) => AcceptsBlock(s, body, outer, here);
  }

  /** The duplicate test looks at the node's own table, where a name visible from outside never is. */
  lemma AcceptsLabel(s: Asm, name: string, outer: set<string>, here: set<string>)
    requires LabelAgreement.WellFormed(s.table) && Sees(s.table, s.curr, outer, here)
    ensures VisitLabel(s, name, false).Ok? <==> name !in here || name in outer
  {
  }

  lemma {:induction false} AcceptsBlock(s: Asm, body: Lines, outer: set<string>, here: set<string>)
    requires LabelAgreement.WellFormed(s.table) && Sees(s.table, s.curr, outer, here)
    ensures VisitLine(s, Scope(body), false).Ok? <==> AcceptableLine(Scope(body), s.out.pc, outer, here)
    decreases body, 1
  {
    hide Assembler.VisitLine, Assembler.VisitLines, LabelAgreement.WellFormed, Acceptable;
    BlockIsVisited(s, body, false);
    var s1 := EnterScope(s, false).value;
    EnteredSees(s, s1, outer, here);
    AcceptsLines(s1, body, outer + here, {});
    var v := VisitLines(s1, body, false);
    if v.Ok? {
      PassZeroLayout(s1, body, v.value);
      PassZeroBuilds(s1, body, v.value);
      assert LeaveScope(v.value, false).Ok?;
    }
  }

  /**
   * For every program, pass 0 accepts it if and only if every expression has a value with all names
   * zero and no block declares twice a label that is not already visible from outside it.
   */
  lemma AcceptsExactly(p: Lines)
    ensures Pass0(p).Ok? <==> Acceptable(p, 0, {}, {})
  {
    hide Assembler.VisitLine, Assembler.VisitLines, Acceptable, Sees, LabelAgreement.WellFormed;
    NothingSeen(StartPass(Initial(), [0]));
    AcceptsLines(StartPass(Initial(), [0]), p, {}, {});
  }

  /** The duplicate test misses `x: { x: x: }`, which declares a label twice in one block. */
  lemma DuplicateIsMissed()
    ensures
      var body := Then(Label("x"), Then(Label("x"), End));
      Pass0(Then(Label("x"), Then(Scope(body), End))).Ok? && Pass0(body) == Err(DuplicateLabel)
  {
    var body := Then(Label("x"), Then(Label("x"), End));
    var p := Then(Label("x"), Then(Scope(body), End));
    assert AfterLines(body, 0) == Ok(0);
    assert Acceptable(body, 0, {} + ({} + {"x"}), {});
    AcceptsExactly(p);
    SecondIsFound(StartPass(Initial(), [0]));
  }

  lemma SecondIsFound(s: Asm)
    requires s == StartPass(Initial(), [0])
    ensures VisitLines(s, Then(Label("x"), Then(Label("x"), End)), false) == Err(DuplicateLabel)
  {
    var m := VisitLine(s, Label("x"), false).value;
    assert IsLabelHere(m.table, 1, "x");
    assert VisitLine(m, Label("x"), false) == Err(DuplicateLabel);
    LinesAreVisited(s, Label("x"), Then(Label("x"), End), false);
    LinesAreVisited(m, Label("x"), End, false);
  }
}
