/** Concrete programs that show the conditions on the two-pass theorem are needed. */
module AssemblerCounterexamples {
  import opened Expressions
  import opened Scopes
  import opened Assembler
  import opened Meaning
  import opened ScopeReplay
  import TwoPasses
  import Acceptance

  lemma Steps(s: Asm, l: Line, rest: Lines, pass: bool)
    requires VisitLine(s, l, pass).Ok?
    ensures VisitLines(s, Then(l, rest), pass) == VisitLines(VisitLine(s, l, pass).value, rest, pass)
  {
  }

  /** The state between its lines: one symbol, now at `addr`. */
  function ShadowingState(inside: bool, entered: bool, pc: U64, addr: U64, nums: seq<nat>, cells: seq<Cell>): Asm {
    var nodes :=
      if entered then [Node(0, [1], map[]), Node(0, [2], map["x" := 0]), Node(1, [], map[])]
      else [Node(0, [1], map[]), Node(0, [], map["x" := 0])];
    Asm(Table(nodes, [Symbol("x", addr, true)]), if inside then 2 else 1, nums, Output(pc, cells),
      if entered then [2] else [])
  }

  /** The label "x" again, found at symbol 0. */
  lemma Again(s: Asm, addr: U64, pass: bool)
    requires s.curr < |s.table.nodes| && Find(s.table, s.curr, "x") == Some(0)
    requires s.table.syms == [Symbol("x", addr, true)] && (pass || !IsLabelHere(s.table, s.curr, "x"))
    ensures VisitLine(s, Label("x"), pass) == Ok(s.(table := s.table.(syms := [Symbol("x", s.out.pc, true)])))
  {
    assert s.table.syms[0 := Symbol("x", s.out.pc, true)] == [Symbol("x", s.out.pc, true)];
  }

  /** The label "x" for the first time, in node 1. */
  lemma First(s: Asm)
    requires s.table == Initial() && s.curr == 1
    ensures VisitLine(s, Label("x"), false) ==
      Ok(s.(table := Table([Node(0, [1], map[]), Node(0, [], map["x" := 0])], [Symbol("x", s.out.pc, true)])))
  {
    var t := Insert(s.table, 1, "x");
    assert Find(s.table, 1, "x") == None;
    assert t.nodes == [Node(0, [1], map[]), Node(0, [], map["x" := 0])];
    assert t.syms == [Symbol("x", 0, false)];
    assert t.syms[0 := Symbol("x", s.out.pc, true)] == [Symbol("x", s.out.pc, true)];
  }

  lemma OneByte(pc: U64, v: S64)
    requires 0 <= v < 0x100
    ensures CellsFrom(pc, BytesOf(ToU64(v), 1)) == [Cell(pc, v)]
  {
    assert BytesOf(ToU64(v), 1) == BytesOf(v / 0x100, 0) + [v];
  }

  lemma ShadowingPassZero(inner: Lines, last: Lines)
    requires inner == Then(Space(Num(4)), Then(Label("x"), End)) && last == Then(Data(1, Ident("x")), End)
    ensures Pass0(Then(Label("x"), Then(Scope(inner), last))) == Ok(ShadowingState(false, true, 5, 4, [0], []))
  {
    hide Assembler.VisitLines;
    var start := StartPass(Initial(), [0]);
    var s1 := ShadowingState(false, false, 0, 0, [0], []);
    First(start);
    assert VisitLine(start, Label("x"), false) == Ok(s1);
    Steps(start, Label("x"), Then(Scope(inner), last), false);
    ShadowingBlock(s1, inner, false);
    Steps(s1, Scope(inner), last, false);
    ShadowingLast(last, false, [0]);
  }

  lemma ShadowingBlock(s: Asm, inner: Lines, pass: bool)
    requires inner == Then(Space(Num(4)), Then(Label("x"), End))
    requires s == if pass then ShadowingState(false, true, 0, 0, [0], []).(entered := [])
                  else ShadowingState(false, false, 0, 0, [0], [])
    ensures VisitLine(s, Scope(inner), pass) ==
      Ok(ShadowingState(false, true, 4, 4, if pass then [1] else [0], []))
  {
    hide Assembler.VisitLines;
    var nums := if pass then [0, 0] else [0];
    var s1 := ShadowingState(true, true, 0, 0, nums, []);
    ShadowingEnter(s, s1, pass);
    var s2 := ShadowingState(true, true, 4, 0, nums, []);
    assert VisitLine(s1, Space(Num(4)), pass) == Ok(s2);
    Steps(s1, Space(Num(4)), Then(Label("x"), End), pass);
    var s3 := ShadowingState(true, true, 4, 4, nums, []);
    assert Find(s2.table, 1, "x") == Some(0);
    Again(s2, 0, pass);
    assert VisitLine(s2, Label("x"), pass) == Ok(s3);
    Steps(s2, Label("x"), End, pass);
    Stops(s3, pass);
    BlockIsVisited(s, inner, pass);
    ShadowingLeave(s3, pass);
  }

  lemma ShadowingEnter(s: Asm, s1: Asm, pass: bool)
    requires s == if pass then ShadowingState(false, true, 0, 0, [0], []).(entered := [])
                  else ShadowingState(false, false, 0, 0, [0], [])
    requires s1 == ShadowingState(true, true, 0, 0, if pass then [0, 0] else [0], [])
    ensures EnterScope(s, pass) == Ok(s1)
  {
    assert s.entered + [2] == [2];
    if pass {
      assert s.childNums + [0] == [0, 0];
    } else {
      assert s.table.nodes[1].children + [2] == [2];
      assert MkScope(s.table, 1).nodes == s1.table.nodes;
    }
  }

  lemma ShadowingLeave(s: Asm, pass: bool)
    requires s == ShadowingState(true, true, 4, 4, if pass then [0, 0] else [0], [])
    ensures LeaveScope(s, pass) == Ok(ShadowingState(false, true, 4, 4, if pass then [1] else [0], []))
  {
    if pass {
      assert s.childNums[..1] == [0] && [0][0 := 1] == [1];
    }
  }

  lemma Stops(s: Asm, pass: bool)
    ensures VisitLines(s, End, pass) == Ok(s)
  {
  }

  lemma ShadowingLast(last: Lines, pass: bool, nums: seq<nat>)
    requires last == Then(Data(1, Ident("x")), End)
    ensures VisitLines(ShadowingState(false, true, 4, 4, nums, []), last, pass) ==
      Ok(ShadowingState(false, true, 5, 4, nums, if pass then [Cell(4, 4)] else []))
  {
    hide Assembler.VisitLines;
    var s := ShadowingState(false, true, 4, 4, nums, []);
    OneByte(4, 4);
    assert Find(s.table, 1, "x") == Some(0);
    assert Eval(Ident("x"), pass, 4, LookupIn(s.table, 1)) == Ok(if pass then 4 else 0);
    assert [] + [Cell(4, 4)] == [Cell(4, 4)];
    assert VisitLine(s, Data(1, Ident("x")), pass) ==
      Ok(ShadowingState(false, true, 5, 4, nums, if pass then [Cell(4, 4)] else []));
    Steps(s, Data(1, Ident("x")), End, pass);
    Stops(VisitLine(s, Data(1, Ident("x")), pass).value, pass);
  }

  lemma Silent(l: Line, rest: Lines, pc: U64, next: U64, env: Env)
    requires DenoteLine(l, pc, env) == Ok(Output(next, []))
    ensures Denote(Then(l, rest), pc, env) == Denote(rest, next, env)
  {
    var o := Denote(rest, next, env);
    if o.Ok? {
      assert [] + o.value.cells == o.value.cells;
    }
  }

  lemma ShadowingMeaning(inner: Lines, last: Lines)
    requires inner == Then(Space(Num(4)), Then(Label("x"), End)) && last == Then(Data(1, Ident("x")), End)
    ensures Program(Then(Label("x"), Then(Scope(inner), last))) == Ok(Output(5, [Cell(4, 0)]))
  {
    var env: Env := map["x" := 0];
    var inside := env + Labels(inner, 0);
    Silent(Label("x"), End, 4, 4, inside);
    Silent(Space(Num(4)), Then(Label("x"), End), 0, 4, inside);
    Silent(Scope(inner), last, 0, 4, env);
    Silent(Label("x"), Then(Scope(inner), last), 0, 0, env);
    OneByte(4, 0);
    assert DenoteLine(Data(1, Ident("x")), 4, env) == Ok(Output(5, [Cell(4, 0)]));
    assert [Cell(4, 0)] + [] == [Cell(4, 0)];
    assert AfterLines(inner, 0) == Ok(4);
    assert Labels(last, 4) == map[];
    assert Labels(Then(Label("x"), Then(Scope(inner), last)), 0) == env;
  }

  lemma ShadowingPassOne(inner: Lines, last: Lines)
    requires inner == Then(Space(Num(4)), Then(Label("x"), End)) && last == Then(Data(1, Ident("x")), End)
    ensures
      VisitLines(ShadowingState(false, true, 0, 4, [0], []).(entered := []),
        Then(Label("x"), Then(Scope(inner), last)), true) ==
      Ok(ShadowingState(false, true, 5, 4, [1], [Cell(4, 4)]))
  {
    hide Assembler.VisitLines;
    var start := ShadowingState(false, true, 0, 4, [0], []).(entered := []);
    var s1 := ShadowingState(false, true, 0, 0, [0], []).(entered := []);
    Again(start, 4, true);
    assert VisitLine(start, Label("x"), true) == Ok(s1);
    Steps(start, Label("x"), Then(Scope(inner), last), true);
    ShadowingBlock(s1, inner, true);
    Steps(s1, Scope(inner), last, true);
    ShadowingLast(last, true, [1]);
  }

  /** A label in a block takes over the address of the same label outside it: `x: { .space 4  x: } .db8 x`. */
  lemma ShadowingMovesLabels()
    ensures
      var inner := Then(Space(Num(4)), Then(Label("x"), End));
      var p := Then(Label("x"), Then(Scope(inner), Then(Data(1, Ident("x")), End)));
      FixedLayout(p) && !NoShadowing(p, {}) && Pass0(p).Ok? &&
      Program(p) == Ok(Output(5, [Cell(4, 0)])) &&
      Assemble(p).Ok? && Assemble(p).value.out == Output(5, [Cell(4, 4)])
  {
    hide Assembler.VisitLines, Assembler.VisitLine, Meaning.Denote;
    var inner := Then(Space(Num(4)), Then(Label("x"), End));
    var last := Then(Data(1, Ident("x")), End);
    ShadowingMeaning(inner, last);
    ShadowingPassZero(inner, last);
    ShadowingPassOne(inner, last);
  }

  /** A label that moves its own layout gets another address in pass 1: `.org x  .space 4  x:`. */
  lemma LayoutLabelsMove()
    ensures
      var p := Then(Org(Ident("x")), Then(Space(Num(4)), Then(Label("x"), End)));
      NoShadowing(p, {}) && !FixedLayout(p) && !ProgramStays(p) && Pass0(p).Ok? && Assemble(p).Ok? &&
      LabelAt(Pass0(p).value.table, 1, "x") == Some(4) && LabelAt(Assemble(p).value.table, 1, "x") == Some(8)
  {
    hide Assembler.VisitLines, Assembler.VisitLine, Meaning.ProgramStays;
    var last := Then(Label("x"), End);
    LayoutPassZero(last);
    LayoutPassOne(last);
    TwoPasses.SymbolsStayExactly(Then(Org(Ident("x")), Then(Space(Num(4)), last)));
  }

  /** Mentioning a label is not enough to move one: `.org x - x  x:`. */
  lemma LayoutLabelsMayStay()
    ensures
      var p := Then(Org(Binary(Sub, Ident("x"), Ident("x"))), Then(Label("x"), End));
      NoShadowing(p, {}) && !FixedLayout(p) && ProgramStays(p) && Pass0(p).Ok? && Assemble(p).Ok? &&
      Assemble(p).value.table == Pass0(p).value.table
  {
    hide Assembler.VisitLines, Assembler.VisitLine;
    var p := Then(Org(Binary(Sub, Ident("x"), Ident("x"))), Then(Label("x"), End));
    StayingLayout(p);
    Acceptance.AcceptsExactly(p);
    TwoPasses.AssembleImage(p);
    TwoPasses.SymbolsStayExactly(p);
  }

  lemma StayingLayout(p: Lines)
    requires p == Then(Org(Binary(Sub, Ident("x"), Ident("x"))), Then(Label("x"), End))
    ensures ProgramStays(p) && ProgramImage(p).Ok? && Acceptance.Acceptable(p, 0, {}, {})
  {
    var org, rest := Org(Binary(Sub, Ident("x"), Ident("x"))), Then(Label("x"), End);
    assert After(org, 0) == Ok(0);
    assert Labels(rest, 0) == map["x" := 0];
    assert Labels(Then(org, rest), 0) == map["x" := 0];
    assert ImageLine(org, 0, 0, map["x" := 0]) == Ok(Output(0, []));
  }

  /** Pass 0 stops at a remainder by a label, although the program has a meaning: `.db8 5 % x  x:`. */
  lemma RemainderByLabelStops()
    ensures
      var p := Then(Data(1, Binary(Mod, Num(5), Ident("x"))), Then(Label("x"), End));
      Pass0(p) == Err(Undefined) && NoShadowing(p, {}) && FixedLayout(p) && Program(p).Ok?
  {
    var data, rest := Data(1, Binary(Mod, Num(5), Ident("x"))), Then(Label("x"), End);
    assert Labels(Then(data, rest), 0)["x"] == 1;
    assert DenoteLine(data, 0, Labels(Then(data, rest), 0)).Ok?;
  }

  function LayoutState(labelled: bool, pc: U64, addr: U64): Asm {
    var syms := if labelled then [Symbol("x", addr, true)] else [];
    var names: map<string, nat> := if labelled then map["x" := 0] else map[];
    Asm(Table([Node(0, [1], map[]), Node(0, [], names)], syms), 1, [0], Output(pc, []), [])
  }

  lemma LayoutPassZero(last: Lines)
    requires last == Then(Label("x"), End)
    ensures Pass0(Then(Org(Ident("x")), Then(Space(Num(4)), last))) == Ok(LayoutState(true, 4, 4))
  {
    hide Assembler.VisitLines;
    var s0, s1 := LayoutState(false, 0, 0), LayoutState(false, 4, 0);
    assert VisitLine(s0, Org(Ident("x")), false) == Ok(s0);
    Steps(s0, Org(Ident("x")), Then(Space(Num(4)), last), false);
    assert VisitLine(s0, Space(Num(4)), false) == Ok(s1);
    Steps(s0, Space(Num(4)), last, false);
    First(s1);
    assert VisitLine(s1, Label("x"), false) == Ok(LayoutState(true, 4, 4));
    Steps(s1, Label("x"), End, false);
    Stops(LayoutState(true, 4, 4), false);
  }

  lemma LayoutPassOne(last: Lines)
    requires last == Then(Label("x"), End)
    ensures VisitLines(LayoutState(true, 0, 4), Then(Org(Ident("x")), Then(Space(Num(4)), last)), true) ==
      Ok(LayoutState(true, 8, 8))
  {
    hide Assembler.VisitLines;
    var s0, s1, s2 := LayoutState(true, 0, 4), LayoutState(true, 4, 4), LayoutState(true, 8, 4);
    assert VisitLine(s0, Org(Ident("x")), true) == Ok(s1);
    Steps(s0, Org(Ident("x")), Then(Space(Num(4)), last), true);
    assert VisitLine(s1, Space(Num(4)), true) == Ok(s2);
    Steps(s1, Space(Num(4)), last, true);
    Again(s2, 4, true);
    assert VisitLine(s2, Label("x"), true) == Ok(LayoutState(true, 8, 8));
    Steps(s2, Label("x"), End, true);
    Stops(LayoutState(true, 8, 8), true);
  }
}
