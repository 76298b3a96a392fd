/**
 * Pass 1 after pass 0, for every program that does not shadow: it computes the program's image
 * where both layouts agree on the labels, and leaves the symbols alone exactly then.
 */
module TwoPasses {
  import opened Expressions
  import opened Scopes
  import opened Assembler
  import opened Meaning
  import opened ScopeReplay
  import opened LabelAgreement
  import opened Placement

  /** The names visible from a node stand for what the environment says. */
  ghost predicate Agrees(t: Table, n: nat, env: Env) {
    forall x :: LabelAt(t, n, x) == Look(env)(x)
  }

  lemma PlacedLabels(t: Table, n: nat, ls: Lines, pc: U64, next: nat, sym: nat, x: string)
    requires Placed(t, n, ls, pc, next, sym) && AfterLines(ls, pc).Ok? && x in Names(ls)
    ensures x in Labels(ls, pc) && n < |t.nodes| && IsLabelHere(t, n, x)
    ensures t.syms[t.nodes[n].table[x]].addr == Labels(ls, pc)[x]
  {
    var l, rest := ls.first, ls.rest;
    if !(l.Label? && l.name == x) {
      PlacedLabels(t, n, rest, After(l, pc).value, next + BlocksOf(l), sym + LabelsOf(l), x);
    }
  }

  /** Inside a block, its own labels hide the outer ones. */
  lemma AgreesInside(t: Table, n: nat, env: Env, body: Lines, pc: U64, c: nat, sym: nat)
    requires Agrees(t, n, env) && HasBlock(t, n, body, c)
    requires Placed(t, c, body, pc, c + 1, sym) && AfterLines(body, pc).Ok?
    ensures Agrees(t, c, env + Labels(body, pc))
  {
    LabelsAreNames(body, pc);
    forall x ensures LabelAt(t, c, x) == Look(env + Labels(body, pc))(x) {
      if x in Names(body) {
        PlacedLabels(t, c, body, pc, c + 1, sym, x);
      } else {
        assert LabelAt(t, c, x) == LabelAt(t, n, x) == Look(env)(x);
      }
    }
  }

  /** Pass 1 got what the meaning says: the same bytes after those before it, or the same stop. */
  ghost predicate Means(s: Asm, v: Result<Asm>, d: Result<Output>) {
    match d
    case Err(e) => v == Err(e)
    case Ok(o) => v.Ok? && v.value.table == s.table && v.value.out == Output(o.pc, s.out.cells + o.cells)
  }

  lemma EndMeans(s: Asm, zero: U64, env: Env)
    ensures Means(s, VisitLines(s, End, true), Image(End, zero, s.out.pc, env))
  {
  }

  lemma MeansGives(s: Asm, v: Result<Asm>, d: Result<Output>)
    requires Means(s, v, d) && d.Ok?
    ensures v.Ok? && v.value.table == s.table && v.value.out.pc == d.value.pc
  {
  }

  lemma ThenMeans(s: Asm, l: Line, rest: Lines, zero: U64, env: Env)
    requires After(l, zero).Ok? && Means(s, VisitLine(s, l, true), ImageLine(l, zero, s.out.pc, env))
    requires ImageLine(l, zero, s.out.pc, env).Ok? ==>
      VisitLine(s, l, true).Ok? &&
      Means(VisitLine(s, l, true).value, VisitLines(VisitLine(s, l, true).value, rest, true),
        Image(rest, After(l, zero).value, ImageLine(l, zero, s.out.pc, env).value.pc, env))
    ensures Means(s, VisitLines(s, Then(l, rest), true), Image(Then(l, rest), zero, s.out.pc, env))
  {
    hide Assembler.VisitLine, Meaning.ImageLine, Meaning.After;
  }

  // ----- pass 1 writes each symbol once -----

  /** Only symbols from `lo` below `hi` differ. */
  ghost predicate Rewrites(t: Table, u: Table, lo: nat, hi: nat) {
    u.nodes == t.nodes && |u.syms| == |t.syms| &&
    forall i :: 0 <= i < |t.syms| && !(lo <= i < hi) ==> u.syms[i] == t.syms[i]
  }

  lemma PlacedFrom(t: Table, u: Table, n: nat, ls: Lines, zero: U64, next: nat, lo: nat, sym: nat)
    requires Rewrites(t, u, lo, sym) && Placed(t, n, ls, zero, next, sym)
    ensures Placed(u, n, ls, zero, next, sym)
  {
    PlacedAgain(t, u, n, ls, zero, next, lo, sym, sym);
  }

  lemma {:induction false} PlacedAgain(t: Table, u: Table, n: nat, ls: Lines, zero: U64, next: nat,
        lo: nat, hi: nat, sym: nat)
    requires Rewrites(t, u, lo, hi) && hi <= sym && Placed(t, n, ls, zero, next, sym)
    ensures Placed(u, n, ls, zero, next, sym)
    decreases ls
  {
    if ls.Then? {
      var l := ls.first;
      PlacedAgain(t, u, n, ls.rest, After(l, zero).value, next + BlocksOf(l), lo, hi, sym + LabelsOf(l));
      if l.Scope? {
        PlacedAgain(t, u, next, l.body, zero, next + 1, lo, hi, sym);
      }
    }
  }

  lemma RewritesTwice(t: Table, u: Table, v: Table, lo: nat, mid: nat, hi: nat)
    requires lo <= mid <= hi && Rewrites(t, u, lo, mid) && Rewrites(u, v, mid, hi)
    ensures Rewrites(t, v, lo, hi)
    ensures u != t ==> v != t
  {
    if u != t {
      assert u.syms != t.syms;
      var i :| 0 <= i < |t.syms| && u.syms[i] != t.syms[i];
      assert v.syms[i] == u.syms[i];
    }
  }

  lemma {:induction false} PassOneWrites(s: Asm, ls: Lines, above: seq<nat>, k: nat, next: nat, sym: nat, zero: U64)
    requires 1 <= s.curr && Stands(s, above, k) && Fits(s.table, s.curr, ls, k, next)
    requires Placed(s.table, s.curr, ls, zero, next, sym) && VisitLines(s, ls, true).Ok?
    ensures Rewrites(s.table, VisitLines(s, ls, true).value.table, sym, sym + LabelsIn(ls))
    decreases ls, 0
  {
    hide Assembler.VisitLine, ScopeReplay.SameTree, Rewrites, HasLabel, HasBlock;
    if ls.End? {
      NothingRewritten(s.table, sym);
    } else {
      var l, rest := ls.first, ls.rest;
      var m := VisitLine(s, l, true).value;
      PassOneWritesLine(s, l, rest, above, k, next, sym, zero);
      PassOneFollowsLine(s, l, rest, above, k, next);
      PlacedFrom(s.table, m.table, s.curr, rest, After(l, zero).value, next + BlocksOf(l), sym, sym + LabelsOf(l));
      SameTreeFits(s.table, m.table, s.curr, rest, NextBlock(l, k), next + BlocksOf(l));
      PassOneWrites(m, rest, above, NextBlock(l, k), next + BlocksOf(l), sym + LabelsOf(l), After(l, zero).value);
      var r := VisitLines(m, rest, true).value;
      RewritesTwice(s.table, m.table, r.table, sym, sym + LabelsOf(l), sym + LabelsIn(ls));
    }
  }

  lemma NothingRewritten(t: Table, sym: nat)
    ensures Rewrites(t, t, sym, sym)
  {
  }

  lemma {:induction false} PassOneWritesLine(s: Asm, l: Line, rest: Lines, above: seq<nat>, k: nat, next: nat,
        sym: nat, zero: U64)
    requires 1 <= s.curr && Stands(s, above, k) && Fits(s.table, s.curr, Then(l, rest), k, next)
    requires Placed(s.table, s.curr, Then(l, rest), zero, next, sym) && VisitLine(s, l, true).Ok?
    ensures Rewrites(s.table, VisitLine(s, l, true).value.table, sym, sym + LabelsOf(l))
    decreases l
  {
    if l.Scope? {
      PassOneWritesBlock(s, l.body, above, k, next, sym, zero);
    } else if l.Label? {
      LabelIsRewritten(s, l.name, zero, sym);
    }
  }

  /** Pass 1 finds the label's own symbol and writes the address it has come to. */
  lemma LabelIsRewritten(s: Asm, name: string, zero: U64, sym: nat)
    requires HasLabel(s.table, s.curr, name, zero, sym) && 1 <= s.curr
    ensures VisitLabel(s, name, true) == Ok(s.(table := SetLabel(s.table, sym, s.out.pc)))
    ensures Rewrites(s.table, SetLabel(s.table, sym, s.out.pc), sym, sym + 1)
    ensures SetLabel(s.table, sym, s.out.pc) == s.table <==> zero == s.out.pc
  {
    if zero == s.out.pc {
      assert s.table.syms[sym := s.table.syms[sym].(found := true, addr := s.out.pc)] == s.table.syms;
    }
  }

  lemma {:induction false} PassOneWritesBlock(s: Asm, body: Lines, above: seq<nat>, k: nat, next: nat,
        sym: nat, zero: U64)
    requires 1 <= s.curr && Stands(s, above, k) && k < |s.table.nodes[s.curr].children|
    requires s.table.nodes[s.curr].children[k] == next && HasBlock(s.table, s.curr, body, next)
    requires Fits(s.table, next, body, 0, next + 1) && Placed(s.table, next, body, zero, next + 1, sym)
    requires VisitLine(s, Scope(body), true).Ok?
    ensures Rewrites(s.table, VisitLine(s, Scope(body), true).value.table, sym, sym + LabelsIn(body))
    decreases body, 1
  {
    hide Assembler.VisitLine, Assembler.VisitLines, Rewrites, Placed, ScopeReplay.Fits;
    BlockIsVisited(s, body, true);
    var s1 := EnterScope(s, true).value;
    assert Stands(s1, above + [k], 0);
    PassOneWrites(s1, body, above + [k], 0, next + 1, sym, zero);
  }

  // ----- pass 1: meaning -----

  /**
   * From the state pass 0 left: where the layouts agree on the labels, pass 1 makes the image and leaves
   * the table alone; where they do not, the table it leaves is another.
   */
  lemma {:induction false} PassOneMeans(s: Asm, ls: Lines, above: seq<nat>, k: nat, next: nat,
        sym: nat, zero: U64, env: Env)
    requires 1 <= s.curr && Stands(s, above, k) && Fits(s.table, s.curr, ls, k, next)
    requires Placed(s.table, s.curr, ls, zero, next, sym) && AfterLines(ls, zero).Ok?
    requires Agrees(s.table, s.curr, env)
    ensures Decides(s, VisitLines(s, ls, true), Image(ls, zero, s.out.pc, env), LabelsStay(ls, zero, s.out.pc, env))
    decreases ls, 0
  {
    hide Assembler.VisitLine, Meaning.ImageLine, Meaning.LabelsStayOf, Agrees, Means, ScopeReplay.SameTree, Rewrites;
    if ls.End? {
      EndMeans(s, zero, env);
    } else {
      var l, rest := ls.first, ls.rest;
      var v, d := VisitLine(s, l, true), ImageLine(l, zero, s.out.pc, env);
      LineMeans(s, l, rest, above, k, next, sym, zero, env);
      PassOneFollowsLine(s, l, rest, above, k, next);
      if !LabelsStayOf(l, zero, s.out.pc, env) {
        if VisitLines(s, ls, true).Ok? {
          MovesForGood(s, l, rest, above, k, next, sym, zero);
        }
      } else {
        if d.Ok? {
          MeansGives(s, v, d);
          var zero1 := After(l, zero).value;
          PassOneMeans(v.value, rest, above, NextBlock(l, k), next + BlocksOf(l), sym + LabelsOf(l), zero1, env);
        }
        StayingThen(s, l, rest, zero, env);
      }
    }
  }

  /** The outcome of pass 1 on lines, given whether their labels stay. */
  ghost predicate Decides(s: Asm, v: Result<Asm>, d: Result<Output>, stay: bool) {
    && (stay ==> Means(s, v, d))
    && (!stay && v.Ok? ==> v.value.table != s.table)
  }

  lemma StayingThen(s: Asm, l: Line, rest: Lines, zero: U64, env: Env)
    requires After(l, zero).Ok? && LabelsStayOf(l, zero, s.out.pc, env)
    requires Means(s, VisitLine(s, l, true), ImageLine(l, zero, s.out.pc, env))
    requires
      var v, d := VisitLine(s, l, true), ImageLine(l, zero, s.out.pc, env);
      d.Ok? ==>
        v.Ok? && v.value.table == s.table &&
        Decides(v.value, VisitLines(v.value, rest, true), Image(rest, After(l, zero).value, d.value.pc, env),
          LabelsStay(rest, After(l, zero).value, d.value.pc, env))
    ensures
      Decides(s, VisitLines(s, Then(l, rest), true), Image(Then(l, rest), zero, s.out.pc, env),
        LabelsStay(Then(l, rest), zero, s.out.pc, env))
  {
    hide Assembler.VisitLine, Meaning.ImageLine, Meaning.After, Meaning.LabelsStayOf, Means;
    if LabelsStay(Then(l, rest), zero, s.out.pc, env) {
      ThenMeans(s, l, rest, zero, env);
    }
  }

  /** No later line writes a moved label's symbol back. */
  lemma MovesForGood(s: Asm, l: Line, rest: Lines, above: seq<nat>, k: nat, next: nat, sym: nat, zero: U64)
    requires 1 <= s.curr && Stands(s, above, k) && Fits(s.table, s.curr, Then(l, rest), k, next)
    requires Placed(s.table, s.curr, Then(l, rest), zero, next, sym) && VisitLines(s, Then(l, rest), true).Ok?
    requires VisitLine(s, l, true).value.table != s.table
    ensures VisitLines(s, Then(l, rest), true).value.table != s.table
  {
    hide Assembler.VisitLine, ScopeReplay.SameTree, Rewrites, HasLabel, HasBlock;
    var m := VisitLine(s, l, true).value;
    PassOneWritesLine(s, l, rest, above, k, next, sym, zero);
    PassOneFollowsLine(s, l, rest, above, k, next);
    PlacedFrom(s.table, m.table, s.curr, rest, After(l, zero).value, next + BlocksOf(l), sym, sym + LabelsOf(l));
    SameTreeFits(s.table, m.table, s.curr, rest, NextBlock(l, k), next + BlocksOf(l));
    PassOneWrites(m, rest, above, NextBlock(l, k), next + BlocksOf(l), sym + LabelsOf(l), After(l, zero).value);
    RewritesTwice(s.table, m.table, VisitLines(m, rest, true).value.table, sym, sym + LabelsOf(l),
      sym + LabelsOf(l) + LabelsIn(rest));
  }

  lemma {:induction false} LineMeans(s: Asm, l: Line, rest: Lines, above: seq<nat>, k: nat, next: nat, sym: nat,
        zero: U64, env: Env)
    requires 1 <= s.curr && Stands(s, above, k) && Fits(s.table, s.curr, Then(l, rest), k, next)
    requires Placed(s.table, s.curr, Then(l, rest), zero, next, sym) && Agrees(s.table, s.curr, env)
    ensures Decides(s, VisitLine(s, l, true), ImageLine(l, zero, s.out.pc, env), LabelsStayOf(l, zero, s.out.pc, env))
    decreases l
  {
    if l.Scope? {
      BlockMeans(s, l.body, above, k, next, sym, zero, env);
    } else if l.Label? {
      LabelIsRewritten(s, l.name, zero, sym);
    } else {
      PlainMeans(s, l, env);
    }
  }

  lemma PlainMeans(s: Asm, l: Line, env: Env)
    requires !l.Scope? && !l.Label? && Agrees(s.table, s.curr, env)
    ensures Means(s, VisitLine(s, l, true), DenoteLine(l, s.out.pc, env))
  {
    var pc, look := s.out.pc, LookupIn(s.table, s.curr);
    match l
    case Blank =>
    case Code(i) => EvalCongruence(Operand(i), true, pc, look, Look(env));
    case Org(e) => EvalCongruence(e, true, pc, look, Look(env));
    case Space(e) => EvalCongruence(e, true, pc, look, Look(env));
    case Data(width, e) => EvalCongruence(e, true, pc, look, Look(env));
  }

  lemma {:induction false} BlockMeans(s: Asm, body: Lines, above: seq<nat>, k: nat, next: nat,
        sym: nat, zero: U64, env: Env)
    requires 1 <= s.curr && Stands(s, above, k) && k < |s.table.nodes[s.curr].children|
    requires s.table.nodes[s.curr].children[k] == next && HasBlock(s.table, s.curr, body, next)
    requires Fits(s.table, next, body, 0, next + 1)
    requires Placed(s.table, next, body, zero, next + 1, sym) && AfterLines(body, zero).Ok?
    requires Agrees(s.table, s.curr, env)
    ensures Decides(s, VisitLine(s, Scope(body), true), Image(body, zero, s.out.pc, env + Labels(body, zero)),
              LabelsStay(body, zero, s.out.pc, env + Labels(body, zero)))
    decreases body, 1
  {
    hide Assembler.VisitLine, Assembler.VisitLines, Meaning.Image, Meaning.LabelsStay, Agrees, Placed, ScopeReplay.Fits;
    BlockIsVisited(s, body, true);
    var s1 := EnterScope(s, true).value;
    assert Stands(s1, above + [k], 0);
    AgreesInside(s.table, s.curr, env, body, zero, next, sym);
    PassOneMeans(s1, body, above + [k], 0, next + 1, sym, zero, env + Labels(body, zero));
    PassOneFollows(s1, body, above + [k], 0, next + 1);
  }

  // ----- both passes -----

  lemma BothPassesMean(s: Asm, p: Lines, s0: Asm, s1: Asm)
    requires WellFormed(s.table) && Sees(s.table, s.curr, {}, {}) && VisitLines(s, p, false) == Ok(s0)
    requires s.curr == 1 && s.table.nodes[1] == Node(0, [], map[]) && s.childNums == [0]
    requires s1 == Asm(s0.table, s.curr, s0.childNums, s.out, [])
    requires NoShadowing(p, {})
    ensures Decides(s1, VisitLines(s1, p, true), Image(p, s.out.pc, s.out.pc, Labels(p, s.out.pc)),
              LabelsStay(p, s.out.pc, s.out.pc, Labels(p, s.out.pc)))
  {
    hide Assembler.VisitLine, Assembler.VisitLines, Meaning.Image, Meaning.LabelsStay, Sees, WellFormed, Decides;
    hide Placed, Agrees, ScopeReplay.Fits;
    var none: set<string> := {};
    assert none + none == none && Names(p) !! none;
    PassZeroNames(s, p, none, none, s0);
    PassZeroPlaces(s, p, none, none, s0);
    PassZeroLayout(s, p, s0);
    PassZeroBuilds(s, p, s0);
    PassZeroOwns(s, p, s0);
    assert s0.childNums == [] + [0];
    RootAgrees(s0.table, p, s.out.pc, |s.table.nodes|, |s.table.syms|);
    PassOneMeans(s1, p, [], 0, |s.table.nodes|, |s.table.syms|, s.out.pc, Labels(p, s.out.pc));
  }

  lemma RootAgrees(t: Table, p: Lines, pc: U64, next: nat, sym: nat)
    requires |t.nodes| > 1 && t.nodes[1].parent == 0 && t.nodes[1].table.Keys == Names(p)
    requires Placed(t, 1, p, pc, next, sym) && AfterLines(p, pc).Ok?
    ensures Agrees(t, 1, Labels(p, pc))
  {
    LabelsAreNames(p, pc);
    forall x ensures LabelAt(t, 1, x) == Look(Labels(p, pc))(x) {
      if x in Names(p) {
        PlacedLabels(t, 1, p, pc, next, sym, x);
      }
    }
  }

  lemma DecidesFromStart(s: Asm, v: Result<Asm>, d: Result<Output>, stay: bool)
    requires Decides(s, v, d, stay) && s.out.cells == []
    ensures stay && d.Err? ==> v == Err(d.error)
    ensures stay && d.Ok? ==> v.Ok? && v.value.out == d.value && v.value.table == s.table
    ensures v.Ok? ==> (v.value.table == s.table <==> stay)
  {
  }

  lemma ProgramDecides(p: Lines)
    requires Pass0(p).Ok? && NoShadowing(p, {})
    ensures ProgramStays(p) && ProgramImage(p).Err? ==> Assemble(p) == Err(ProgramImage(p).error)
    ensures ProgramStays(p) && ProgramImage(p).Ok? ==> Assemble(p).Ok? && Assemble(p).value.out == ProgramImage(p).value
    ensures Assemble(p).Ok? ==> (Assemble(p).value.table == Pass0(p).value.table <==> ProgramStays(p))
  {
    hide Assembler.VisitLine, Assembler.VisitLines, Meaning.Image, Meaning.LabelsStay, Sees, WellFormed, Decides;
    var s, s0 := StartPass(Initial(), [0]), Pass0(p).value;
    NothingSeen(s);
    var s1 := StartPass(s0.table, s0.childNums);
    BothPassesMean(s, p, s0, s1);
    DecidesFromStart(s1, Assemble(p), ProgramImage(p), ProgramStays(p));
  }

  /**
   * Where no block shadows, every symbol keeps the address pass 0 gave it if and only if the two
   * layouts put every label at the same address.
   */
  lemma SymbolsStayExactly(p: Lines)
    requires Pass0(p).Ok? && NoShadowing(p, {}) && Assemble(p).Ok?
    ensures Assemble(p).value.table == Pass0(p).value.table <==> ProgramStays(p)
  {
    hide *;
    ProgramDecides(p);
  }

  /** And then pass 1 prints exactly the image of those addresses, or stops for the same reason. */
  lemma AssembleImage(p: Lines)
    requires Pass0(p).Ok? && NoShadowing(p, {}) && ProgramStays(p)
    ensures ProgramImage(p).Err? ==> Assemble(p) == Err(ProgramImage(p).error)
    ensures ProgramImage(p).Ok? ==> Assemble(p).Ok? && Assemble(p).value.out == ProgramImage(p).value
  {
    hide *;
    ProgramDecides(p);
  }

  /**
   * A program that pass 0 accepts, that shadows no label and whose layout mentions none, assembles
   * to what it means: pass 1 prints exactly those bytes or stops for the same reason, and leaves
   * every symbol with the address pass 0 gave it.
   */
  lemma AssembleMeans(p: Lines)
    requires Pass0(p).Ok? && NoShadowing(p, {}) && FixedLayout(p)
    ensures Program(p).Err? ==> Assemble(p) == Err(Program(p).error)
    ensures Program(p).Ok? ==>
      Assemble(p).Ok? && Assemble(p).value.out == Program(p).value &&
      Assemble(p).value.table == Pass0(p).value.table
  {
    hide Assembler.Assemble, Assembler.Pass0, Meaning.Image, Meaning.Denote, Meaning.LabelsStay;
    FixedLayoutStays(p, 0, Labels(p, 0));
    ProgramDecides(p);
  }
}
