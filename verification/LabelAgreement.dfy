/** Pass 0 gives every label a symbol of its own, in its own block's node, exactly when no block shadows. */
module LabelAgreement {
  import opened Expressions
  import opened Scopes
  import opened Assembler
  import opened Meaning
  import opened ScopeReplay

  // ----- tables -----

  /** Parents come first, and every entry is a symbol that has been seen as a label. */
  ghost predicate WellFormed(t: Table) {
    && (forall m :: 1 <= m < |t.nodes| ==> t.nodes[m].parent < m)
    && (forall m, x :: 0 <= m < |t.nodes| && x in t.nodes[m].table ==> IsLabelHere(t, m, x))
  }

  /** Only the table of node `n`, among the nodes there were, has changed. */
  ghost predicate OnlyAt(t: Table, u: Table, n: nat) {
    && |t.nodes| <= |u.nodes|
    && forall m :: 0 <= m < |t.nodes| ==>
         u.nodes[m].parent == t.nodes[m].parent && (m != n ==> u.nodes[m].table == t.nodes[m].table)
  }

  /** Names visible from node `n`: `outer` from enclosing nodes, `here` declared in this block so far. */
  ghost predicate Sees(t: Table, n: nat, outer: set<string>, here: set<string>) {
    && 1 <= n < |t.nodes|
    && t.nodes[n].table.Keys == here - outer
    && forall x :: Find(t, n, x).Some? <==> x in outer + here
  }

  lemma {:induction false} FindStays(t: Table, u: Table, n: nat, x: string)
    requires WellFormed(t) && n < |t.nodes| <= |u.nodes|
    requires forall m :: 0 <= m <= n ==>
      u.nodes[m].parent == t.nodes[m].parent && u.nodes[m].table == t.nodes[m].table
    ensures Find(u, n, x) == Find(t, n, x)
  {
    if 1 <= n && x !in t.nodes[n].table {
      FindStays(t, u, t.nodes[n].parent, x);
    }
  }

  lemma SeesStays(t: Table, u: Table, n: nat, c: nat, outer: set<string>, here: set<string>)
    requires WellFormed(t) && Sees(t, n, outer, here) && OnlyAt(t, u, c) && n < c
    ensures Sees(u, n, outer, here)
  {
    forall x ensures Find(u, n, x) == Find(t, n, x) {
      FindStays(t, u, n, x);
    }
  }

  // ----- pass 0: which names each node holds -----

  /** Every nested block's node holds the names its block declares, less those visible when it opened. */
  predicate Holds(t: Table, ls: Lines, seen: set<string>, next: nat)
    decreases ls
  {
    match ls
    case End => true
    case Then(l, rest) =>
      match l
      case Label(name) => Holds(t, rest, seen + {name}, next)
      case Scope(body) =>
        next < |t.nodes| && t.nodes[next].table.Keys == Names(body) - seen &&
        Holds(t, body, seen, next + 1) && Holds(t, rest, seen, next + 1 + Blocks(body))
      case _ => Holds(t, rest, seen, next)
  }

  lemma {:induction false} HoldsStays(t: Table, u: Table, n: nat, ls: Lines, seen: set<string>, next: nat)
    requires OnlyAt(t, u, n) && n < next && Holds(t, ls, seen, next)
    ensures Holds(u, ls, seen, next)
    decreases ls
  {
    match ls
    case End =>
    case Then(l, rest) =>
      match l
      case Label(name) => HoldsStays(t, u, n, rest, seen + {name}, next);
      case Scope(body) =>
        HoldsStays(t, u, n, body, seen, next + 1);
        HoldsStays(t, u, n, rest, seen, next + 1 + Blocks(body));
      case _ => HoldsStays(t, u, n, rest, seen, next);
  }

  /** What visiting lines that declare `names` does to the tables in pass 0. */
  ghost predicate Named(s: Asm, r: Asm, outer: set<string>, here: set<string>, names: set<string>) {
    r.curr == s.curr && WellFormed(r.table) && Sees(r.table, s.curr, outer, here + names) &&
    OnlyAt(s.table, r.table, s.curr)
  }

  lemma LabelNames(s: Asm, name: string, outer: set<string>, here: set<string>, r: Asm)
    requires WellFormed(s.table) && Sees(s.table, s.curr, outer, here)
    requires VisitLabel(s, name, false) == Ok(r)
    ensures Named(s, r, outer, here, {name})
    ensures name !in outer ==>
      name !in here && r.table == SetLabel(Insert(s.table, s.curr, name), |s.table.syms|, s.out.pc)
  {
    var n, t := s.curr, s.table;
    var f := Find(t, n, name);
    if f.Some? {
      assert name in outer;
      forall x ensures Find(r.table, n, x) == Find(t, n, x) {
        FindStays(t, r.table, n, x);
      }
    } else {
      forall x ensures Find(r.table, n, x).Some? <==> x == name || Find(t, n, x).Some? {
        FindStays(t, r.table, t.nodes[n].parent, x);
      }
    }
  }

  lemma {:induction false} PassZeroNames(s: Asm, ls: Lines, outer: set<string>, here: set<string>, r: Asm)
    requires WellFormed(s.table) && Sees(s.table, s.curr, outer, here)
    requires VisitLines(s, ls, false) == Ok(r)
    ensures Named(s, r, outer, here, Names(ls))
    ensures Holds(r.table, ls, outer + here, |s.table.nodes|)
    decreases ls, 0
  {
    hide Assembler.VisitLine, WellFormed, Sees, OnlyAt, Grown, ScopeReplay.Fits;
    match ls
    case End =>
      NamedNothing(s, outer, here);
    case Then(l, rest) =>
      var m := VisitLine(s, l, false).value;
      var names := if l.Label? then {l.name} else {};
      LineNames(s, l, outer, here, m);
      LineCounts(s, l, outer, here, m);
      PassZeroNames(m, rest, outer, here + names, r);
      NamedTwice(s, m, r, outer, here, names, Names(rest));
      assert outer + (here + names) == (if l.Label? then outer + here + names else outer + here);
      if l.Scope? {
        BlockStillHolds(s, m.table, r.table, l.body, outer + here);
      }
  }

  lemma LineCounts(s: Asm, l: Line, outer: set<string>, here: set<string>, m: Asm)
    requires Sees(s.table, s.curr, outer, here) && VisitLine(s, l, false) == Ok(m)
    ensures s.curr < |s.table.nodes| && |m.table.nodes| == |s.table.nodes| + BlocksOf(l)
  {
    PassZeroBuildsLine(s, l, m);
  }

  lemma NamedNothing(s: Asm, outer: set<string>, here: set<string>)
    requires WellFormed(s.table) && Sees(s.table, s.curr, outer, here)
    ensures Named(s, s, outer, here, {})
  {
    assert here + {} == here;
  }

  lemma NamedTwice(s: Asm, m: Asm, r: Asm, outer: set<string>, here: set<string>, names: set<string>, more: set<string>)
    requires Named(s, m, outer, here, names) && Named(m, r, outer, here + names, more)
    ensures Named(s, r, outer, here, names + more)
  {
    assert here + names + more == here + (names + more);
  }

  /** A block's nodes keep what they hold while the lines after the block are visited. */
  lemma BlockStillHolds(s: Asm, t: Table, u: Table, body: Lines, seen: set<string>)
    requires s.curr < |s.table.nodes| < |t.nodes| && OnlyAt(t, u, s.curr)
    requires t.nodes[|s.table.nodes|].table.Keys == Names(body) - seen && Holds(t, body, seen, |s.table.nodes| + 1)
    ensures
      var n := |s.table.nodes|;
      n < |u.nodes| && u.nodes[n].table.Keys == Names(body) - seen && Holds(u, body, seen, n + 1)
  {
    HoldsStays(t, u, s.curr, body, seen, |s.table.nodes| + 1);
  }

  lemma {:induction false} LineNames(s: Asm, l: Line, outer: set<string>, here: set<string>, r: Asm)
    requires WellFormed(s.table) && Sees(s.table, s.curr, outer, here)
    requires VisitLine(s, l, false) == Ok(r)
    ensures Named(s, r, outer, here, if l.Label? then {l.name} else {})
    ensures l.Scope? ==>
      var n := |s.table.nodes|;
      n < |r.table.nodes| && r.table.nodes[n].table.Keys == Names(l.body) - (outer + here) &&
      Holds(r.table, l.body, outer + here, n + 1)
    decreases l
  {
    match l
    case Label(name) => LabelNames(s, name, outer, here, r);
    case Scope(body) => BlockNames(s, body, outer, here, r);
    case _ => assert here + {} == here;
  }

  /** A fresh node sees what its parent sees. */
  lemma EnteredSees(s: Asm, s1: Asm, outer: set<string>, here: set<string>)
    requires WellFormed(s.table) && Sees(s.table, s.curr, outer, here)
    requires EnterScope(s, false) == Ok(s1)
    ensures s1.curr == |s.table.nodes| && |s1.table.nodes| == |s.table.nodes| + 1
    ensures WellFormed(s1.table) && OnlyAt(s.table, s1.table, s1.curr)
    ensures Sees(s1.table, s1.curr, outer + here, {})
  {
    forall x ensures Find(s1.table, s1.curr, x) == Find(s.table, s.curr, x) {
      FindStays(s.table, s1.table, s.curr, x);
    }
  }

  lemma {:induction false} BlockNames(s: Asm, body: Lines, outer: set<string>, here: set<string>, r: Asm)
    requires WellFormed(s.table) && Sees(s.table, s.curr, outer, here)
    requires VisitLine(s, Scope(body), false) == Ok(r)
    ensures Named(s, r, outer, here, {})
    ensures
      var n := |s.table.nodes|;
      n < |r.table.nodes| && r.table.nodes[n].table.Keys == Names(body) - (outer + here) &&
      Holds(r.table, body, outer + here, n + 1)
    decreases body, 1
  {
    hide Assembler.VisitLine, Assembler.VisitLines, Assembler.EnterScope;
    BlockIsVisited(s, body, false);
    var s1 := EnterScope(s, false).value;
    var s2 := VisitLines(s1, body, false).value;
    EnteredSees(s, s1, outer, here);
    PassZeroNames(s1, body, outer + here, {}, s2);
    assert outer + here + {} == outer + here;
    assert {} + Names(body) == Names(body);
    SeesStays(s.table, s2.table, s.curr, s1.curr, outer, here);
    assert here + {} == here;
    PassZeroBuildsBlock(s, body, r);
  }

  /** Every block's node holds all the labels the block declares. */
  predicate OwnsLabels(t: Table, ls: Lines, next: nat)
    decreases ls
  {
    match ls
    case End => true
    case Then(l, rest) =>
      match l
      case Scope(body) =>
        next < |t.nodes| && Names(body) <= t.nodes[next].table.Keys &&
        OwnsLabels(t, body, next + 1) && OwnsLabels(t, rest, next + 1 + Blocks(body))
      case _ => OwnsLabels(t, rest, next)
  }

  lemma {:induction false} OwnsExactly(t: Table, ls: Lines, seen: set<string>, next: nat)
    requires Holds(t, ls, seen, next)
    ensures OwnsLabels(t, ls, next) <==> NoShadowing(ls, seen)
    decreases ls
  {
    match ls
    case End =>
    case Then(l, rest) =>
      match l
      case Label(name) => OwnsExactly(t, rest, seen + {name}, next);
      case Scope(body) =>
        OwnsExactly(t, body, seen, next + 1);
        OwnsExactly(t, rest, seen, next + 1 + Blocks(body));
        assert Names(body) <= Names(body) - seen <==> Names(body) !! seen;
      case _ => OwnsExactly(t, rest, seen, next);
  }

  /** Pass 0 gives every label a symbol in its own block's node exactly when no block shadows. */
  lemma LabelsOwnedExactly(p: Lines)
    requires Pass0(p).Ok?
    ensures
      var t := Pass0(p).value.table;
      |t.nodes| > 1 && t.nodes[1].table.Keys == Names(p) &&
      (OwnsLabels(t, p, 2) <==> NoShadowing(p, {}))
  {
    hide Assembler.VisitLine, Assembler.VisitLines, Holds, OwnsLabels, Sees, Grown;
    NothingSeen(StartPass(Initial(), [0]));
    PassZeroOwns(StartPass(Initial(), [0]), p, Pass0(p).value);
  }

  lemma PassZeroOwns(s: Asm, p: Lines, r: Asm)
    requires WellFormed(s.table) && Sees(s.table, s.curr, {}, {}) && VisitLines(s, p, false) == Ok(r)
    ensures Named(s, r, {}, {}, Names(p)) && s.curr < |r.table.nodes| && r.table.nodes[s.curr].table.Keys == Names(p)
    ensures OwnsLabels(r.table, p, |s.table.nodes|) <==> NoShadowing(p, {})
  {
    hide Assembler.VisitLine, Assembler.VisitLines, Holds, OwnsLabels;
    var none: set<string> := {};
    PassZeroNames(s, p, none, none, r);
    assert none + none == none && none + Names(p) - none == Names(p);
    OwnsExactly(r.table, p, {}, |s.table.nodes|);
  }

  lemma NothingSeen(s: Asm)
    requires s == StartPass(Initial(), [0])
    ensures WellFormed(s.table) && Sees(s.table, s.curr, {}, {}) && |s.table.nodes| == 2
  {
  }
}
