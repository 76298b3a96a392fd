/** Pass 1 walks exactly the scope tree that pass 0 built, for every program. */
module ScopeReplay {
  import opened Expressions
  import opened Scopes
  import opened Assembler

  /** All the blocks of a program, nested ones included. */
  function Blocks(ls: Lines): nat {
    match ls
    case End => 0
    case Then(l, rest) => BlocksOf(l) + Blocks(rest)
  }

  function BlocksOf(l: Line): nat {
    match l
    case Scope(body) => 1 + Blocks(body)
    case _ => 0
  }

  /** The blocks that are lines of this list itself. */
  function DirectBlocks(ls: Lines): nat {
    match ls
    case End => 0
    case Then(l, rest) => (if l.Scope? then 1 else 0) + DirectBlocks(rest)
  }

  /** `n` consecutive numbers. */
  function From(first: nat, n: nat): seq<nat> {
    seq(n, k => first + k)
  }

  lemma FromOne(first: nat)
    ensures From(first, 1) == [first]
  {
  }

  lemma FromSplits(first: nat, a: nat, b: nat)
    ensures From(first, a + b) == From(first, a) + From(first + a, b)
  {
  }

  /** Block number k of node n is node `next`, and blocks are numbered in the order they open. */
  predicate Fits(t: Table, n: nat, ls: Lines, k: nat, next: nat)
    requires n < |t.nodes|
    decreases ls
  {
    match ls
    case End => true
    case Then(l, rest) =>
      match l
      case Scope(body) =>
        IsBlock(t, n, k, next) && Fits(t, next, body, 0, next + 1) && Fits(t, n, rest, k + 1, next + 1 + Blocks(body))
      case _ => Fits(t, n, rest, k, next)
  }

  /** Node `c` is child number k of node n. */
  predicate IsBlock(t: Table, n: nat, k: nat, c: nat)
    requires n < |t.nodes|
  {
    c < |t.nodes| && k < |t.nodes[n].children| && t.nodes[n].children[k] == c && t.nodes[c].parent == n
  }

  /** Nodes keep their parents and their first children. */
  ghost predicate Extends(t: Table, u: Table) {
    && |t.nodes| <= |u.nodes|
    && forall m :: 0 <= m < |t.nodes| ==>
         u.nodes[m].parent == t.nodes[m].parent && t.nodes[m].children <= u.nodes[m].children
  }

  lemma BlockStays(t: Table, u: Table, n: nat, k: nat, c: nat)
    requires n < |t.nodes| && Extends(t, u) && IsBlock(t, n, k, c)
    ensures n < |u.nodes| && IsBlock(u, n, k, c)
  {
  }

  lemma {:induction false} FitsStays(t: Table, u: Table, n: nat, ls: Lines, k: nat, next: nat)
    requires n < |t.nodes| && Extends(t, u) && Fits(t, n, ls, k, next)
    ensures n < |u.nodes| && Fits(u, n, ls, k, next)
    decreases ls
  {
    NodeStays(t, u, n);
    hide Extends, IsBlock;
    if ls.Then? {
      var l := ls.first;
      if l.Scope? {
        assert IsBlock(t, n, k, next);
        BlockStays(t, u, n, k, next);
        BlockIsNode(t, n, k, next);
        FitsStays(t, u, next, l.body, 0, next + 1);
        FitsStays(t, u, n, ls.rest, k + 1, next + 1 + Blocks(l.body));
      } else {
        FitsStays(t, u, n, ls.rest, k, next);
      }
    }
  }

  lemma BlockIsNode(t: Table, n: nat, k: nat, c: nat)
    requires n < |t.nodes| && IsBlock(t, n, k, c)
    ensures c < |t.nodes|
  {
  }

  lemma NodeStays(t: Table, u: Table, n: nat)
    requires n < |t.nodes| && Extends(t, u)
    ensures n < |u.nodes|
  {
  }

  // ----- lines that are not blocks -----

  lemma ApplyIsNotAboutScopes(op: BinOp, l: S64, r: S64, pass: bool)
    ensures Apply(op, l, r, pass) != Err(NoSuchScope)
  {
  }

  lemma {:induction false} NamesAreNotScopes(e: Expr, pass: bool, pc: U64, look: Lookup)
    ensures Eval(e, pass, pc, look) != Err(NoSuchScope)
  {
    hide Expressions.Apply;
    match e
    case Binary(op, l, r) =>
      NamesAreNotScopes(l, pass, pc, look);
      NamesAreNotScopes(r, pass, pc, look);
      var x, y := Eval(l, pass, pc, look), Eval(r, pass, pc, look);
      if x.Ok? && y.Ok? {
        ApplyIsNotAboutScopes(op, x.value, y.value, pass);
      }
    case Unary(op, e) =>
      NamesAreNotScopes(e, pass, pc, look);
    case _ =>
  }

  ghost predicate SameTree(t: Table, u: Table) {
    && |t.nodes| == |u.nodes|
    && forall m :: 0 <= m < |t.nodes| ==>
         u.nodes[m].parent == t.nodes[m].parent && u.nodes[m].children == t.nodes[m].children
  }

  /** Lines other than blocks leave the tree and the scope stacks alone. */
  lemma PlainLineKeepsTree(s: Asm, l: Line, pass: bool)
    requires s.curr < |s.table.nodes| && !l.Scope?
    ensures VisitLine(s, l, pass) != Err(NoSuchScope)
    ensures VisitLine(s, l, pass).Ok? ==>
      var r := VisitLine(s, l, pass).value;
      SameTree(s.table, r.table) && r.curr == s.curr && r.childNums == s.childNums && r.entered == s.entered
  {
    match l
    case Blank =>
    case Label(name) =>
    case Code(i) => NamesAreNotScopes(Operand(i), pass, s.out.pc, LookupIn(s.table, s.curr));
    case Org(e) => NamesAreNotScopes(e, pass, s.out.pc, LookupIn(s.table, s.curr));
    case Space(e) => NamesAreNotScopes(e, pass, s.out.pc, LookupIn(s.table, s.curr));
    case Data(w, e) => NamesAreNotScopes(e, pass, s.out.pc, LookupIn(s.table, s.curr));
  }

  /** Visiting a block is entering it, visiting its lines, and leaving it. */
  lemma BlockIsVisited(s: Asm, body: Lines, pass: bool)
    ensures VisitLine(s, Scope(body), pass) ==
      (if EnterScope(s, pass).Err? then EnterScope(s, pass)
       else
         var v := VisitLines(EnterScope(s, pass).value, body, pass);
         if v.Err? then v else LeaveScope(v.value, pass))
  {
  }

  lemma LinesAreVisited(s: Asm, l: Line, rest: Lines, pass: bool)
    ensures VisitLines(s, Then(l, rest), pass) ==
      (if VisitLine(s, l, pass).Err? then VisitLine(s, l, pass)
       else VisitLines(VisitLine(s, l, pass).value, rest, pass))
  {
    hide Assembler.VisitLine;
  }

  lemma NoLinesAreVisited(s: Asm, pass: bool)
    ensures VisitLines(s, End, pass) == Ok(s)
  {
  }

  // ----- pass 0 -----

  /** What visiting `ls` in pass 0 does to the tree. */
  ghost predicate Grown(s: Asm, r: Asm, blocks: nat, direct: nat)
    requires s.curr < |s.table.nodes|
  {
    && r.curr == s.curr && r.childNums == s.childNums
    && Extends(s.table, r.table)
    && |r.table.nodes| == |s.table.nodes| + blocks
    && |r.table.nodes[s.curr].children| == |s.table.nodes[s.curr].children| + direct
    && (forall m :: 0 <= m < |s.table.nodes| && m != s.curr ==>
          r.table.nodes[m].children == s.table.nodes[m].children)
    && r.entered == s.entered + From(|s.table.nodes|, blocks)
  }

  lemma GrownTwice(s: Asm, m: Asm, r: Asm, blocks: nat, direct: nat, more: nat, others: nat)
    requires s.curr < |s.table.nodes| && Grown(s, m, blocks, direct) && Grown(m, r, more, others)
    ensures Grown(s, r, blocks + more, direct + others)
  {
    FromSplits(|s.table.nodes|, blocks, more);
  }

  lemma {:induction false} PassZeroBuilds(s: Asm, ls: Lines, r: Asm)
    requires s.curr < |s.table.nodes| && VisitLines(s, ls, false) == Ok(r)
    ensures Grown(s, r, Blocks(ls), DirectBlocks(ls))
    ensures Fits(r.table, s.curr, ls, |s.table.nodes[s.curr].children|, |s.table.nodes|)
    decreases ls, 0
  {
    hide Assembler.VisitLine, Assembler.VisitLines, Extends, From, Grown, Opened;
    match ls
    case End =>
      NoLinesAreVisited(s, false);
      GrownNowhere(s);
    case Then(l, rest) =>
      LinesAreVisited(s, l, rest, false);
      var m := VisitLine(s, l, false).value;
      PassZeroBuildsLine(s, l, m);
      GrownGives(s, m, BlocksOf(l), if l.Scope? then 1 else 0);
      PassZeroBuilds(m, rest, r);
      GrownTwice(s, m, r, BlocksOf(l), if l.Scope? then 1 else 0, Blocks(rest), DirectBlocks(rest));
      if l.Scope? {
        OpenedStays(s, m, r, l.body, Blocks(rest), DirectBlocks(rest));
      }
  }

  lemma GrownGives(s: Asm, r: Asm, blocks: nat, direct: nat)
    requires s.curr < |s.table.nodes| && Grown(s, r, blocks, direct)
    ensures r.curr == s.curr < |r.table.nodes| == |s.table.nodes| + blocks
    ensures |r.table.nodes[s.curr].children| == |s.table.nodes[s.curr].children| + direct
  {
  }

  lemma GrownNowhere(s: Asm)
    requires s.curr < |s.table.nodes|
    ensures Grown(s, s, 0, 0)
  {
  }

  lemma OpenedStays(s: Asm, m: Asm, r: Asm, body: Lines, more: nat, others: nat)
    requires s.curr < |s.table.nodes| && s.curr == m.curr < |m.table.nodes|
    requires Opened(s, m, body) && Grown(m, r, more, others)
    ensures
      var n, k := |s.table.nodes|, |s.table.nodes[s.curr].children|;
      n < |r.table.nodes| && s.curr < |r.table.nodes| && k < |r.table.nodes[s.curr].children| &&
      r.table.nodes[s.curr].children[k] == n && r.table.nodes[n].parent == s.curr && Fits(r.table, n, body, 0, n + 1)
  {
    FitsStays(m.table, r.table, |s.table.nodes|, body, 0, |s.table.nodes| + 1);
  }

  lemma {:induction false} PassZeroBuildsLine(s: Asm, l: Line, r: Asm)
    requires s.curr < |s.table.nodes| && VisitLine(s, l, false) == Ok(r)
    ensures Grown(s, r, BlocksOf(l), if l.Scope? then 1 else 0)
    ensures l.Scope? ==> Opened(s, r, l.body)
    decreases l
  {
    if l.Scope? {
      PassZeroBuildsBlock(s, l.body, r);
    } else {
      PlainLineKeepsTree(s, l, false);
    }
  }

  /** The block just visited has become the last child of the current node. */
  predicate Opened(s: Asm, r: Asm, body: Lines)
    requires s.curr < |s.table.nodes|
  {
    hide Assembler.VisitLine, Assembler.VisitLines;
    var n := |s.table.nodes|;
    && |r.table.nodes| > n && r.table.nodes[n].parent == s.curr
    && r.table.nodes[s.curr].children == s.table.nodes[s.curr].children + [n]
    && Fits(r.table, n, body, 0, n + 1)
  }

  lemma {:induction false} PassZeroBuildsBlock(s: Asm, body: Lines, r: Asm)
    requires s.curr < |s.table.nodes| && VisitLine(s, Scope(body), false) == Ok(r)
    ensures Grown(s, r, 1 + Blocks(body), 1)
    ensures Opened(s, r, body)
    decreases body, 1
  {
    hide Assembler.VisitLine, Assembler.VisitLines, Assembler.EnterScope, Assembler.LeaveScope, Grown, Opened, Fits;
    BlockIsVisited(s, body, false);
    var s1 := EnterScope(s, false).value;
    var s2 := VisitLines(s1, body, false).value;
    EnteredBlock(s, s1);
    PassZeroBuilds(s1, body, s2);
    BlockGrows(s, s1, s2, body, r, DirectBlocks(body));
  }

  lemma EnteredBlock(s: Asm, s1: Asm)
    requires s.curr < |s.table.nodes| && EnterScope(s, false) == Ok(s1)
    ensures s1.curr == |s.table.nodes| && |s1.table.nodes| == |s.table.nodes| + 1
    ensures s1.table.nodes[s1.curr].children == []
  {
  }

  lemma BlockGrows(s: Asm, s1: Asm, s2: Asm, body: Lines, r: Asm, direct: nat)
    requires s.curr < |s.table.nodes| && EnterScope(s, false) == Ok(s1)
    requires Grown(s1, s2, Blocks(body), direct) && Fits(s2.table, s1.curr, body, 0, |s1.table.nodes|)
    requires LeaveScope(s2, false) == Ok(r)
    ensures Grown(s, r, 1 + Blocks(body), 1) && Opened(s, r, body)
  {
    hide Fits;
    FromSplits(|s.table.nodes|, 1, Blocks(body));
    assert s2.table.nodes[s.curr].children == s1.table.nodes[s.curr].children;
  }

  // ----- pass 1 -----

  /** Pass 1 stands in a node of the tree, at its block number `k`. */
  predicate Stands(s: Asm, above: seq<nat>, k: nat) {
    s.curr < |s.table.nodes| && s.childNums == above + [k]
  }

  /** What visiting `ls` in pass 1 does to the scope stacks. */
  ghost predicate Walked(s: Asm, r: Asm, above: seq<nat>, k: nat, next: nat, blocks: nat) {
    r.curr == s.curr && Stands(r, above, k) && SameTree(s.table, r.table) &&
    r.entered == s.entered + From(next, blocks)
  }

  lemma WalkedTwice(s: Asm, m: Asm, r: Asm, above: seq<nat>, k: nat, j: nat, next: nat, blocks: nat, more: nat)
    requires Walked(s, m, above, k, next, blocks) && Walked(m, r, above, j, next + blocks, more)
    ensures Walked(s, r, above, j, next, blocks + more)
  {
    FromSplits(next, blocks, more);
  }

  lemma {:induction false} PassOneFollows(s: Asm, ls: Lines, above: seq<nat>, k: nat, next: nat)
    requires Stands(s, above, k) && Fits(s.table, s.curr, ls, k, next)
    ensures VisitLines(s, ls, true) != Err(NoSuchScope)
    ensures VisitLines(s, ls, true).Ok? ==>
      Walked(s, VisitLines(s, ls, true).value, above, k + DirectBlocks(ls), next, Blocks(ls))
    decreases ls, 0
  {
    hide Assembler.VisitLine, Assembler.VisitLines, SameTree, Extends, From, Walked, Fits;
    if ls.End? {
      NoLinesAreVisited(s, true);
      WalkedNowhere(s, above, k, next);
    } else {
      var l, rest := ls.first, ls.rest;
      LinesAreVisited(s, l, rest, true);
      PassOneFollowsLine(s, l, rest, above, k, next);
      var v := VisitLine(s, l, true);
      if v.Ok? {
        var m, j, after := v.value, NextBlock(l, k), next + BlocksOf(l);
        WalkedGives(s, m, above, j, next, BlocksOf(l));
        SameTreeFits(s.table, m.table, s.curr, rest, j, after);
        PassOneFollows(m, rest, above, j, after);
        if VisitLines(m, rest, true).Ok? {
          WalkedTwice(s, m, VisitLines(m, rest, true).value, above, j, j + DirectBlocks(rest), next,
            BlocksOf(l), Blocks(rest));
        }
      }
    }
  }

  lemma WalkedGives(s: Asm, m: Asm, above: seq<nat>, k: nat, next: nat, blocks: nat)
    requires Walked(s, m, above, k, next, blocks)
    ensures m.curr == s.curr && Stands(m, above, k) && SameTree(s.table, m.table)
  {
  }

  lemma WalkedNowhere(s: Asm, above: seq<nat>, k: nat, next: nat)
    requires Stands(s, above, k)
    ensures Walked(s, s, above, k, next, 0)
  {
  }

  lemma SameTreeFits(t: Table, u: Table, n: nat, ls: Lines, k: nat, next: nat)
    requires n < |t.nodes| && SameTree(t, u) && Fits(t, n, ls, k, next)
    ensures n < |u.nodes| && Fits(u, n, ls, k, next)
  {
    FitsStays(t, u, n, ls, k, next);
  }

  function NextBlock(l: Line, k: nat): nat {
    if l.Scope? then k + 1 else k
  }

  lemma {:induction false} PassOneFollowsLine(s: Asm, l: Line, rest: Lines, above: seq<nat>, k: nat, next: nat)
    requires Stands(s, above, k) && Fits(s.table, s.curr, Then(l, rest), k, next)
    ensures Fits(s.table, s.curr, rest, NextBlock(l, k), next + BlocksOf(l))
    ensures VisitLine(s, l, true) != Err(NoSuchScope)
    ensures VisitLine(s, l, true).Ok? ==>
      Walked(s, VisitLine(s, l, true).value, above, NextBlock(l, k), next, BlocksOf(l))
    decreases l
  {
    if l.Scope? {
      PassOneFollowsBlock(s, l.body, above, k, next);
    } else {
      PlainLineKeepsTree(s, l, true);
    }
  }

  lemma {:induction false} PassOneFollowsBlock(s: Asm, body: Lines, above: seq<nat>, k: nat, next: nat)
    requires Stands(s, above, k) && next < |s.table.nodes|
    requires k < |s.table.nodes[s.curr].children| && s.table.nodes[s.curr].children[k] == next
    requires s.table.nodes[next].parent == s.curr && Fits(s.table, next, body, 0, next + 1)
    ensures VisitLine(s, Scope(body), true) != Err(NoSuchScope)
    ensures VisitLine(s, Scope(body), true).Ok? ==>
      Walked(s, VisitLine(s, Scope(body), true).value, above, k + 1, next, 1 + Blocks(body))
    decreases body, 1
  {
    hide Assembler.VisitLine, Assembler.VisitLines, Grown, Extends, Fits;
    var s1 := EnterScope(s, true).value;
    BlockIsVisited(s, body, true);
    PassOneFollows(s1, body, above + [k], 0, next + 1);
    var v := VisitLines(s1, body, true);
    if v.Ok? {
      BlockWalks(s, s1, v.value, above, k, DirectBlocks(body), next, Blocks(body));
    }
  }

  lemma BlockWalks(s: Asm, s1: Asm, s2: Asm, above: seq<nat>, k: nat, j: nat, next: nat, blocks: nat)
    requires Stands(s, above, k) && next < |s.table.nodes|
    requires k < |s.table.nodes[s.curr].children| && s.table.nodes[s.curr].children[k] == next
    requires s.table.nodes[next].parent == s.curr
    requires EnterScope(s, true) == Ok(s1) && Walked(s1, s2, above + [k], j, next + 1, blocks)
    ensures LeaveScope(s2, true).Ok? && Walked(s, LeaveScope(s2, true).value, above, k + 1, next, 1 + blocks)
  {
    hide From, Fits;
    FromOne(next);
    FromSplits(next, 1, blocks);
    assert s2.childNums[..|s2.childNums| - 1] == above + [k];
    assert (above + [k])[|above| := k + 1] == above + [k + 1];
  }

  /** Pass 1 from where pass 0 left off. */
  lemma PassOneAfterPassZero(s: Asm, p: Lines, s0: Asm, s1: Asm)
    requires s.curr < |s.table.nodes| && Stands(s, [], |s.table.nodes[s.curr].children|)
    requires VisitLines(s, p, false) == Ok(s0)
    requires s1.table == s0.table && s1.childNums == s0.childNums && s1.curr == s.curr
    requires s.entered == s1.entered == []
    ensures s0.entered == From(|s.table.nodes|, Blocks(p))
    ensures VisitLines(s1, p, true) != Err(NoSuchScope)
    ensures VisitLines(s1, p, true).Ok? ==>
      var k := |s.table.nodes[s.curr].children| + DirectBlocks(p);
      Walked(s1, VisitLines(s1, p, true).value, [], k, |s.table.nodes|, Blocks(p))
  {
    hide Assembler.VisitLine, Assembler.VisitLines, Walked, Fits;
    PassZeroBuilds(s, p, s0);
    PassOneFollows(s1, p, [], |s.table.nodes[s.curr].children|, |s.table.nodes|);
  }

  /**
   * For every program that pass 0 accepts, pass 1 never runs past a node's children, enters
   * the same nodes in the same order, and leaves the stack of child numbers one deep.
   */
  lemma ScopesReplay(p: Lines)
    requires Pass0(p).Ok?
    ensures Assemble(p) != Err(NoSuchScope)
    ensures Assemble(p).Ok? ==>
      var s0, s1 := Pass0(p).value, Assemble(p).value;
      s0.entered == From(2, Blocks(p)) && s1.entered == s0.entered &&
      s1.curr == 1 && s1.childNums == [DirectBlocks(p)]
  {
    var s, s0 := StartPass(Initial(), [0]), Pass0(p).value;
    assert s.childNums == [] + [0];
    PassOneAfterPassZero(s, p, s0, StartPass(s0.table, s0.childNums));
  }
}
