/**
 * What the assembler prints for every program that pass 0 accepts, shadowing or not.
 *
 * A label that is visible from outside its block does not declare a new symbol: it moves the outer
 * one. So a reference means the address that was last written to its name: by pass 0 at its end,
 * or by pass 1 since.
 */
module Shadowing {
  import opened Expressions
  import opened Scopes
  import opened Assembler
  import opened Meaning
  import opened ScopeReplay
  import opened LabelAgreement
  import opened Placement
  import opened TwoPasses
  import Acceptance

  // ----- nested environments only: no tables and no stacks -----

  function SeenAfter(l: Line, seen: set<string>): set<string> {
    if l.Label? then seen + {l.name} else seen
  }

  /** The address that pass 0 writes last to each name, while `seen` are the names visible so far. */
  function Writes(ls: Lines, zero: U64, seen: set<string>): Env
    decreases ls
  {
    match ls
    case End => map[]
    case Then(l, rest) =>
      WritesOf(l, zero, seen) +
      if After(l, zero).Ok? then Writes(rest, After(l, zero).value, SeenAfter(l, seen)) else map[]
  }

  /** A block keeps to itself what it writes to names that are not visible when it opens. */
  function WritesOf(l: Line, zero: U64, seen: set<string>): Env
    decreases l
  {
    match l
    case Label(name) => map[name := zero]
    case Scope(body) =>
      var w := Writes(body, zero, seen);
      map x | x in w && x in seen :: w[x]
    case _ => map[]
  }

  /** The labels that are a block's own, with the addresses pass 0 leaves them. */
  function Own(body: Lines, zero: U64, seen: set<string>): Env {
    Writes(body, zero, seen) - seen
  }

  /** What pass 1 has printed, and the addresses that the visible names have come to. */
  datatype Progress = Progress(out: Output, env: Env)

  /** Pass 1 over a line: a label moves its name, wherever the name was declared. */
  function ReplayLine(l: Line, zero: U64, seen: set<string>, pc: U64, env: Env): Result<Progress>
    decreases l
  {
    match l
    case Label(name) => Ok(Progress(Output(pc, []), env[name := pc]))
    case Scope(body) =>
      var own := Own(body, zero, seen);
      var inner :- Replay(body, zero, seen, pc, env + own);
      Ok(Progress(inner.out, Outside(env, own, inner.env)))
    case _ =>
      var o :- DenoteLine(l, pc, env);
      Ok(Progress(o, env))
  }

  /** On leaving a block its own labels are forgotten; other names keep what the block has written to them. */
  function Outside(env: Env, own: Env, inner: Env): Env {
    env + (inner - own.Keys)
  }

  function Replay(ls: Lines, zero: U64, seen: set<string>, pc: U64, env: Env): Result<Progress>
    decreases ls
  {
    match ls
    case End => Ok(Progress(Output(pc, []), env))
    case Then(l, rest) =>
      var first :- ReplayLine(l, zero, seen, pc, env);
      var next :- After(l, zero);
      var others :- Replay(rest, next, SeenAfter(l, seen), first.out.pc, first.env);
      Ok(Progress(Output(others.out.pc, first.out.cells + others.out.cells), others.env))
  }

  /** Pass 1 starts from what pass 0 wrote last. */
  function ProgramReplay(p: Lines): Result<Progress> {
    Replay(p, 0, {}, 0, Writes(p, 0, {}))
  }

  // ----- tables -----

  /** No two entries share a symbol. */
  ghost predicate Distinct(t: Table) {
    forall m, x, k, y |
      0 <= m < |t.nodes| && 0 <= k < |t.nodes| && x in t.nodes[m].table && y in t.nodes[k].table &&
      t.nodes[m].table[x] == t.nodes[k].table[y] :: m == k && x == y
  }

  /** Entries stay where they are. */
  ghost predicate Kept(t: Table, u: Table) {
    && |t.nodes| <= |u.nodes|
    && |t.syms| <= |u.syms|
    && forall m :: 0 <= m < |t.nodes| ==>
         u.nodes[m].parent == t.nodes[m].parent &&
         forall x :: x in t.nodes[m].table ==>
           x in u.nodes[m].table && u.nodes[m].table[x] == t.nodes[m].table[x]
  }

  predicate SameSymbol(t: Table, u: Table, i: nat) {
    i < |t.syms| && i < |u.syms| && u.syms[i] == t.syms[i]
  }

  /** Only symbols of nodes from `lo` below `hi`, or that a name visible from `n` stands for, have changed. */
  ghost predicate Frame(t: Table, u: Table, n: nat, lo: nat, hi: nat) {
    && Kept(t, u)
    && forall m, x |
         0 <= m < |t.nodes| && x in t.nodes[m].table && !(lo <= m < hi) &&
         Find(t, n, x) != Some(t.nodes[m].table[x]) :: SameSymbol(t, u, t.nodes[m].table[x])
  }

  lemma {:induction false} FoundAt(t: Table, n: nat, x: string) returns (m: nat)
    requires Find(t, n, x).Some?
    ensures m <= n < |t.nodes| && x in t.nodes[m].table && t.nodes[m].table[x] == Find(t, n, x).value
  {
    if x in t.nodes[n].table {
      m := n;
    } else {
      m := FoundAt(t, t.nodes[n].parent, x);
    }
  }

  /** Different names stand for different symbols. */
  lemma NamesDiffer(t: Table, n: nat, x: string, y: string)
    requires Distinct(t) && Find(t, n, x).Some? && Find(t, n, x) == Find(t, n, y)
    ensures x == y
  {
    var m := FoundAt(t, n, x);
    var k := FoundAt(t, n, y);
  }

  /** Symbols of later nodes are not visible. */
  lemma LaterIsHidden(t: Table, n: nat, m: nat, x: string)
    requires Distinct(t) && n < m < |t.nodes| && x in t.nodes[m].table
    ensures Find(t, n, x) != Some(t.nodes[m].table[x])
  {
    if Find(t, n, x).Some? {
      var k := FoundAt(t, n, x);
    }
  }

  /** A name stands for an old symbol only if it did before. */
  lemma {:induction false} FindBack(t: Table, u: Table, n: nat, k: nat, x: string)
    requires Kept(t, u) && Distinct(u) && n < |t.nodes| && k < |t.nodes| && x in t.nodes[k].table
    requires Find(u, n, x) == Some(t.nodes[k].table[x])
    ensures Find(t, n, x) == Find(u, n, x)
  {
    if x !in u.nodes[n].table {
      FindBack(t, u, t.nodes[n].parent, k, x);
    }
  }

  lemma FrameTwice(t: Table, u: Table, v: Table, n: nat, lo: nat, mid: nat, hi: nat)
    requires lo <= mid <= hi && n < |t.nodes| && Distinct(u)
    requires Frame(t, u, n, lo, mid) && Frame(u, v, n, mid, hi)
    ensures Frame(t, v, n, lo, hi)
  {
    forall m, x | 0 <= m < |t.nodes| && x in t.nodes[m].table && !(lo <= m < hi) &&
        Find(t, n, x) != Some(t.nodes[m].table[x])
      ensures SameSymbol(t, v, t.nodes[m].table[x])
    {
      var e := t.nodes[m].table[x];
      if Find(u, n, x) == Some(e) {
        FindBack(t, u, n, m, x);
      }
      assert u.nodes[m].table[x] == e && SameSymbol(t, u, e);
    }
  }

  /** What is visible inside a block is visible outside it, or the block's own. */
  lemma FrameOutside(t: Table, u: Table, n: nat, c: nat, hi: nat)
    requires n < c < |t.nodes| && t.nodes[c].parent == n && Distinct(t) && c < hi
    requires Frame(t, u, c, c + 1, hi)
    ensures Frame(t, u, n, c, hi)
  {
    forall m, x | 0 <= m < |t.nodes| && x in t.nodes[m].table && !(c <= m < hi) &&
        Find(t, n, x) != Some(t.nodes[m].table[x])
      ensures SameSymbol(t, u, t.nodes[m].table[x])
    {
      if x in t.nodes[c].table {
        assert t.nodes[c].table[x] != t.nodes[m].table[x];
      } else {
        assert Find(t, c, x) == Find(t, n, x);
      }
      assert Find(t, c, x) != Some(t.nodes[m].table[x]);
    }
  }

  // ----- blocks whose own labels are where pass 0 left them -----

  ghost predicate OwnsAt(t: Table, c: nat, own: Env) {
    && c < |t.nodes| && t.nodes[c].table.Keys == own.Keys
    && forall x :: x in own ==> IsLabelHere(t, c, x) && t.syms[t.nodes[c].table[x]].addr == own[x]
  }

  ghost predicate Settled(t: Table, ls: Lines, zero: U64, seen: set<string>, next: nat)
    decreases ls, 0
  {
    match ls
    case End => true
    case Then(l, rest) =>
      && After(l, zero).Ok?
      && Settled(t, rest, After(l, zero).value, SeenAfter(l, seen), next + BlocksOf(l))
      && match l
         case Scope(body) => BlockSettled(t, body, zero, seen, next)
         case _ => true
  }

  /** Node `c` holds the block's own labels, and the nodes of the blocks inside it follow. */
  ghost predicate BlockSettled(t: Table, body: Lines, zero: U64, seen: set<string>, c: nat)
    decreases body, 1
  {
    && OwnsAt(t, c, Own(body, zero, seen))
    && Own(body, zero, seen).Keys == Names(body) - seen
    && Settled(t, body, zero, seen, c + 1)
  }

  lemma OwnsAtStays(t: Table, u: Table, n: nat, lo: nat, hi: nat, c: nat, own: Env)
    requires Frame(t, u, n, lo, hi) && OnlyAt(t, u, n) && Distinct(t) && OwnsAt(t, c, own)
    requires n < c && !(lo <= c < hi)
    ensures OwnsAt(u, c, own)
  {
    forall x | x in own
      ensures IsLabelHere(u, c, x) && u.syms[u.nodes[c].table[x]].addr == own[x]
    {
      LaterIsHidden(t, n, c, x);
      assert SameSymbol(t, u, t.nodes[c].table[x]);
    }
  }

  lemma {:induction false} SettledStays(t: Table, u: Table, n: nat, lo: nat, hi: nat, ls: Lines, zero: U64,
        seen: set<string>, next: nat)
    requires Frame(t, u, n, lo, hi) && OnlyAt(t, u, n) && Distinct(t) && Settled(t, ls, zero, seen, next)
    requires n < next && (next + Blocks(ls) <= lo || hi <= next)
    ensures Settled(u, ls, zero, seen, next)
    decreases ls
  {
    hide Frame, OnlyAt, Distinct, OwnsAt, Own, Meaning.After, SeenAfter, Meaning.Names;
    if ls.Then? {
      var l := ls.first;
      SettledStays(t, u, n, lo, hi, ls.rest, After(l, zero).value, SeenAfter(l, seen), next + BlocksOf(l));
      if l.Scope? {
        assert BlockSettled(t, l.body, zero, seen, next);
        OwnsAtStays(t, u, n, lo, hi, next, Own(l.body, zero, seen));
        SettledStays(t, u, n, lo, hi, l.body, zero, seen, next + 1);
        assert BlockSettled(u, l.body, zero, seen, next);
      }
    }
  }

  // ----- a label that is found -----

  /** Setting the symbol of a visible name moves that name and no other. */
  lemma FoundLabelMoves(t: Table, n: nat, name: string, pc: U64, env: Env, u: Table, lo: nat, hi: nat)
    requires WellFormed(t) && Distinct(t) && Agrees(t, n, env) && Find(t, n, name).Some?
    requires u == SetLabel(t, Find(t, n, name).value, pc)
    ensures u.nodes == t.nodes && WellFormed(u) && Distinct(u)
    ensures Frame(t, u, n, lo, hi) && Agrees(u, n, env[name := pc])
  {
    var sym := Find(t, n, name).value;
    var j := FoundAt(t, n, name);
    forall m, x | 0 <= m < |t.nodes| && x in t.nodes[m].table && Find(t, n, x) != Some(t.nodes[m].table[x])
      ensures SameSymbol(t, u, t.nodes[m].table[x])
    {
      assert IsLabelHere(t, m, x);
      assert t.nodes[j].table[name] == sym;
    }
    forall x ensures LabelAt(u, n, x) == Look(env[name := pc])(x) {
      FindStays(t, u, n, x);
      if x != name && Find(t, n, x).Some? {
        if Find(t, n, x).value == sym {
          NamesDiffer(t, n, name, x);
        }
      }
      assert LabelAt(t, n, x) == Look(env)(x);
    }
  }

  // ----- pass 0 -----

  /** Pass 0 has written `w` to the names visible from the current node, which had `base`. */
  ghost predicate Wrote(s: Asm, r: Asm, base: Env, w: Env) {
    && s.curr < |s.table.nodes|
    && Distinct(r.table)
    && Frame(s.table, r.table, s.curr, |s.table.nodes|, |r.table.nodes|)
    && Agrees(r.table, s.curr, base + w)
  }

  function Declared(t: Table, n: nat, name: string, pc: U64): Table
    requires n < |t.nodes|
  {
    SetLabel(Insert(t, n, name), |t.syms|, pc)
  }

  lemma EntriesAreSymbols(t: Table)
    requires WellFormed(t)
    ensures forall m, x | 0 <= m < |t.nodes| && x in t.nodes[m].table :: t.nodes[m].table[x] < |t.syms|
  {
    forall m, x | 0 <= m < |t.nodes| && x in t.nodes[m].table ensures t.nodes[m].table[x] < |t.syms| {
      assert IsLabelHere(t, m, x);
    }
  }

  /** A new label has a new symbol; the others keep theirs. */
  lemma DeclaredFrame(t: Table, n: nat, name: string, pc: U64, lo: nat, hi: nat)
    requires WellFormed(t) && Distinct(t) && n < |t.nodes| && name !in t.nodes[n].table
    ensures Distinct(Declared(t, n, name, pc)) && Frame(t, Declared(t, n, name, pc), n, lo, hi)
  {
    hide WellFormed, Find;
    EntriesAreSymbols(t);
  }

  lemma DeclaredAgrees(t: Table, n: nat, name: string, pc: U64, base: Env)
    requires WellFormed(t) && 1 <= n < |t.nodes| && Find(t, n, name).None? && Agrees(t, n, base)
    ensures Agrees(Declared(t, n, name, pc), n, base[name := pc])
  {
    var u := Declared(t, n, name, pc);
    EntriesAreSymbols(t);
    forall x ensures LabelAt(u, n, x) == Look(base[name := pc])(x) {
      FindStays(t, u, t.nodes[n].parent, x);
      assert LabelAt(t, n, x) == Look(base)(x);
      if x != name && Find(t, n, x).Some? {
        var m := FoundAt(t, n, x);
      }
    }
  }

  lemma LabelWrites(s: Asm, name: string, outer: set<string>, here: set<string>, base: Env, r: Asm)
    requires WellFormed(s.table) && Sees(s.table, s.curr, outer, here) && Distinct(s.table)
    requires Agrees(s.table, s.curr, base) && VisitLabel(s, name, false) == Ok(r)
    ensures Wrote(s, r, base, map[name := s.out.pc])
  {
    hide WellFormed, Distinct, Agrees, Frame;
    var n, t := s.curr, s.table;
    assert base + map[name := s.out.pc] == base[name := s.out.pc];
    if Find(t, n, name).Some? {
      FoundLabelMoves(t, n, name, s.out.pc, base, r.table, |t.nodes|, |t.nodes|);
    } else {
      assert r.table == Declared(t, n, name, s.out.pc) && |r.table.nodes| == |t.nodes|;
      DeclaredFrame(t, n, name, s.out.pc, |t.nodes|, |t.nodes|);
      DeclaredAgrees(t, n, name, s.out.pc, base);
    }
  }

  lemma SeenHaveAddresses(t: Table, n: nat, outer: set<string>, here: set<string>, base: Env)
    requires WellFormed(t) && Sees(t, n, outer, here) && Agrees(t, n, base)
    ensures base.Keys == outer + here
  {
    forall x ensures x in base <==> x in outer + here {
      assert LabelAt(t, n, x) == Look(base)(x);
      if Find(t, n, x).Some? {
        var m := FoundAt(t, n, x);
        assert IsLabelHere(t, m, x);
      }
    }
  }

  /** A fresh node sees what its parent sees. */
  lemma EnteredWrites(s: Asm, s1: Asm, outer: set<string>, here: set<string>, base: Env)
    requires WellFormed(s.table) && Sees(s.table, s.curr, outer, here) && Distinct(s.table)
    requires Agrees(s.table, s.curr, base) && EnterScope(s, false) == Ok(s1)
    ensures s1.curr == |s.table.nodes| && s1.out == s.out
    ensures Distinct(s1.table) && Agrees(s1.table, s1.curr, base)
    ensures Frame(s.table, s1.table, s.curr, |s.table.nodes|, |s.table.nodes|)
  {
    var t, u := s.table, s1.table;
    forall x ensures LabelAt(u, s1.curr, x) == Look(base)(x) {
      FindStays(t, u, s.curr, x);
      assert LabelAt(t, s.curr, x) == Look(base)(x);
    }
    forall m, x | 0 <= m < |t.nodes| && x in t.nodes[m].table ensures SameSymbol(t, u, t.nodes[m].table[x]) {
      assert IsLabelHere(t, m, x);
    }
  }

  /** Seen from outside a block it has written to the names that were visible; the rest is its own. */
  lemma BlockKeeps(t: Table, n: nat, c: nat, outer: set<string>, here: set<string>, base: Env, w: Env,
        names: set<string>)
    requires WellFormed(t) && 1 <= n < c < |t.nodes| && t.nodes[c].parent == n && Sees(t, n, outer, here)
    requires base.Keys == outer + here && Agrees(t, c, base + w)
    requires t.nodes[c].table.Keys == names - (outer + here)
    ensures
      var seen := outer + here;
      Agrees(t, n, base + map x | x in w && x in seen :: w[x]) && OwnsAt(t, c, w - seen) &&
      (w - seen).Keys == names - seen
  {
    var seen := outer + here;
    forall x ensures LabelAt(t, n, x) == Look(base + map x | x in w && x in seen :: w[x])(x) {
      assert LabelAt(t, c, x) == Look(base + w)(x);
    }
    forall x ensures x in w - seen <==> x in t.nodes[c].table {
      assert LabelAt(t, c, x) == Look(base + w)(x);
      if x in t.nodes[c].table {
        assert IsLabelHere(t, c, x);
      }
    }
    forall x | x in w - seen ensures IsLabelHere(t, c, x) && t.syms[t.nodes[c].table[x]].addr == (w - seen)[x] {
      assert LabelAt(t, c, x) == Look(base + w)(x);
      assert IsLabelHere(t, c, x);
    }
  }

  lemma WritesThen(l: Line, rest: Lines, zero: U64, after: U64, seen: set<string>)
    requires After(l, zero) == Ok(after)
    ensures Writes(Then(l, rest), zero, seen) == WritesOf(l, zero, seen) + Writes(rest, after, SeenAfter(l, seen))
  {
  }

  lemma SettledThen(t: Table, l: Line, rest: Lines, zero: U64, after: U64, seen: set<string>, next: nat)
    requires After(l, zero) == Ok(after)
    requires Settled(t, rest, after, SeenAfter(l, seen), next + BlocksOf(l))
    requires l.Scope? ==> BlockSettled(t, l.body, zero, seen, next)
    ensures Settled(t, Then(l, rest), zero, seen, next)
  {
  }

  /** Pass 0 leaves every block's own labels where the layout with all names zero wrote them last. */
  lemma {:induction false} PassZeroSettles(s: Asm, ls: Lines, outer: set<string>, here: set<string>, base: Env, r: Asm)
    requires WellFormed(s.table) && Sees(s.table, s.curr, outer, here) && Distinct(s.table)
    requires Agrees(s.table, s.curr, base) && VisitLines(s, ls, false) == Ok(r)
    ensures Wrote(s, r, base, Writes(ls, s.out.pc, outer + here))
    ensures Settled(r.table, ls, s.out.pc, outer + here, |s.table.nodes|)
    decreases ls, 0
  {
    hide Assembler.VisitLine, Assembler.VisitLines, Meaning.After, WellFormed, Sees, Distinct, Agrees, Frame, OnlyAt;
    hide Meaning.Names, Writes, WritesOf, Settled, BlockSettled, ScopeReplay.Fits, Grown, Holds;
    var pc, seen := s.out.pc, outer + here;
    if ls.End? {
      NoLinesAreVisited(s, false);
      NothingWritten(s, outer, here, base);
      NothingSettled(s.table, pc, seen, |s.table.nodes|);
    } else {
      var l, rest := ls.first, ls.rest;
      LinesAreVisited(s, l, rest, false);
      var m := VisitLine(s, l, false).value;
      var names := if l.Label? then {l.name} else {};
      LineNames(s, l, outer, here, m);
      LineCounts(s, l, outer, here, m);
      PassZeroLineLayout(s, l, m);
      LineSettles(s, l, outer, here, base, m);
      assert outer + (here + names) == SeenAfter(l, seen);
      PassZeroSettles(m, rest, outer, here + names, base + WritesOf(l, pc, seen), r);
      PassZeroNames(m, rest, outer, here + names, r);
      WritesThen(l, rest, pc, m.out.pc, seen);
      WroteTwice(s, m, r, base, WritesOf(l, pc, seen), Writes(rest, m.out.pc, SeenAfter(l, seen)));
      if l.Scope? {
        BlockStaysSettled(s, m, r, l.body, pc, seen);
      }
      SettledThen(r.table, l, rest, pc, m.out.pc, seen, |s.table.nodes|);
    }
  }

  lemma NothingSettled(t: Table, zero: U64, seen: set<string>, next: nat)
    ensures Writes(End, zero, seen) == map[] && Settled(t, End, zero, seen, next)
  {
  }

  lemma WroteTwice(s: Asm, m: Asm, r: Asm, base: Env, w: Env, others: Env)
    requires m.curr == s.curr && Wrote(s, m, base, w) && Wrote(m, r, base + w, others)
    ensures Wrote(s, r, base, w + others)
  {
    hide Distinct, Agrees;
    assert base + w + others == base + (w + others);
    FrameTwice(s.table, m.table, r.table, s.curr, |s.table.nodes|, |m.table.nodes|, |r.table.nodes|);
  }

  lemma BlockStaysSettled(s: Asm, m: Asm, r: Asm, body: Lines, zero: U64, seen: set<string>)
    requires s.curr < |s.table.nodes| && |m.table.nodes| == |s.table.nodes| + 1 + Blocks(body)
    requires Distinct(m.table) && OnlyAt(m.table, r.table, s.curr) && m.curr == s.curr
    requires Frame(m.table, r.table, m.curr, |m.table.nodes|, |r.table.nodes|)
    requires BlockSettled(m.table, body, zero, seen, |s.table.nodes|)
    ensures BlockSettled(r.table, body, zero, seen, |s.table.nodes|)
  {
    hide Frame, OnlyAt, Distinct, OwnsAt, Own, Settled;
    var lo, hi, c := |m.table.nodes|, |r.table.nodes|, |s.table.nodes|;
    OwnsAtStays(m.table, r.table, s.curr, lo, hi, c, Own(body, zero, seen));
    SettledStays(m.table, r.table, s.curr, lo, hi, body, zero, seen, c + 1);
  }

  lemma NothingWritten(s: Asm, outer: set<string>, here: set<string>, base: Env)
    requires WellFormed(s.table) && Sees(s.table, s.curr, outer, here) && Distinct(s.table)
    requires Agrees(s.table, s.curr, base)
    ensures Wrote(s, s, base, map[])
  {
    assert base + map[] == base;
    forall m, x | 0 <= m < |s.table.nodes| && x in s.table.nodes[m].table
      ensures SameSymbol(s.table, s.table, s.table.nodes[m].table[x])
    {
      assert IsLabelHere(s.table, m, x);
    }
  }

  lemma {:induction false} LineSettles(s: Asm, l: Line, outer: set<string>, here: set<string>, base: Env, r: Asm)
    requires WellFormed(s.table) && Sees(s.table, s.curr, outer, here) && Distinct(s.table)
    requires Agrees(s.table, s.curr, base) && VisitLine(s, l, false) == Ok(r)
    ensures Wrote(s, r, base, WritesOf(l, s.out.pc, outer + here))
    ensures l.Scope? ==> BlockSettled(r.table, l.body, s.out.pc, outer + here, |s.table.nodes|)
    decreases l
  {
    hide WellFormed, Sees, Distinct, Agrees, Wrote, BlockSettled;
    match l
    case Label(name) => LabelWrites(s, name, outer, here, base, r);
    case Scope(body) => BlockSettles(s, body, outer, here, base, r);
    case _ =>
      assert r.table == s.table && r.curr == s.curr;
      NothingWritten(s, outer, here, base);
      WroteTable(s, r, base);
  }

  lemma WroteTable(s: Asm, r: Asm, base: Env)
    requires Wrote(s, s, base, map[]) && r.table == s.table
    ensures Wrote(s, r, base, map[])
  {
  }

  lemma {:induction false} BlockSettles(s: Asm, body: Lines, outer: set<string>, here: set<string>, base: Env, r: Asm)
    requires WellFormed(s.table) && Sees(s.table, s.curr, outer, here) && Distinct(s.table)
    requires Agrees(s.table, s.curr, base) && VisitLine(s, Scope(body), false) == Ok(r)
    ensures Wrote(s, r, base, WritesOf(Scope(body), s.out.pc, outer + here))
    ensures BlockSettled(r.table, body, s.out.pc, outer + here, |s.table.nodes|)
    decreases body, 1
  {
    hide Assembler.VisitLine, Assembler.VisitLines, Assembler.EnterScope, Assembler.LeaveScope;
    hide WellFormed, Sees, Distinct, Agrees, Frame, OnlyAt, OwnsAt, Settled, Holds;
    var seen := outer + here;
    BlockIsVisited(s, body, false);
    var s1 := EnterScope(s, false).value;
    var s2 := VisitLines(s1, body, false).value;
    EnteredSees(s, s1, outer, here);
    EnteredWrites(s, s1, outer, here, base);
    assert seen + {} == seen;
    PassZeroSettles(s1, body, seen, {}, base, s2);
    BlockNames(s, body, outer, here, r);
    SeenHaveAddresses(s.table, s.curr, outer, here, base);
    BlockLeft(s, s1, s2, body, outer, here, base, Writes(body, s.out.pc, seen), r);
  }

  lemma FrameLeaves(t: Table, u: Table, v: Table, n: nat, c: nat, hi: nat)
    requires n < c == |t.nodes| && |u.nodes| == c + 1 <= hi && u.nodes[c].parent == n && Distinct(u)
    requires Frame(t, u, n, c, c) && Frame(u, v, c, c + 1, hi)
    ensures Frame(t, v, n, c, hi) && c < |v.nodes| && v.nodes[c].parent == n
  {
    hide Distinct;
    FrameOutside(u, v, n, c, hi);
    FrameTwice(t, u, v, n, c, c, hi);
  }

  lemma BlockLeft(s: Asm, s1: Asm, s2: Asm, body: Lines, outer: set<string>, here: set<string>, base: Env, w: Env,
        r: Asm)
    requires WellFormed(s.table) && Sees(s.table, s.curr, outer, here) && EnterScope(s, false) == Ok(s1)
    requires LeaveScope(s2, false) == Ok(r) && Named(s, r, outer, here, {})
    requires |s.table.nodes| < |r.table.nodes|
    requires r.table.nodes[|s.table.nodes|].table.Keys == Names(body) - (outer + here)
    requires Frame(s.table, s1.table, s.curr, |s.table.nodes|, |s.table.nodes|) && Distinct(s1.table)
    requires Wrote(s1, s2, base, w) && base.Keys == outer + here
    ensures
      var seen := outer + here;
      r.table == s2.table && Wrote(s, r, base, map x | x in w && x in seen :: w[x]) &&
      OwnsAt(r.table, |s.table.nodes|, w - seen) && (w - seen).Keys == Names(body) - seen
  {
    hide WellFormed, Distinct, Agrees, Frame, OwnsAt;
    var n, c := s.curr, |s.table.nodes|;
    assert here + {} == here;
    FrameLeaves(s.table, s1.table, s2.table, n, c, |s2.table.nodes|);
    BlockKeeps(r.table, n, c, outer, here, base, w, Names(body));
  }

  // ----- pass 1 -----

  /** Pass 1 got what the replay says: the same bytes and the same addresses of names, or the same stop. */
  ghost predicate Replays(s: Asm, v: Result<Asm>, d: Result<Progress>, lo: nat, hi: nat) {
    match d
    case Err(e) => v == Err(e)
    case Ok(g) =>
      && v.Ok?
      && v.value.out == Output(g.out.pc, s.out.cells + g.out.cells)
      && v.value.table.nodes == s.table.nodes
      && WellFormed(v.value.table)
      && Frame(s.table, v.value.table, s.curr, lo, hi)
      && Agrees(v.value.table, s.curr, g.env)
  }

  lemma UnchangedReplays(s: Asm, v: Result<Asm>, o: Result<Output>, env: Env, next: nat)
    requires WellFormed(s.table) && Agrees(s.table, s.curr, env) && Means(s, v, o)
    ensures Replays(s, v, if o.Ok? then Ok(Progress(o.value, env)) else Err(o.error), next, next)
  {
    EntriesAreSymbols(s.table);
  }

  /** Entering a block, its own labels are where pass 0 left them. */
  lemma AgreesEntered(t: Table, n: nat, c: nat, env: Env, own: Env)
    requires Agrees(t, n, env) && n < c && OwnsAt(t, c, own) && t.nodes[c].parent == n
    ensures Agrees(t, c, env + own)
  {
    forall x ensures LabelAt(t, c, x) == Look(env + own)(x) {
      assert LabelAt(t, n, x) == Look(env)(x);
    }
  }

  lemma HiddenStays(t: Table, u: Table, n: nat, c: nat, hi: nat, x: string)
    requires Distinct(t) && 1 <= n < c < |t.nodes| && x in t.nodes[c].table && Find(t, n, x).Some?
    requires Frame(t, u, c, c + 1, hi)
    ensures SameSymbol(t, u, Find(t, n, x).value)
  {
    var m := FoundAt(t, n, x);
    assert t.nodes[c].table[x] != t.nodes[m].table[x];
    assert Find(t, c, x) == Some(t.nodes[c].table[x]);
    assert Find(t, c, x) != Some(t.nodes[m].table[x]);
  }

  /** Leaving a block, the names it does not hide have moved with it and the hidden ones have not moved. */
  lemma AgreesLeft(t: Table, u: Table, n: nat, c: nat, hi: nat, env: Env, own: Env, inner: Env)
    requires WellFormed(t) && WellFormed(u) && Distinct(t) && u.nodes == t.nodes && Agrees(t, n, env)
    requires 1 <= n < c && OwnsAt(t, c, own) && t.nodes[c].parent == n
    requires Frame(t, u, c, c + 1, hi) && Agrees(u, c, inner)
    ensures Agrees(u, n, env + (inner - own.Keys))
  {
    forall x ensures LabelAt(u, n, x) == Look(env + (inner - own.Keys))(x) {
      FindStays(t, u, n, x);
      assert LabelAt(t, n, x) == Look(env)(x);
      assert LabelAt(u, c, x) == Look(inner)(x);
      if Find(t, n, x).Some? {
        var m := FoundAt(t, n, x);
        assert IsLabelHere(t, m, x) && IsLabelHere(u, m, x);
        if x in own {
          HiddenStays(t, u, n, c, hi, x);
        }
      }
    }
  }

  lemma {:induction false} PassOneReplays(s: Asm, ls: Lines, above: seq<nat>, k: nat, next: nat, zero: U64,
        seen: set<string>, env: Env)
    requires 1 <= s.curr < next && Stands(s, above, k) && Fits(s.table, s.curr, ls, k, next)
    requires WellFormed(s.table) && Distinct(s.table) && Settled(s.table, ls, zero, seen, next)
    requires Agrees(s.table, s.curr, env) && seen + Names(ls) <= env.Keys
    ensures Replays(s, VisitLines(s, ls, true), Replay(ls, zero, seen, s.out.pc, env), next, next + Blocks(ls))
    decreases ls, 0
  {
    hide Assembler.VisitLine, Assembler.VisitLines, Meaning.After, WellFormed, Distinct, Agrees, Frame;
    hide Settled, BlockSettled, ScopeReplay.Fits, SameTree, Replay, ReplayLine, Replays;
    if ls.End? {
      NothingReplays(s, zero, seen, env, next);
    } else {
      var l, rest := ls.first, ls.rest;
      var v, d := VisitLine(s, l, true), ReplayLine(l, zero, seen, s.out.pc, env);
      SettledGives(s.table, l, rest, zero, seen, next);
      LineReplays(s, l, rest, above, k, next, zero, seen, env);
      PassOneFollowsLine(s, l, rest, above, k, next);
      if d.Ok? {
        var after, next1 := After(l, zero).value, next + BlocksOf(l);
        LineGives(s, v, d, next, next1);
        RestIsReady(s, v.value, rest, NextBlock(l, k), next, next1, after, SeenAfter(l, seen));
        ReplayKeepsNames(l, zero, seen, s.out.pc, env);
        PassOneReplays(v.value, rest, above, NextBlock(l, k), next1, after, SeenAfter(l, seen), d.value.env);
        ThenReplays(s, l, rest, zero, after, seen, env, next, next1, next1 + Blocks(rest));
      } else {
        StopReplays(s, l, rest, zero, seen, env, next, next + BlocksOf(l), next + BlocksOf(l) + Blocks(rest));
      }
    }
  }

  lemma NothingReplays(s: Asm, zero: U64, seen: set<string>, env: Env, next: nat)
    requires WellFormed(s.table) && Agrees(s.table, s.curr, env)
    ensures Replays(s, VisitLines(s, End, true), Replay(End, zero, seen, s.out.pc, env), next, next)
  {
    hide WellFormed, Agrees, Replays, Frame;
    UnchangedReplays(s, Ok(s), Ok(Output(s.out.pc, [])), env, next);
  }

  lemma SettledGives(t: Table, l: Line, rest: Lines, zero: U64, seen: set<string>, next: nat)
    requires Settled(t, Then(l, rest), zero, seen, next)
    ensures After(l, zero).Ok? && Settled(t, rest, After(l, zero).value, SeenAfter(l, seen), next + BlocksOf(l))
    ensures l.Scope? ==> BlockSettled(t, l.body, zero, seen, next)
  {
  }

  lemma LineGives(s: Asm, v: Result<Asm>, d: Result<Progress>, lo: nat, hi: nat)
    requires Replays(s, v, d, lo, hi) && d.Ok?
    ensures v.Ok? && v.value.out.pc == d.value.out.pc && v.value.table.nodes == s.table.nodes
    ensures WellFormed(v.value.table) && Frame(s.table, v.value.table, s.curr, lo, hi)
    ensures Agrees(v.value.table, s.curr, d.value.env)
  {
  }

  /** The lines that follow find everything as pass 0 left it. */
  lemma RestIsReady(s: Asm, m: Asm, rest: Lines, k: nat, lo: nat, hi: nat, zero: U64, seen: set<string>)
    requires s.curr < |s.table.nodes| && s.curr < hi && m.table.nodes == s.table.nodes && Distinct(s.table)
    requires Frame(s.table, m.table, s.curr, lo, hi) && Settled(s.table, rest, zero, seen, hi)
    requires Fits(s.table, s.curr, rest, k, hi)
    ensures Distinct(m.table) && Settled(m.table, rest, zero, seen, hi) && Fits(m.table, s.curr, rest, k, hi)
  {
    hide Frame, Settled, ScopeReplay.Fits;
    SettledStays(s.table, m.table, s.curr, lo, hi, rest, zero, seen, hi);
    SameTreeFits(s.table, m.table, s.curr, rest, k, hi);
  }

  lemma ReplayKeepsNames(l: Line, zero: U64, seen: set<string>, pc: U64, env: Env)
    requires ReplayLine(l, zero, seen, pc, env).Ok?
    ensures env.Keys + (if l.Label? then {l.name} else {}) <= ReplayLine(l, zero, seen, pc, env).value.env.Keys
  {
    hide Replay, Own, Meaning.DenoteLine;
  }

  lemma ThenReplays(s: Asm, l: Line, rest: Lines, zero: U64, after: U64, seen: set<string>, env: Env,
        lo: nat, mid: nat, hi: nat)
    requires lo <= mid <= hi && s.curr < |s.table.nodes| && After(l, zero) == Ok(after)
    requires VisitLine(s, l, true).Ok? && ReplayLine(l, zero, seen, s.out.pc, env).Ok?
    requires
      var m, g := VisitLine(s, l, true).value, ReplayLine(l, zero, seen, s.out.pc, env).value;
      m.curr == s.curr && m.out.pc == g.out.pc && Distinct(m.table) &&
      Replays(s, Ok(m), Ok(g), lo, mid) &&
      Replays(m, VisitLines(m, rest, true), Replay(rest, after, SeenAfter(l, seen), g.out.pc, g.env), mid, hi)
    ensures Replays(s, VisitLines(s, Then(l, rest), true), Replay(Then(l, rest), zero, seen, s.out.pc, env), lo, hi)
  {
    hide Assembler.VisitLine, Assembler.VisitLines, Meaning.After, WellFormed, Distinct, Agrees, Frame, ReplayLine;
    LinesAreVisited(s, l, rest, true);
    var m, g := VisitLine(s, l, true).value, ReplayLine(l, zero, seen, s.out.pc, env).value;
    if Replay(rest, after, SeenAfter(l, seen), g.out.pc, g.env).Ok? {
      FrameTwice(s.table, m.table, VisitLines(m, rest, true).value.table, s.curr, lo, mid, hi);
    }
  }

  lemma StopReplays(s: Asm, l: Line, rest: Lines, zero: U64, seen: set<string>, env: Env, lo: nat, mid: nat, hi: nat)
    requires ReplayLine(l, zero, seen, s.out.pc, env).Err?
    requires Replays(s, VisitLine(s, l, true), ReplayLine(l, zero, seen, s.out.pc, env), lo, mid)
    ensures Replays(s, VisitLines(s, Then(l, rest), true), Replay(Then(l, rest), zero, seen, s.out.pc, env), lo, hi)
  {
    hide Assembler.VisitLine, Assembler.VisitLines, ReplayLine;
    LinesAreVisited(s, l, rest, true);
  }

  lemma {:induction false} LineReplays(s: Asm, l: Line, rest: Lines, above: seq<nat>, k: nat, next: nat, zero: U64,
        seen: set<string>, env: Env)
    requires 1 <= s.curr < next && Stands(s, above, k) && Fits(s.table, s.curr, Then(l, rest), k, next)
    requires WellFormed(s.table) && Distinct(s.table) && (l.Scope? ==> BlockSettled(s.table, l.body, zero, seen, next))
    requires Agrees(s.table, s.curr, env) && seen + Names(Then(l, rest)) <= env.Keys
    ensures Replays(s, VisitLine(s, l, true), ReplayLine(l, zero, seen, s.out.pc, env), next, next + BlocksOf(l))
    decreases l
  {
    hide Assembler.VisitLines, Assembler.VisitLabel, WellFormed, Distinct, Agrees, Frame, Settled, BlockSettled, Replay;
    hide Own, Replays;
    if l.Scope? {
      BlockReplays(s, l.body, above, k, next, zero, seen, env);
    } else if l.Label? {
      LabelReplays(s, l.name, env, next);
    } else {
      PlainReplays(s, l, zero, seen, env, next);
    }
  }

  lemma PlainReplays(s: Asm, l: Line, zero: U64, seen: set<string>, env: Env, next: nat)
    requires !l.Scope? && !l.Label? && WellFormed(s.table) && Agrees(s.table, s.curr, env)
    ensures Replays(s, VisitLine(s, l, true), ReplayLine(l, zero, seen, s.out.pc, env), next, next)
  {
    hide Assembler.VisitLine, Meaning.DenoteLine, WellFormed, Agrees, Means, Replays;
    PlainMeans(s, l, env);
    UnchangedReplays(s, VisitLine(s, l, true), DenoteLine(l, s.out.pc, env), env, next);
  }

  lemma LabelReplays(s: Asm, name: string, env: Env, next: nat)
    requires s.curr < |s.table.nodes| && WellFormed(s.table) && Distinct(s.table)
    requires Agrees(s.table, s.curr, env) && name in env
    ensures Replays(s, VisitLabel(s, name, true), Ok(Progress(Output(s.out.pc, []), env[name := s.out.pc])), next, next)
  {
    hide WellFormed, Distinct, Frame;
    assert LabelAt(s.table, s.curr, name) == Look(env)(name);
    var u := SetLabel(s.table, Find(s.table, s.curr, name).value, s.out.pc);
    FoundLabelMoves(s.table, s.curr, name, s.out.pc, env, u, next, next);
  }

  lemma {:induction false} BlockReplays(s: Asm, body: Lines, above: seq<nat>, k: nat, next: nat, zero: U64,
        seen: set<string>, env: Env)
    requires 1 <= s.curr < next && Stands(s, above, k) && IsBlock(s.table, s.curr, k, next)
    requires Fits(s.table, next, body, 0, next + 1) && BlockSettled(s.table, body, zero, seen, next)
    requires WellFormed(s.table) && Distinct(s.table) && Agrees(s.table, s.curr, env) && seen <= env.Keys
    ensures
      Replays(s, VisitLine(s, Scope(body), true), ReplayLine(Scope(body), zero, seen, s.out.pc, env), next,
        next + 1 + Blocks(body))
    decreases body, 1
  {
    hide Assembler.VisitLine, Assembler.VisitLines, WellFormed, Distinct, Agrees, Frame, Settled, ScopeReplay.Fits;
    hide Replay, Own, Replays;
    BlockIsVisited(s, body, true);
    var s1, own := EnterScope(s, true).value, Own(body, zero, seen);
    assert s1.table == s.table && s1.out == s.out && Stands(s1, above + [k], 0);
    AgreesEntered(s.table, s.curr, next, env, own);
    assert seen + Names(body) <= (env + own).Keys;
    PassOneReplays(s1, body, above + [k], 0, next + 1, zero, seen, env + own);
    PassOneFollows(s1, body, above + [k], 0, next + 1);
    BlockReturns(s, s1, body, zero, seen, env, next, next + 1 + Blocks(body));
  }

  lemma BlockReturns(s: Asm, s1: Asm, body: Lines, zero: U64, seen: set<string>, env: Env, c: nat, hi: nat)
    requires 1 <= s.curr < c < hi && c < |s.table.nodes| && s.table.nodes[c].parent == s.curr
    requires WellFormed(s.table) && Distinct(s.table) && Agrees(s.table, s.curr, env)
    requires OwnsAt(s.table, c, Own(body, zero, seen))
    requires EnterScope(s, true) == Ok(s1) && s1.curr == c && s1.table == s.table && s1.out == s.out
    requires
      var d := Replay(body, zero, seen, s.out.pc, env + Own(body, zero, seen));
      Replays(s1, VisitLines(s1, body, true), d, c + 1, hi)
    requires VisitLines(s1, body, true).Ok? ==>
      var s2 := VisitLines(s1, body, true).value; s2.curr == c && |s2.childNums| > 0
    ensures Replays(s, VisitLine(s, Scope(body), true), ReplayLine(Scope(body), zero, seen, s.out.pc, env), c, hi)
  {
    hide Assembler.VisitLine, Assembler.VisitLines, WellFormed, Distinct, Agrees, Frame, OwnsAt, Replay, Own;
    BlockIsVisited(s, body, true);
    var own := Own(body, zero, seen);
    var d := Replay(body, zero, seen, s.out.pc, env + own);
    if d.Ok? {
      var u := VisitLines(s1, body, true).value.table;
      FrameOutside(s.table, u, s.curr, c, hi);
      AgreesLeft(s.table, u, s.curr, c, hi, env, own, d.value.env);
    }
  }

  // ----- both passes -----

  lemma RootReplays(s: Asm, p: Lines, s0: Asm, s1: Asm)
    requires WellFormed(s.table) && Sees(s.table, s.curr, {}, {}) && Distinct(s.table) && Agrees(s.table, s.curr, map[])
    requires VisitLines(s, p, false) == Ok(s0) && s.curr == 1 < |s.table.nodes|
    requires s.table.nodes[1].children == [] && s.childNums == [0]
    requires s1 == Asm(s0.table, s.curr, s0.childNums, s.out, [])
    ensures Agrees(s0.table, 1, Writes(p, s.out.pc, {}))
    ensures Replays(s1, VisitLines(s1, p, true), Replay(p, s.out.pc, {}, s.out.pc, Writes(p, s.out.pc, {})),
              |s.table.nodes|, |s.table.nodes| + Blocks(p))
  {
    hide Assembler.VisitLine, Assembler.VisitLines, WellFormed, Distinct, Agrees, Sees, Frame, Settled, Replay, Writes;
    hide Holds, ScopeReplay.Fits, Replays;
    var none: set<string>, w := {}, Writes(p, s.out.pc, {});
    assert none + none == none && map[] + w == w;
    PassZeroSettles(s, p, none, none, map[], s0);
    PassZeroNames(s, p, none, none, s0);
    PassZeroBuilds(s, p, s0);
    assert none + Names(p) == Names(p);
    SeenHaveAddresses(s0.table, 1, none, Names(p), w);
    assert s0.childNums == [] + [0];
    PassOneReplays(s1, p, [], 0, |s.table.nodes|, s.out.pc, {}, w);
  }

  lemma EmptyTable(s: Asm)
    requires s == StartPass(Initial(), [0])
    ensures Distinct(s.table) && Agrees(s.table, s.curr, map[])
  {
  }

  /** After pass 0 every name that is visible from the top block has the address that was written to it last. */
  lemma PassZeroWrites(p: Lines)
    requires Pass0(p).Ok?
    ensures Agrees(Pass0(p).value.table, 1, Writes(p, 0, {}))
  {
    hide Assembler.VisitLine, Assembler.VisitLines, WellFormed, Distinct, Agrees, Sees, Replay, Writes, Replays;
    var s := StartPass(Initial(), [0]);
    NothingSeen(s);
    EmptyTable(s);
    RootReplays(s, p, Pass0(p).value, StartPass(Pass0(p).value.table, Pass0(p).value.childNums));
  }

  /**
   * For every program that pass 0 accepts, pass 1 prints exactly the bytes of the replay and leaves the
   * names of the top block at its addresses, or stops for the same reason.
   */
  lemma AssembleReplays(p: Lines)
    requires Pass0(p).Ok?
    ensures ProgramReplay(p).Err? ==> Assemble(p) == Err(ProgramReplay(p).error)
    ensures ProgramReplay(p).Ok? ==>
      Assemble(p).Ok? && Assemble(p).value.out == ProgramReplay(p).value.out &&
      Agrees(Assemble(p).value.table, 1, ProgramReplay(p).value.env)
  {
    hide Assembler.VisitLine, Assembler.VisitLines, WellFormed, Distinct, Agrees, Sees, Frame, Replay, Writes;
    var s, s0 := StartPass(Initial(), [0]), Pass0(p).value;
    NothingSeen(s);
    EmptyTable(s);
    RootReplays(s, p, s0, StartPass(s0.table, s0.childNums));
  }

  /** Which programs assemble: those that pass 0 accepts and whose replay never stops. */
  lemma AssemblesExactly(p: Lines)
    ensures Assemble(p).Ok? <==> Acceptance.Acceptable(p, 0, {}, {}) && ProgramReplay(p).Ok?
  {
    hide Assembler.VisitLines, Acceptance.Acceptable, Replay, Writes, Agrees;
    Acceptance.AcceptsExactly(p);
    if Pass0(p).Ok? {
      AssembleReplays(p);
    }
  }
}
