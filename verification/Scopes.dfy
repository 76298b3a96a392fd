/**
 * The scoped symbol table. Nodes and symbols live in two pools and refer to
 * each other by index; node 0 is the root, which holds no symbols of its own.
 */
module Scopes {
  import opened Expressions

  datatype Node = Node(parent: nat, children: seq<nat>, table: map<string, nat>)

  datatype Symbol = Symbol(name: string, addr: U64, found: bool)

  datatype Table = Table(nodes: seq<Node>, syms: seq<Symbol>)

  function Initial(): Table {
    Table([Node(0, [1], map[]), Node(0, [], map[])], [])
  }

  /** A new child of `curr`, at the end of the pool. */
  function MkScope(t: Table, curr: nat): Table
    requires curr < |t.nodes|
  {
    var n := t.nodes[curr];
    t.(nodes := t.nodes[curr := n.(children := n.children + [|t.nodes|])] + [Node(curr, [], map[])])
  }

  /** The symbol a name stands for, searching outward from `n`. Parents always come before their children. */
  function Find(t: Table, n: nat, name: string): Option<nat>
    decreases n
  {
    if n == 0 || n >= |t.nodes| then None
    else if name in t.nodes[n].table then Some(t.nodes[n].table[name])
    else if t.nodes[n].parent < n then Find(t, t.nodes[n].parent, name)
    else None
  }

  function Insert(t: Table, n: nat, name: string): Table
    requires n < |t.nodes|
  {
    var node := t.nodes[n];
    Table(t.nodes[n := node.(table := node.table[name := |t.syms|])], t.syms + [Symbol(name, 0, false)])
  }

  /** The table after `find_or_insert`, and the symbol it returns. */
  function FindOrInsert(t: Table, n: nat, name: string): (Table, nat)
    requires n < |t.nodes|
  {
    var f := Find(t, n, name);
    if f.Some? then (t, f.value) else (Insert(t, n, name), |t.syms|)
  }

  function SetLabel(t: Table, s: nat, addr: U64): Table {
    if s < |t.syms| then t.(syms := t.syms[s := t.syms[s].(found := true, addr := addr)]) else t
  }

  /** The address of the label that a name stands for in scope `n`. */
  function LabelAt(t: Table, n: nat, name: string): Option<U64> {
    var f := Find(t, n, name);
    if f.Some? && f.value < |t.syms| && t.syms[f.value].found then Some(t.syms[f.value].addr) else None
  }

  function LookupIn(t: Table, n: nat): Lookup {
    name => LabelAt(t, n, name)
  }

  /** A duplicate in the same block: only this block's own table is consulted. */
  predicate IsLabelHere(t: Table, n: nat, name: string)
    requires n < |t.nodes|
  {
    name in t.nodes[n].table && t.nodes[n].table[name] < |t.syms| && t.syms[t.nodes[n].table[name]].found
  }
}
