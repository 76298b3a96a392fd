/** The scoped symbol table as an object whose node and symbol pools are changed in place. */
module ScopedTables {
  import opened Expressions
  import opened Scopes

  class ScopedTable {
    var nodes: seq<Node>
    var syms: seq<Symbol>

    function Contents(): Table
      reads this
    {
      Table(nodes, syms)
    }

    /** The nodes form a tree in which parents come first, and every child knows its parent. */
    predicate Valid()
      reads this
    {
      && |nodes| > 1
      && (forall m :: 0 <= m < |nodes| ==> nodes[m].parent <= m && (m > 0 ==> nodes[m].parent < m))
      && (forall m, k :: 0 <= m < |nodes| && 0 <= k < |nodes[m].children| ==> IsChild(m, nodes[m].children[k]))
    }

    predicate IsChild(m: nat, c: nat)
      reads this
    {
      m < c < |nodes| && nodes[c].parent == m
    }

    /** The root, and one scope in it. */
    constructor ()
      ensures Valid() && Contents() == Initial()
    {
      nodes := [Node(0, [1], map[]), Node(0, [], map[])];
      syms := [];
    }

    method MkScope(curr: nat) returns (child: nat)
      requires Valid() && curr < |nodes|
      modifies this`nodes
      ensures Valid() && Contents() == Scopes.MkScope(old(Contents()), curr)
      ensures child == old(|nodes|) < |nodes|
    {
      child := |nodes|;
      var n := nodes[curr];
      nodes := nodes[curr := n.(children := n.children + [child])] + [Node(curr, [], map[])];
    }

    method RmScope(curr: nat) returns (up: nat)
      requires Valid() && 0 < curr < |nodes|
      ensures up == nodes[curr].parent < |nodes|
    {
      up := nodes[curr].parent;
    }

    /** Outward along the parents until the root, which holds nothing. */
    method Find(curr: nat, name: string) returns (sym: Option<nat>)
      requires Valid() && curr < |nodes|
      ensures sym == Scopes.Find(Contents(), curr, name)
    {
      var p := curr;
      while p != 0
        invariant 0 <= p < |nodes|
        invariant Scopes.Find(Contents(), curr, name) == Scopes.Find(Contents(), p, name)
      {
        if name in nodes[p].table {
          return Some(nodes[p].table[name]);
        }
        p := nodes[p].parent;
      }
      return None;
    }

    method FindInThisBlockLevel(curr: nat, name: string) returns (sym: Option<nat>)
      requires Valid() && curr < |nodes|
      ensures sym.Some? <==> name in nodes[curr].table
      ensures sym.Some? ==> sym.value == nodes[curr].table[name]
    {
      if name in nodes[curr].table {
        return Some(nodes[curr].table[name]);
      }
      return None;
    }

    /** A symbol found from `curr` outward, or a new one in `curr` itself. */
    method FindOrInsert(curr: nat, name: string) returns (sym: nat)
      requires Valid() && 0 < curr < |nodes|
      modifies this
      ensures Valid() && (Contents(), sym) == Scopes.FindOrInsert(old(Contents()), curr, name)
    {
      var found := Find(curr, name);
      if found.Some? {
        return found.value;
      }
      var n := nodes[curr];
      nodes := nodes[curr := n.(table := n.table[name := |syms|])];
      syms := syms + [Symbol(name, 0, false)];
      var again := Find(curr, name);
      sym := again.value;
    }

    method SetLabel(sym: nat, addr: U64)
      requires Valid()
      modifies this`syms
      ensures Contents() == Scopes.SetLabel(old(Contents()), sym, addr)
    {
      if sym < |syms| {
        syms := syms[sym := syms[sym].(found := true, addr := addr)];
      }
    }
  }
}
