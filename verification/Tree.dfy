// The nodes of an AST and their number.

module Tree {
  import opened Ast

  function Size(n: Node): nat
    decreases n, 1
  {
    1 + SizeAll(n.args) + SizeAll(n.children)
  }

  function SizeAll(ns: seq<Node>): nat
    decreases ns, 0
  {
    if ns == [] then 0 else Size(ns[0]) + SizeAll(ns[1..])
  }

  /** A node and everything under it. */
  function Nodes(n: Node): set<Node>
    decreases n, 1
  {
    {n} + NodesAll(n.args) + NodesAll(n.children)
  }

  function NodesAll(ns: seq<Node>): set<Node>
    decreases ns, 0
  {
    if ns == [] then {} else Nodes(ns[0]) + NodesAll(ns[1..])
  }

  lemma {:induction false} NodesOfElement(ns: seq<Node>, i: nat)
    requires i < |ns|
    ensures Nodes(ns[i]) <= NodesAll(ns)
  {
    if i > 0 { NodesOfElement(ns[1..], i - 1); }
  }

  lemma {:induction false} NodesAllElement(ns: seq<Node>, d: Node) returns (i: nat)
    requires d in NodesAll(ns)
    ensures i < |ns| && d in Nodes(ns[i])
  {
    if d in Nodes(ns[0]) { i := 0; } else { i := NodesAllElement(ns[1..], d); i := i + 1; }
  }

  /** The nodes of a tree are closed under taking arguments and children. */
  lemma {:induction false} NodesClosed(n: Node, d: Node)
    requires d in Nodes(n)
    ensures Nodes(d) <= Nodes(n)
    decreases n, 1
  {
    if d in NodesAll(n.args) { NodesAllClosed(n.args, d); }
    if d in NodesAll(n.children) { NodesAllClosed(n.children, d); }
  }

  lemma {:induction false} NodesAllClosed(ns: seq<Node>, d: Node)
    requires d in NodesAll(ns)
    ensures Nodes(d) <= NodesAll(ns)
    decreases ns, 0
  {
    if d in Nodes(ns[0]) { NodesClosed(ns[0], d); } else { NodesAllClosed(ns[1..], d); }
  }

  lemma {:induction false} SizeOfElement(ns: seq<Node>, i: nat)
    requires i < |ns|
    ensures Size(ns[i]) <= SizeAll(ns)
  {
    if i > 0 { SizeOfElement(ns[1..], i - 1); }
  }

  lemma {:induction false} SizeOfTwo(ns: seq<Node>, i: nat, j: nat)
    requires i < |ns| && j < |ns| && i != j
    ensures Size(ns[i]) + Size(ns[j]) <= SizeAll(ns)
  {
    if i == 0 { SizeOfElement(ns[1..], j - 1); }
    else if j == 0 { SizeOfElement(ns[1..], i - 1); }
    else { SizeOfTwo(ns[1..], i - 1, j - 1); }
  }

  lemma {:induction false} SizeWithin(n: Node, d: Node)
    requires d in Nodes(n)
    ensures Size(d) <= Size(n)
    decreases n, 1
  {
    if d in NodesAll(n.args) {
      var i := NodesAllElement(n.args, d);
      SizeWithin(n.args[i], d);
      SizeOfElement(n.args, i);
    } else if d in NodesAll(n.children) {
      var i := NodesAllElement(n.children, d);
      SizeWithin(n.children[i], d);
      SizeOfElement(n.children, i);
    }
  }
}
