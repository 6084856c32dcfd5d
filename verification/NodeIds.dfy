// Node identity: identifiers are the positions of the highlightable nodes in pre-order
// (src/compiler.cpp:360-364, 386-389).

module NodeIds {
  import opened Ast
  import opened Tree
  import opened Parser
  import opened Compiler
  import opened Options

  /** The highlightable nodes in pre-order, arguments before children. */
  function PreOrder(n: Node): seq<Node>
    decreases n, 1
  {
    (if Highlightable(n.kind) then [n] else []) + PreOrderAll(n.args) + PreOrderAll(n.children)
  }

  function PreOrderAll(ns: seq<Node>): seq<Node>
    decreases ns, 0
  {
    if ns == [] then [] else PreOrder(ns[0]) + PreOrderAll(ns[1..])
  }

  /** The same tree without the identifiers of its highlightable nodes. Those of the other
      nodes are as they were. */
  function Unnumbered(n: Node): Node
    decreases n, 1
  {
    n.(id := if Highlightable(n.kind) then 0 else n.id, args := UnnumberedAll(n.args), children := UnnumberedAll(n.children))
  }

  function UnnumberedAll(ns: seq<Node>): (r: seq<Node>)
    ensures |r| == |ns|
    decreases ns, 0
  {
    if ns == [] then [] else [Unnumbered(ns[0])] + UnnumberedAll(ns[1..])
  }

  /** The nodes are numbered one after the other from `k` on. */
  predicate Consecutive(ns: seq<Node>, k: nat) {
    forall i :: 0 <= i < |ns| ==> ns[i].id == k + i
  }

  lemma ConsecutiveJoins(ns: seq<Node>, ms: seq<Node>, k: nat)
    requires Consecutive(ns, k) && Consecutive(ms, k + |ns|)
    ensures Consecutive(ns + ms, k)
  {
  }

  /** Numbering gives the highlightable nodes the identifiers from `next` on, in pre-order,
      and changes nothing else. */
  lemma {:induction false} NumberIsPreOrder(n: Node, next: nat)
    ensures var (r, k) := Number(n, next);
            && Consecutive(PreOrder(r), next) && k == next + |PreOrder(r)|
            && Unnumbered(r) == Unnumbered(n)
            && |r.args| == |n.args| && |r.children| == |n.children|
    decreases n, 1
  {
    hide Highlightable;
    var start := if Highlightable(n.kind) then next + 1 else next;
    var (args, k) := NumberAll(n.args, start);
    NumberAllIsPreOrder(n.args, start);
    NumberAllIsPreOrder(n.children, k);
    var r := Number(n, next).0;
    var head := if Highlightable(n.kind) then [r] else [];
    ConsecutiveJoins(head, PreOrderAll(r.args), next);
    ConsecutiveJoins(head + PreOrderAll(r.args), PreOrderAll(r.children), next);
  }

  lemma {:induction false} NumberAllIsPreOrder(ns: seq<Node>, next: nat)
    ensures var (rs, k) := NumberAll(ns, next);
            && Consecutive(PreOrderAll(rs), next) && k == next + |PreOrderAll(rs)|
            && UnnumberedAll(rs) == UnnumberedAll(ns) && |rs| == |ns|
    decreases ns, 0
  {
    if ns != [] {
      var (first, k) := Number(ns[0], next);
      var (rest, k') := NumberAll(ns[1..], k);
      NumberIsPreOrder(ns[0], next);
      NumberAllIsPreOrder(ns[1..], k);
      ConsecutiveJoins(PreOrder(first), PreOrderAll(rest), next);
      assert ([first] + rest)[1..] == rest;
    }
  }

  lemma {:induction false} InPreOrder(n: Node, d: Node)
    requires d in Nodes(n) && Highlightable(d.kind)
    ensures d in PreOrder(n)
    decreases n, 1
  {
    hide Highlightable;
    if d in NodesAll(n.args) { InPreOrderAll(n.args, d); }
    else if d in NodesAll(n.children) { InPreOrderAll(n.children, d); }
  }

  lemma {:induction false} InPreOrderAll(ns: seq<Node>, d: Node)
    requires d in NodesAll(ns) && Highlightable(d.kind)
    ensures d in PreOrderAll(ns)
    decreases ns, 0
  {
    hide Highlightable;
    if d in Nodes(ns[0]) { InPreOrder(ns[0], d); } else { InPreOrderAll(ns[1..], d); }
  }

  /** Two highlightable nodes of a numbered tree with the same identifier are the same node. */
  lemma {:induction false} IdsAreUnique(n: Node, d: Node, e: Node)
    requires d in Nodes(Number(n, 0).0) && Highlightable(d.kind)
    requires e in Nodes(Number(n, 0).0) && Highlightable(e.kind)
    ensures d.id == e.id <==> d == e
    ensures d.id < |PreOrder(Number(n, 0).0)| && PreOrder(Number(n, 0).0)[d.id] == d
  {
    hide Number, Nodes, Highlightable;
    var r := Number(n, 0).0;
    NumberIsPreOrder(n, 0);
    InPreOrder(r, d);
    InPreOrder(r, e);
    var i :| 0 <= i < |PreOrder(r)| && PreOrder(r)[i] == d;
    var j :| 0 <= j < |PreOrder(r)| && PreOrder(r)[j] == e;
  }

  // ---- the other nodes -----------------------------------------------------------------------------

  /** Nodes that are not highlightable have identifier 0. */
  predicate QuietAreZero(n: Node)
    decreases n, 1
  {
    (!Highlightable(n.kind) ==> n.id == 0) && AllQuietAreZero(n.args) && AllQuietAreZero(n.children)
  }

  predicate AllQuietAreZero(ns: seq<Node>)
    decreases ns, 0
  {
    ns == [] || (QuietAreZero(ns[0]) && AllQuietAreZero(ns[1..]))
  }

  lemma {:induction false} QuietUnnumbered(n: Node)
    ensures QuietAreZero(Unnumbered(n)) <==> QuietAreZero(n)
    decreases n, 1
  {
    hide Highlightable;
    AllQuietUnnumbered(n.args);
    AllQuietUnnumbered(n.children);
  }

  lemma {:induction false} AllQuietUnnumbered(ns: seq<Node>)
    ensures AllQuietAreZero(UnnumberedAll(ns)) <==> AllQuietAreZero(ns)
    decreases ns, 0
  {
    hide Unnumbered, QuietAreZero;
    if ns != [] {
      QuietUnnumbered(ns[0]);
      AllQuietUnnumbered(ns[1..]);
      assert UnnumberedAll(ns)[1..] == UnnumberedAll(ns[1..]);
    }
  }

  lemma {:induction false} QuietNodes(n: Node, d: Node)
    requires QuietAreZero(n) && d in Nodes(n) && !Highlightable(d.kind)
    ensures d.id == 0
    decreases n, 1
  {
    hide Highlightable;
    if d in NodesAll(n.args) { AllQuietNodes(n.args, d); }
    else if d in NodesAll(n.children) { AllQuietNodes(n.children, d); }
  }

  lemma {:induction false} AllQuietNodes(ns: seq<Node>, d: Node)
    requires AllQuietAreZero(ns) && d in NodesAll(ns) && !Highlightable(d.kind)
    ensures d.id == 0
    decreases ns, 0
  {
    hide Highlightable;
    if d in Nodes(ns[0]) { QuietNodes(ns[0], d); } else { AllQuietNodes(ns[1..], d); }
  }

  lemma {:induction false} AllQuietJoin(ns: seq<Node>, ms: seq<Node>)
    requires AllQuietAreZero(ns) && AllQuietAreZero(ms)
    ensures AllQuietAreZero(ns + ms)
  {
    hide QuietAreZero;
    if ns == [] {
      assert ns + ms == ms;
    } else {
      AllQuietJoin(ns[1..], ms);
      assert (ns + ms)[0] == ns[0] && (ns + ms)[1..] == ns[1..] + ms;
    }
  }

  /** Compiling an expression gives no node an identifier other than 0. */
  lemma {:induction false} CompiledQuiet(raw: Raw, arity: Arity, top: bool)
    ensures var r := CompileExpr(raw, arity, top); r.node.Some? ==> QuietAreZero(r.node.value)
    decreases raw, 2, 0
  {
    hide Analyze, CompileRange, Highlightable;
    if !raw.List? {
      AtomQuiet(raw);
    } else if IsForm(raw) && Analyze(raw, arity, top).Accept? {
      CompileForms(raw, arity, top);
      var f := Analyze(raw, arity, top);
      RangeQuiet(raw, f.a, f.b, arity);
      RangeQuiet(raw, f.c, |raw.list|, arity);
    }
  }

  lemma AtomQuiet(raw: Raw)
    requires !raw.List?
    ensures QuietAreZero(CompileAtom(raw))
  {
  }

  lemma {:induction false} RangeQuiet(raw: Raw, i: nat, j: nat, arity: Arity)
    requires raw.List? && i <= j <= |raw.list|
    ensures AllQuietAreZero(CompileRange(raw, i, j, arity).nodes)
    decreases raw, 1, j - i
  {
    hide *;
    if i == j {
      RangeEnds(raw, j, arity);
      NoQuiet();
    } else {
      CompiledQuiet(raw.list[i], arity, false);
      RangeQuiet(raw, i + 1, j, arity);
      RangeStep(raw, i, j, arity, [], []);
      var first, rest := CompileExpr(raw.list[i], arity, false), CompileRange(raw, i + 1, j, arity).nodes;
      assert [] + CompileRange(raw, i, j, arity).nodes == CompileRange(raw, i, j, arity).nodes;
      if first.node.Some? {
        OneQuiet(first.node.value);
        AllQuietJoin([first.node.value], rest);
        assert [] + [first.node.value] == [first.node.value];
      } else {
        assert [] + rest == rest;
      }
    }
  }

  lemma NoQuiet()
    ensures AllQuietAreZero([])
  {
  }

  lemma OneQuiet(n: Node)
    requires QuietAreZero(n)
    ensures AllQuietAreZero([n])
  {
    hide QuietAreZero;
    assert [n][1..] == [];
  }

  lemma {:induction false} TopsQuiet(tops: seq<Raw>, arity: Arity)
    ensures AllQuietAreZero(CompileTops(tops, arity).nodes)
  {
    hide CompileExpr, QuietAreZero;
    if tops != [] {
      var first, rest := CompileExpr(tops[0], arity, true), CompileTops(tops[1..], arity);
      CompiledQuiet(tops[0], arity, true);
      TopsQuiet(tops[1..], arity);
      if first.node.Some? { AllQuietJoin([first.node.value], rest.nodes); } else { assert [] + rest.nodes == rest.nodes; }
    }
  }

  /** In every compiled tree, with diagnostics or without, the nodes that are not highlightable
      keep identifier 0. */
  lemma {:induction false} CompiledIdsOfOthers(p: Program, root: Node, d: Node)
    requires CompileProgram(p).root == Some(root) && d in Nodes(root) && !Highlightable(d.kind)
    ensures d.id == 0
  {
    hide Number, Nodes, Highlightable, CompileTops, QuietAreZero, CollectUpTo;
    var tops := TopsOf(p.exprs);
    var arity := CollectUpTo(tops, |tops|).arity;
    var nodes := CompileTops(tops, arity).nodes;
    var raw := RootOf(p.exprs, nodes).value;
    TopsQuiet(tops, arity);
    RootQuiet(p.exprs, nodes);
    NumberIsPreOrder(raw, 0);
    QuietUnnumbered(raw);
    QuietUnnumbered(root);
    QuietNodes(root, d);
  }

  lemma RootQuiet(exprs: seq<Raw>, nodes: seq<Node>)
    requires exprs != [] && AllQuietAreZero(nodes) && RootOf(exprs, nodes).Some?
    ensures QuietAreZero(RootOf(exprs, nodes).value)
  {
    hide IsSingleDo;
  }
}
