// The code of a program: all nodes that running it can reach
// (src/engine.cpp:351-356).

module Programs {
  import opened Ast
  import opened Tree
  import opened Semantics

  /** The program's nodes, closed under sub-expressions and function bodies. */
  ghost predicate Closed(w: World, code: set<Node>) {
    && (forall n, i :: n in code && 0 <= i < |n.args| ==> n.args[i] in code)
    && (forall n, i :: n in code && 0 <= i < |n.children| ==> n.children[i] in code)
    && forall f :: f in w.fns ==> w.fns[f] in code
  }

  lemma MembersOf(w: World, code: set<Node>, n: Node, child: Node)
    requires Closed(w, code) && n in code && (child in n.args || child in n.children)
    ensures child in code
  {
  }

  lemma FunctionsAreCode(w: World, code: set<Node>)
    requires Closed(w, code)
    ensures forall f :: f in w.fns ==> w.fns[f] in code
  {
  }

  /** The functions of a program are its root or children of its root. */
  lemma {:induction false} FunctionsFrom(root: Node, i: nat, name: string)
    requires i <= |root.children| && name in FunctionsUpTo(root, i)
    ensures var fn := FunctionsUpTo(root, i)[name];
            fn.kind == DefineFunc && fn.op == name && (fn == root || exists j :: 0 <= j < i && fn == root.children[j])
  {
    if i > 0 {
      var c := root.children[i - 1];
      if !(c.kind == DefineFunc && c.op == name) { FunctionsFrom(root, i - 1, name); }
    }
  }

  ghost function Index(root: Node, fn: Node): nat
    requires fn in root.children
    ensures Index(root, fn) < |root.children| && root.children[Index(root, fn)] == fn
  {
    var j :| 0 <= j < |root.children| && root.children[j] == fn; j
  }

  lemma {:induction false} ProgramIsClosed(w: World, root: Node)
    requires w.fns == Functions(root)
    ensures Closed(w, Nodes(root))
  {
    forall n, i | n in Nodes(root) && 0 <= i < |n.args| ensures n.args[i] in Nodes(root) {
      NodesClosed(root, n);
      NodesOfElement(n.args, i);
    }
    forall n, i | n in Nodes(root) && 0 <= i < |n.children| ensures n.children[i] in Nodes(root) {
      NodesClosed(root, n);
      NodesOfElement(n.children, i);
    }
    forall f | f in w.fns ensures w.fns[f] in Nodes(root) {
      FunctionsFrom(root, |root.children|, f);
      if w.fns[f] != root { NodesOfElement(root.children, Index(root, w.fns[f])); }
    }
  }
}
