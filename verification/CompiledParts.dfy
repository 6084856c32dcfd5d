// What each expression compiles to, part by part: its kind by the table of the language, its place, its
// name, and which of its elements are arguments and which statements
// (src/compiler.cpp:91-358, 391-448; include/cardcode/ast.hpp:82-115).

module CompiledParts {
  import opened Ast
  import opened Parser
  import opened Compiler
  import opened Names
  import Legality

  const COLOUR_WORDS := ["off", "red", "green", "blue", "yellow", "white"]

  /** The node of an expression, whatever its identifiers. */
  ghost predicate IsNodeOf(n: Node, raw: Raw)
    decreases raw, 2
  {
    && n.span == raw.span
    && match raw
       case Int(_, value) => n.kind == IntegerLiteral && n.nums == [value] && IsLeaf(n)
       case Sym(_, word) => IsAtomOf(n, word) && IsLeaf(n)
       case List(_, list) => list != [] && list[0].Sym? && n.kind == Legality.KindOf(list) && HasParts(n, raw)
  }

  predicate IsLeaf(n: Node) { n.args == [] && n.children == [] }

  /** true and false, the colours in the order of their codes, and names. */
  predicate IsAtomOf(n: Node, word: string) {
    if word == "true" then n.kind == BooleanLiteral && n.nums == [1]
    else if word == "false" then n.kind == BooleanLiteral && n.nums == [0]
    else if word in COLOUR_WORDS then
      n.kind == ColorLiteral && |n.nums| == 1 && 0 <= n.nums[0] < |COLOUR_WORDS| && COLOUR_WORDS[n.nums[0]] == word
    else n.kind == VarRef && n.op == word
  }

  ghost predicate HasParts(n: Node, raw: Raw)
    requires raw.List? && raw.list != [] && raw.list[0].Sym?
    decreases raw, 1
  {
    var list, k := raw.list, |raw.list|;
    match n.kind
    case Do => n.args == [] && AreNodesOf(n.children, raw, 1, k)
    case Repeat | When | While => k >= 2 && AreNodesOf(n.args, raw, 1, 2) && AreNodesOf(n.children, raw, 2, k)
    case DefineVar | SetVar => k == 3 && list[1].Sym? && n.op == list[1].symbol && AreNodesOf(n.args, raw, 2, 3) && n.children == []
    case DefineFunc =>
      && k >= 2 && list[1].List? && list[1].list != [] && list[1].list[0].Sym? && n.op == list[1].list[0].symbol
      && AreNames(n.params, list[1].list[1..]) && n.args == [] && AreNodesOf(n.children, raw, 2, k)
    case _ => n.op == list[0].symbol && AreNodesOf(n.args, raw, 1, k) && n.children == []
  }

  /** The nodes of the elements from `i` to `j`, in order. */
  ghost predicate AreNodesOf(ns: seq<Node>, raw: Raw, i: nat, j: nat)
    requires raw.List? && i <= j <= |raw.list|
    decreases raw, 0
  {
    |ns| == j - i && forall k :: i <= k < j ==> IsNodeOf(ns[k - i], raw.list[k])
  }

  predicate AreNames(names: seq<string>, raws: seq<Raw>) {
    |names| == |raws| && forall i :: 0 <= i < |raws| ==> raws[i].Sym? && names[i] == raws[i].symbol
  }

  // ---- one form ------------------------------------------------------------------------------------------

  /** Which elements a form takes as arguments and statements, and its name. */
  predicate Takes(raw: Raw, f: Form)
    requires IsForm(raw) && f.Accept?
  {
    var list, k := raw.list, |raw.list|;
    match f.kind
    case Do => f.a == 1 && f.b == 1 && f.c == 1
    case Repeat | When | While => k >= 2 && f.a == 1 && f.b == 2 && f.c == 2
    case DefineVar | SetVar => k == 3 && list[1].Sym? && f.op == list[1].symbol && f.a == 2 && f.b == 3 && f.c == 3
    case DefineFunc =>
      && k >= 2 && list[1].List? && list[1].list != [] && list[1].list[0].Sym? && f.op == list[1].list[0].symbol
      && f.a == 1 && f.b == 1 && f.c == 2 && f.params == ParamsOf(list[1].list[1..]) && f.diags == ParamProblems(list[1].list[1..])
    case _ => f.op == list[0].symbol && f.a == 1 && f.b == k && f.c == k
  }

  lemma FormTakes(raw: Raw, arity: Arity, top: bool)
    requires IsForm(raw) && Analyze(raw, arity, top).Accept?
    ensures Takes(raw, Analyze(raw, arity, top))
  {
    hide CommandKind, CommandProblems, OutOfRange, SensorKind, OperatorKind, IsReserved, IsBuiltinName, ParamsOf, ParamProblems,
      OperatorArity, CommandArity, IsCommandName, IsSensorName, IsComparison, IsBooleanOp, IsArithmetic;
    var op := raw.list[0].symbol;
    if IsCommandName(op) { CommandKinds(op); }
    if IsSensorName(op) { SensorKinds(op); }
    OperatorKinds(op);
  }

  predicate IsPlain(kind: Kind) {
    kind != Do && kind != Repeat && kind != When && kind != While && kind != DefineVar && kind != SetVar && kind != DefineFunc
  }

  lemma CommandKinds(op: string)
    ensures IsPlain(CommandKind(op))
  {
  }

  lemma SensorKinds(op: string)
    ensures IsPlain(SensorKind(op))
  {
  }

  lemma OperatorKinds(op: string)
    ensures IsPlain(OperatorKind(op))
  {
  }

  lemma {:induction false} NamesKept(ps: seq<Raw>)
    requires ParamProblems(ps) == []
    ensures AreNames(ParamsOf(ps), ps)
  {
    hide IsReserved;
    if ps != [] {
      var init, p := ps[..|ps| - 1], ps[|ps| - 1];
      assert |ParamProblems(ps)| >= |ParamProblems(init)|;
      NamesKept(init);
      assert ParamsOf(ps) == ParamsOf(init) + [p.symbol];
    }
  }

  lemma AtomIs(raw: Raw)
    requires !raw.List?
    ensures IsNodeOf(CompileAtom(raw), raw)
  {
    if raw.Sym? { ColourIs(raw.symbol); }
    hide COLOUR_WORDS, ColorCode;
  }

  lemma ColourIs(word: string)
    ensures IsColor(word) <==> word in COLOUR_WORDS
    ensures IsColor(word) ==> 0 <= ColorCode(word) < |COLOUR_WORDS| && COLOUR_WORDS[ColorCode(word)] == word
  {
  }

  // ---- expressions ---------------------------------------------------------------------------------------------

  /** An expression that compiles without problems becomes its node. */
  lemma {:induction false} ExprIs(raw: Raw, arity: Arity, top: bool)
    requires CompileExpr(raw, arity, top).diags == []
    ensures CompileExpr(raw, arity, top).node.Some? && IsNodeOf(CompileExpr(raw, arity, top).node.value, raw)
    decreases raw, 2
  {
    hide Analyze, CompileRange, HasParts, CompileAtom, Takes, Legality.KindOf;
    if !raw.List? {
      AtomIs(raw);
    } else if IsForm(raw) && Analyze(raw, arity, top).Accept? {
      CompileForms(raw, arity, top);
      FormTakes(raw, arity, top);
      KindIs(raw, arity, top);
      PartsAre(raw, Analyze(raw, arity, top), arity);
    }
  }

  lemma KindIs(raw: Raw, arity: Arity, top: bool)
    requires IsForm(raw) && CompileExpr(raw, arity, top).diags == []
    ensures Analyze(raw, arity, top).Accept? ==> Analyze(raw, arity, top).kind == Legality.KindOf(raw.list)
  {
    Legality.FormJudged(raw, arity, top);
    hide Legality.KindOf, Legality.Judge, Analyze, CompileExpr;
  }

  lemma {:induction false} PartsAre(raw: Raw, f: Form, arity: Arity)
    requires IsForm(raw) && f.Accept? && Takes(raw, f) && f.a <= f.b <= |raw.list| && f.c <= |raw.list| && f.diags == []
    requires CompileRange(raw, f.a, f.b, arity).diags == [] && CompileRange(raw, f.c, |raw.list|, arity).diags == []
    ensures |CompileRange(raw, f.a, f.b, arity).nodes| == f.b - f.a
    ensures HasParts(Node(0, f.kind, raw.span, f.op, CompileRange(raw, f.a, f.b, arity).nodes, CompileRange(raw, f.c, |raw.list|, arity).nodes, [], f.params), raw)
    decreases raw, 1
  {
    hide CompileRange, AreNodesOf, AreNames, ParamsOf, ParamProblems;
    RangeIs(raw, f.a, f.b, arity);
    RangeIs(raw, f.c, |raw.list|, arity);
    NoNodes(CompileRange(raw, f.a, f.b, arity).nodes, raw, f.a, f.b);
    NoNodes(CompileRange(raw, f.c, |raw.list|, arity).nodes, raw, f.c, |raw.list|);
    if f.kind == DefineFunc { NamesKept(raw.list[1].list[1..]); }
  }

  lemma NoNodes(ns: seq<Node>, raw: Raw, i: nat, j: nat)
    requires raw.List? && i <= j <= |raw.list| && AreNodesOf(ns, raw, i, j)
    ensures |ns| == j - i && (i == j ==> ns == [])
  {
  }

  lemma {:induction false} RangeIs(raw: Raw, i: nat, j: nat, arity: Arity)
    requires raw.List? && i <= j <= |raw.list| && CompileRange(raw, i, j, arity).diags == []
    ensures AreNodesOf(CompileRange(raw, i, j, arity).nodes, raw, i, j)
    decreases raw, 0, j - i
  {
    hide CompileExpr, IsNodeOf;
    if i < j {
      ExprIs(raw.list[i], arity, false);
      RangeIs(raw, i + 1, j, arity);
      var rest := CompileRange(raw, i + 1, j, arity).nodes;
      var ns := CompileRange(raw, i, j, arity).nodes;
      assert ns == [CompileExpr(raw.list[i], arity, false).node.value] + rest;
      forall k | i <= k < j ensures IsNodeOf(ns[k - i], raw.list[k]) {
        if k > i { assert ns[k - i] == rest[k - (i + 1)]; }
      }
    }
  }

  // ---- numbering keeps all that ----------------------------------------------------------------------------------

  lemma {:induction false} NumberedIs(n: Node, raw: Raw, next: nat)
    requires IsNodeOf(n, raw)
    ensures IsNodeOf(Number(n, next).0, raw)
    decreases raw, 2
  {
    hide Highlightable, Legality.KindOf, HasParts, IsAtomOf;
    var k := if Highlightable(n.kind) then next + 1 else next;
    var r := Number(n, next).0;
    assert r.args == NumberAll(n.args, k).0 && r.children == NumberAll(n.children, NumberAll(n.args, k).1).0;
    NothingNumbered(k);
    if raw.List? {
      PartsNumbered(n, raw, k);
      SameParts(n, r, raw, NumberAll(n.args, k).0, NumberAll(n.children, NumberAll(n.args, k).1).0);
    } else if raw.Sym? {
      SameAtom(n, r, raw.symbol);
    }
  }

  lemma NothingNumbered(k: nat)
    ensures NumberAll([], k) == ([], k)
  {
  }

  lemma SameAtom(n: Node, r: Node, word: string)
    requires IsAtomOf(n, word) && r.kind == n.kind && r.nums == n.nums && r.op == n.op
    ensures IsAtomOf(r, word)
  {
    hide COLOUR_WORDS;
  }

  /** The nodes `ms` are nodes of the same expressions as `ns`. */
  ghost predicate Alike(ns: seq<Node>, ms: seq<Node>, raw: Raw)
    requires raw.List?
  {
    && (ns == [] ==> ms == [])
    && forall i, j :: 0 <= i <= j <= |raw.list| && AreNodesOf(ns, raw, i, j) ==> AreNodesOf(ms, raw, i, j)
  }

  lemma {:induction false} PartsNumbered(n: Node, raw: Raw, k: nat)
    requires raw.List?
    ensures Alike(n.args, NumberAll(n.args, k).0, raw)
    ensures Alike(n.children, NumberAll(n.children, NumberAll(n.args, k).1).0, raw)
    decreases raw, 1
  {
    EachAlike(n.args, raw, k);
    EachAlike(n.children, raw, NumberAll(n.args, k).1);
    hide Alike;
  }

  lemma {:induction false} EachAlike(ns: seq<Node>, raw: Raw, k: nat)
    requires raw.List?
    ensures Alike(ns, NumberAll(ns, k).0, raw)
    decreases raw, 0, |raw.list| + 1
  {
    hide NumberAll, AreNodesOf;
    NothingNumbered(k);
    forall i: nat, j: nat | i <= j <= |raw.list| && AreNodesOf(ns, raw, i, j) ensures AreNodesOf(NumberAll(ns, k).0, raw, i, j) {
      RangeNumbered(ns, raw, i, j, k);
    }
  }

  lemma {:induction false} RangeNumbered(ns: seq<Node>, raw: Raw, i: nat, j: nat, next: nat)
    requires raw.List? && i <= j <= |raw.list| && AreNodesOf(ns, raw, i, j)
    ensures AreNodesOf(NumberAll(ns, next).0, raw, i, j)
    decreases raw, 0, j - i
  {
    hide IsNodeOf, Number;
    if i < j {
      var (first, k) := Number(ns[0], next);
      NumberedIs(ns[0], raw.list[i], next);
      RangeNumbered(ns[1..], raw, i + 1, j, k);
      var rest := NumberAll(ns[1..], k).0;
      var ms := NumberAll(ns, next).0;
      assert ms == [first] + rest;
      forall x | i <= x < j ensures IsNodeOf(ms[x - i], raw.list[x]) {
        if x > i { assert ms[x - i] == rest[x - (i + 1)]; }
      }
    }
  }

  lemma SameParts(n: Node, r: Node, raw: Raw, args: seq<Node>, children: seq<Node>)
    requires raw.List? && raw.list != [] && raw.list[0].Sym? && HasParts(n, raw)
    requires Alike(n.args, args, raw) && Alike(n.children, children, raw)
    requires r.kind == n.kind && r.op == n.op && r.params == n.params && r.args == args && r.children == children
    ensures HasParts(r, raw)
  {
    hide AreNodesOf, AreNames;
  }

  // ---- programs ----------------------------------------------------------------------------------------------------

  /** The tree of a program: the node of its one expression, or a do, from the first of them to the last, of the
      nodes of all. */
  ghost predicate IsTreeOf(root: Node, exprs: seq<Raw>)
    requires exprs != []
  {
    if |exprs| == 1 then IsNodeOf(root, exprs[0])
    else
      var a, z := exprs[0].span, exprs[|exprs| - 1].span;
      && root.kind == Do && root.span == Span(a.startOffset, z.endOffset, a.startLine, a.startColumn, z.endLine, z.endColumn)
      && root.args == [] && |root.children| == |exprs|
      && forall i :: 0 <= i < |exprs| ==> IsNodeOf(root.children[i], exprs[i])
  }

  lemma {:induction false} TopsAre(tops: seq<Raw>, arity: Arity)
    requires CompileTops(tops, arity).diags == []
    ensures var ns := CompileTops(tops, arity).nodes; |ns| == |tops| && forall i :: 0 <= i < |tops| ==> IsNodeOf(ns[i], tops[i])
    decreases |tops|
  {
    hide CompileExpr, IsNodeOf;
    if tops != [] {
      ExprIs(tops[0], arity, true);
      TopsAre(tops[1..], arity);
    }
  }

  lemma {:induction false} EachNumbered(ns: seq<Node>, raws: seq<Raw>, next: nat)
    requires |ns| == |raws| && forall i :: 0 <= i < |raws| ==> IsNodeOf(ns[i], raws[i])
    ensures var ms := NumberAll(ns, next).0; |ms| == |raws| && forall i :: 0 <= i < |raws| ==> IsNodeOf(ms[i], raws[i])
    decreases |ns|
  {
    hide IsNodeOf, Number;
    if ns != [] {
      NumberedIs(ns[0], raws[0], next);
      EachNumbered(ns[1..], raws[1..], Number(ns[0], next).1);
    }
  }

  /** A program that compiles becomes the tree of its expressions. */
  lemma {:induction false} CompiledIs(src: string)
    requires Ok(Compile(src))
    ensures Parse(src).exprs != [] && IsTreeOf(Compile(src).root.value, Parse(src).exprs)
  {
    hide IsNodeOf, CompileTops, CollectUpTo, Number, Parse;
    var exprs := Parse(src).exprs;
    var tops := TopsOf(exprs);
    var arity := CollectUpTo(tops, |tops|).arity;
    TopsAre(tops, arity);
    var ns := CompileTops(tops, arity).nodes;
    var root := RootOf(exprs, ns).value;
    if |exprs| == 1 {
      if IsSingleDo(exprs) { DoIs(exprs[0], ns, root); }
      NumberedIs(root, exprs[0], 0);
    } else {
      EachNumbered(ns, exprs, 1);
      DoNumbered(root);
    }
  }

  lemma DoNumbered(root: Node)
    requires root.kind == Do && root.args == []
    ensures Number(root, 0).0 == root.(id := 0, children := NumberAll(root.children, 1).0)
  {
    NothingNumbered(1);
  }

  lemma DoIs(raw: Raw, ns: seq<Node>, root: Node)
    requires IsForm(raw) && raw.list[0].symbol == "do" && |ns| == |raw.list| - 1
    requires forall i :: 0 <= i < |ns| ==> IsNodeOf(ns[i], raw.list[1..][i])
    requires root == Node(0, Do, Join(raw.span, raw.span), "do", [], ns, [], [])
    ensures IsNodeOf(root, raw)
  {
    assert Legality.KindOf(raw.list) == Do;
    assert Join(raw.span, raw.span) == raw.span;
    hide Legality.KindOf;
    forall k | 1 <= k < |raw.list| ensures IsNodeOf(ns[k - 1], raw.list[k]) { assert raw.list[1..][k - 1] == raw.list[k]; }
    assert AreNodesOf(ns, raw, 1, |raw.list|);
  }
}
