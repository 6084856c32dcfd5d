// What a clean compilation guarantees about the whole program
// (src/compiler.cpp:91-319, 366-448; src/engine.cpp:351-382).

module CompiledPrograms {
  import opened Ast
  import opened Tree
  import opened Source
  import opened Parser
  import opened Names
  import opened Compiler
  import opened Lossless
  import opened NodeIds
  import opened Safety
  import opened Programs
  import opened Options
  import Semantics

  // ---- well-formed trees ----------------------------------------------------------------------------

  predicate CallResolves(arity: Arity, n: Node) {
    n.op in arity && arity[n.op] == |n.args|
  }

  /** Every node of the tree has the parts its kind needs, calls going by `arity`. */
  ghost predicate Formed(arity: Arity, n: Node)
    decreases n, 1
  {
    ShapeWith(n, CallResolves(arity, n)) && FormedAll(arity, n.args) && FormedAll(arity, n.children)
  }

  ghost predicate FormedAll(arity: Arity, ns: seq<Node>)
    decreases ns, 0
  {
    forall i :: 0 <= i < |ns| ==> Formed(arity, ns[i])
  }

  /** The compiled arguments are literals exactly where the source has them, with those values. */
  ghost predicate SameLiterals(raws: seq<Raw>, ns: seq<Node>) {
    |raws| == |ns| && forall i :: 0 <= i < |ns| ==> LiteralOf(raws[i], ns[i])
  }

  predicate LiteralOf(raw: Raw, n: Node) {
    (IsLiteral(n) <==> raw.Int?) && (raw.Int? ==> n.nums == [raw.value])
  }

  lemma InRange(e: Raw, n: Node, lo: int, hi: int, problem: Problem)
    requires LiteralOf(e, n) && OutOfRange(e, lo, hi, problem) == []
    ensures LiteralWithin(n, lo, hi)
  {
  }

  lemma CommandShaped(raw: Raw, kind: Kind, args: seq<Node>, n: Node)
    requires raw.List? && |raw.list| == CommandArity(kind) + 1 && IsCommand(kind)
    requires CommandProblems(kind, raw.list) == [] && SameLiterals(raw.list[1..], args)
    requires n.kind == kind && n.args == args
    ensures ShapeWith(n, false)
  {
    forall k | 0 <= k < |args| ensures LiteralOf(raw.list[k + 1], args[k]) {
      assert raw.list[1..][k] == raw.list[k + 1];
    }
    match kind
    case Drive | Backward =>
      assert |CommandProblems(kind, raw.list)| == |OutOfRange(raw.list[1], 0, 100, SpeedLiteral)| + |OutOfRange(raw.list[2], 0, 10000, DurationLiteral)|;
      InRange(raw.list[1], args[0], 0, 100, SpeedLiteral);
      InRange(raw.list[2], args[1], 0, 10000, DurationLiteral);
    case TurnLeft | TurnRight => InRange(raw.list[1], args[0], 0, 3600, DegreesLiteral);
    case Wait => InRange(raw.list[1], args[0], 0, 10000, DurationLiteral);
    case _ =>
  }

  lemma CommandKinds(op: string)
    ensures IsCommand(CommandKind(op)) && IsSensor(SensorKind(op))
    ensures var k := OperatorKind(op); IsComparison(op) ==> k == Compare
    ensures IsArithmetic(op) ==> OperatorKind(op) == Arithmetic
    ensures IsBooleanOp(op) ==> OperatorKind(op) == BooleanOp
    ensures IsComparison(op) || IsArithmetic(op) || IsBooleanOp(op) ==> !IsCommandName(op) && !IsSensorName(op)
  {
  }

  lemma OperatorShaped(n: Node)
    requires IsComparison(n.op) || IsBooleanOp(n.op) || IsArithmetic(n.op)
    requires n.kind == OperatorKind(n.op) && OperatorArity(n.op, |n.args|)
    ensures ShapeWith(n, false)
  {
  }

  lemma {:induction false} FormShaped(raw: Raw, arity: Arity, top: bool, args: seq<Node>, children: seq<Node>)
    requires IsForm(raw) && Analyze(raw, arity, top).Accept? && Analyze(raw, arity, top).diags == []
    requires var f := Analyze(raw, arity, top); 1 <= f.a <= f.b <= |raw.list| && SameLiterals(raw.list[f.a..f.b], args)
    ensures var n := NodeOf(raw, Analyze(raw, arity, top), args, children);
            ShapeWith(n, CallResolves(arity, n)) && !IsLiteral(n)
  {
    hide IsBuiltinName, IsReserved, ParamsOf, ParamProblems, CommandProblems, OperatorArity, OperatorKind, CommandKind,
         SensorKind, CommandArity, IsComparison, IsArithmetic, IsBooleanOp, IsCommandName, IsSensorName;
    var f := Analyze(raw, arity, top);
    var op, n := raw.list[0].symbol, NodeOf(raw, Analyze(raw, arity, top), args, children);
    CommandKinds(op);
    if op == "repeat" {
      assert raw.list[1..2][0] == raw.list[1];
      InRange(raw.list[1], args[0], 0, 100, RepeatLiteral);
    } else if !IsControl(op) {
      if IsCommandName(op) {
        assert raw.list[1..|raw.list|] == raw.list[1..];
        CommandShaped(raw, CommandKind(op), args, n);
      } else if !IsSensorName(op) && (IsComparison(op) || IsBooleanOp(op) || IsArithmetic(op)) {
        OperatorShaped(n);
      }
    }
  }

  /** A clean expression is well formed, and a literal exactly where the source has one. */
  lemma {:induction false} ExprFormed(raw: Raw, arity: Arity, top: bool)
    requires CompileExpr(raw, arity, top).diags == []
    ensures var r := CompileExpr(raw, arity, top);
            r.node.Some? && Formed(arity, r.node.value) && LiteralOf(raw, r.node.value)
    decreases raw, 2, 0
  {
    hide Analyze, ShapeWith, Formed;
    ExprReads(raw, arity, top);
    if !raw.List? {
      AtomFormed(raw, arity);
    } else {
      var f := Analyze(raw, arity, top);
      CompileForms(raw, arity, top);
      var args, children := CompileRange(raw, f.a, f.b, arity), CompileRange(raw, f.c, |raw.list|, arity);
      NoDiags(f.diags, args.diags, children.diags);
      RangeFormed(raw, f.a, f.b, arity);
      RangeFormed(raw, f.c, |raw.list|, arity);
      FormShaped(raw, arity, top, args.nodes, children.nodes);
      FormedIntro(arity, CompileExpr(raw, arity, top).node.value);
    }
  }

  lemma FormedIntro(arity: Arity, n: Node)
    requires ShapeWith(n, CallResolves(arity, n)) && FormedAll(arity, n.args) && FormedAll(arity, n.children)
    ensures Formed(arity, n)
  {
  }

  lemma AtomFormed(raw: Raw, arity: Arity)
    requires !raw.List?
    ensures Formed(arity, CompileAtom(raw)) && LiteralOf(raw, CompileAtom(raw))
  {
  }

  lemma {:induction false} RangeFormed(raw: Raw, i: nat, j: nat, arity: Arity)
    requires raw.List? && i <= j <= |raw.list| && CompileRange(raw, i, j, arity).diags == []
    ensures var ns := CompileRange(raw, i, j, arity).nodes; FormedAll(arity, ns) && SameLiterals(raw.list[i..j], ns)
    decreases raw, 1, j - i
  {
    hide Formed, LiteralOf, CompileExpr;
    if i < j {
      var first, rest := CompileExpr(raw.list[i], arity, false), CompileRange(raw, i + 1, j, arity);
      assert |first.diags + rest.diags| == |first.diags| + |rest.diags|;
      ExprFormed(raw.list[i], arity, false);
      RangeFormed(raw, i + 1, j, arity);
      assert raw.list[i..j] == [raw.list[i]] + raw.list[i + 1..j];
    }
  }

  // ---- numbering changes none of this -------------------------------------------------------------------

  lemma {:induction false} ReadBackUnnumbered(n: Node)
    ensures ReadBack(Unnumbered(n)) == ReadBack(n)
    decreases n, 1
  {
    hide KindName;
    ReadBackAllUnnumbered(n.args);
    ReadBackAllUnnumbered(n.children);
  }

  lemma {:induction false} ReadBackAllUnnumbered(ns: seq<Node>)
    ensures ReadBackAll(UnnumberedAll(ns)) == ReadBackAll(ns)
    decreases ns, 0
  {
    hide ReadBack;
    if ns != [] {
      ReadBackUnnumbered(ns[0]);
      ReadBackAllUnnumbered(ns[1..]);
      assert ReadBackAll(ns) == [ReadBack(ns[0])] + ReadBackAll(ns[1..]);
      assert ReadBackAll(UnnumberedAll(ns)) == [ReadBack(Unnumbered(ns[0]))] + ReadBackAll(UnnumberedAll(ns[1..]));
    }
  }

  lemma {:induction false} UnnumberedElement(ns: seq<Node>, i: nat)
    requires i < |ns|
    ensures UnnumberedAll(ns)[i] == Unnumbered(ns[i])
  {
    if i > 0 { UnnumberedElement(ns[1..], i - 1); }
  }

  lemma {:induction false} ShapeUnnumbered(n: Node, resolved: bool)
    ensures ShapeWith(Unnumbered(n), resolved) <==> ShapeWith(n, resolved)
  {
    if |n.args| > 0 { UnnumberedElement(n.args, 0); }
    if |n.args| > 1 { UnnumberedElement(n.args, 1); }
  }

  lemma {:induction false} FormedUnnumbered(arity: Arity, n: Node)
    ensures Formed(arity, Unnumbered(n)) <==> Formed(arity, n)
    decreases n, 1
  {
    hide ShapeWith;
    ShapeUnnumbered(n, CallResolves(arity, n));
    FormedAllUnnumbered(arity, n.args);
    FormedAllUnnumbered(arity, n.children);
  }

  lemma {:induction false} FormedAllUnnumbered(arity: Arity, ns: seq<Node>)
    ensures FormedAll(arity, UnnumberedAll(ns)) <==> FormedAll(arity, ns)
    decreases ns, 0
  {
    hide Formed, Unnumbered, UnnumberedAll;
    forall i | 0 <= i < |ns| ensures Formed(arity, UnnumberedAll(ns)[i]) <==> Formed(arity, ns[i]) {
      UnnumberedElement(ns, i);
      FormedUnnumbered(arity, ns[i]);
    }
    assert forall i :: 0 <= i < |ns| ==> UnnumberedAll(ns)[i] == UnnumberedAll(ns)[i];
  }

  // ---- from the tree to all its nodes -------------------------------------------------------------------

  lemma {:induction false} FormedNodes(arity: Arity, n: Node, d: Node)
    requires Formed(arity, n) && d in Nodes(n)
    ensures ShapeWith(d, CallResolves(arity, d))
    decreases n, 1
  {
    hide ShapeWith;
    if d in NodesAll(n.args) {
      var i := NodesAllElement(n.args, d);
      FormedNodes(arity, n.args[i], d);
    } else if d in NodesAll(n.children) {
      var i := NodesAllElement(n.children, d);
      FormedNodes(arity, n.children[i], d);
    }
  }

  // ---- top level ---------------------------------------------------------------------------------------------

  lemma {:induction false} TopsCompiled(tops: seq<Raw>, arity: Arity)
    requires CompileTops(tops, arity).diags == []
    ensures var ns := CompileTops(tops, arity).nodes;
            && |ns| == |tops|
            && forall i :: 0 <= i < |tops| ==>
                 CompileExpr(tops[i], arity, true).diags == [] && CompileExpr(tops[i], arity, true).node == Some(ns[i])
  {
    hide CompileExpr;
    if tops != [] {
      var first, rest := CompileExpr(tops[0], arity, true), CompileTops(tops[1..], arity);
      assert |first.diags + rest.diags| == |first.diags| + |rest.diags|;
      ExprReads(tops[0], arity, true);
      TopsCompiled(tops[1..], arity);
    }
  }

  lemma {:induction false} TopsRead(tops: seq<Raw>, arity: Arity)
    requires CompileTops(tops, arity).diags == []
    ensures ReadBackAll(CompileTops(tops, arity).nodes) == StripAll(tops) && FormedAll(arity, CompileTops(tops, arity).nodes)
  {
    hide CompileExpr, ReadBack, Strip, Formed;
    TopsCompiled(tops, arity);
    forall i | 0 <= i < |tops|
      ensures ReadBack(CompileTops(tops, arity).nodes[i]) == Strip(tops[i]) && Formed(arity, CompileTops(tops, arity).nodes[i])
    {
      ExprReads(tops[i], arity, true);
      ExprFormed(tops[i], arity, true);
    }
  }

  function NameOf(e: Raw): string
    requires IsSignature(e)
  {
    e.list[1].list[0].symbol
  }

  function ParamCount(e: Raw): nat
    requires IsSignature(e)
  {
    |e.list[1].list| - 1
  }

  /** A definition node comes from a top-level signature, and has its name and parameters. */
  lemma {:induction false} SignatureCompiled(e: Raw, arity: Arity)
    requires CompileExpr(e, arity, true).diags == []
    ensures var r := CompileExpr(e, arity, true);
            && r.node.Some?
            && (IsSignature(e) <==> r.node.value.kind == DefineFunc)
            && (IsSignature(e) ==> r.node.value.op == NameOf(e) && |r.node.value.params| == ParamCount(e))
  {
    hide CompileRange, CommandProblems, OperatorArity, IsBuiltinName, IsReserved, ParamsOf, ParamProblems;
    ExprReads(e, arity, true);
    if IsForm(e) && Analyze(e, arity, true).Accept? {
      CompileForms(e, arity, true);
      var f := Analyze(e, arity, true);
      var args, children := CompileRange(e, f.a, f.b, arity), CompileRange(e, f.c, |e.list|, arity);
      NoDiags(f.diags, args.diags, children.diags);
      if e.list[0].symbol == "define" {
        if e.list[1].List? { ParamsRead(e.list[1].list[1..]); }
      } else {
        NotADefinition(e, arity);
      }
    }
  }

  lemma NotADefinition(e: Raw, arity: Arity)
    requires IsForm(e) && e.list[0].symbol != "define" && Analyze(e, arity, true).Accept?
    ensures Analyze(e, arity, true).kind != DefineFunc
  {
    hide CommandProblems, OperatorArity, IsReserved;
  }

  // ---- the function table at run time is the one compiled against -----------------------------------------

  /** Without duplicates the arity table has exactly the signatures' names and parameter counts. */
  lemma {:induction false} ArityIsExact(tops: seq<Raw>, i: nat)
    requires i <= |tops| && CollectUpTo(tops, i).diags == []
    ensures forall j :: 0 <= j < i && IsSignature(tops[j]) ==>
              NameOf(tops[j]) in CollectUpTo(tops, i).arity && CollectUpTo(tops, i).arity[NameOf(tops[j])] == ParamCount(tops[j])
    ensures forall name :: name in CollectUpTo(tops, i).arity ==> exists j :: 0 <= j < i && IsSignature(tops[j]) && NameOf(tops[j]) == name
  {
    hide IsSignature;
    if i > 0 {
      assert |CollectUpTo(tops, i - 1).diags| <= |CollectUpTo(tops, i).diags|;
      ArityIsExact(tops, i - 1);
    }
  }

  lemma {:induction false} FunctionsContain(root: Node, i: nat, j: nat)
    requires j < i <= |root.children| && root.children[j].kind == DefineFunc
    ensures root.children[j].op in Semantics.FunctionsUpTo(root, i)
  {
    if j < i - 1 { FunctionsContain(root, i - 1, j); }
  }

  lemma {:induction false} RootContained(root: Node, i: nat)
    requires i <= |root.children| && root.kind == DefineFunc
    ensures root.op in Semantics.FunctionsUpTo(root, i)
  {
    if i > 0 { RootContained(root, i - 1); }
  }

  lemma ValueIsNoDefinition(raw: Raw, arity: Arity)
    ensures var r := CompileExpr(raw, arity, false); r.node.Some? ==> r.node.value.kind != DefineFunc
  {
    hide CompileRange, CommandProblems, OperatorArity, IsBuiltinName, IsReserved, ParamsOf, ParamProblems;
  }

  lemma {:induction false} RangeHasNoDefinitions(raw: Raw, i: nat, j: nat, arity: Arity)
    requires raw.List? && i <= j <= |raw.list|
    ensures forall n :: n in CompileRange(raw, i, j, arity).nodes ==> n.kind != DefineFunc
    decreases j - i
  {
    hide CompileExpr;
    if i < j {
      ValueIsNoDefinition(raw.list[i], arity);
      RangeHasNoDefinitions(raw, i + 1, j, arity);
    }
  }

  /** The statements of a compiled node are never definitions. */
  lemma {:induction false} BodyHasNoDefinitions(raw: Raw, arity: Arity, top: bool)
    ensures var r := CompileExpr(raw, arity, top);
            r.node.Some? ==> forall n :: n in r.node.value.children ==> n.kind != DefineFunc
  {
    hide Analyze, CompileRange;
    if IsForm(raw) && Analyze(raw, arity, top).Accept? {
      CompileForms(raw, arity, top);
      RangeHasNoDefinitions(raw, Analyze(raw, arity, top).c, |raw.list|, arity);
    }
  }

  /** A numbered node keeps its kind, name, parameters and the number of its statements. */
  lemma {:induction false} NumberedHead(n: Node, next: nat)
    ensures var r := Number(n, next).0;
            && r.kind == n.kind && r.op == n.op && r.params == n.params && |r.children| == |n.children|
            && forall i :: 0 <= i < |n.children| ==>
                 r.children[i].kind == n.children[i].kind && r.children[i].op == n.children[i].op && r.children[i].params == n.children[i].params
  {
    hide Number;
    NumberIsPreOrder(n, next);
    var r := Number(n, next).0;
    forall i | 0 <= i < |n.children|
      ensures r.children[i].kind == n.children[i].kind && r.children[i].op == n.children[i].op && r.children[i].params == n.children[i].params
    {
      UnnumberedElement(n.children, i);
      UnnumberedElement(r.children, i);
      assert Unnumbered(r).children[i] == Unnumbered(n).children[i];
    }
  }

  /** The pieces of a clean compilation. */
  ghost predicate Clean(p: Program) {
    && p.exprs != []
    && CollectUpTo(TopsOf(p.exprs), |TopsOf(p.exprs)|).diags == []
    && CompileTops(TopsOf(p.exprs), ArityOf(p)).diags == []
    && RootOf(p.exprs, CompileTops(TopsOf(p.exprs), ArityOf(p)).nodes).Some?
  }

  function ArityOf(p: Program): Arity {
    CollectUpTo(TopsOf(p.exprs), |TopsOf(p.exprs)|).arity
  }

  lemma {:induction false} OkIsClean(p: Program)
    requires Ok(CompileProgram(p))
    ensures Clean(p) && p.diags == []
    ensures CompileProgram(p).root == Some(Number(RootOf(p.exprs, CompileTops(TopsOf(p.exprs), ArityOf(p)).nodes).value, 0).0)
  {
    hide CompileTops, CollectUpTo, Number;
    NoDiags(p.diags, CollectUpTo(TopsOf(p.exprs), |TopsOf(p.exprs)|).diags, CompileTops(TopsOf(p.exprs), ArityOf(p)).diags);
  }

  /** The definition of a collected name, and what every definition of that name takes. */
  lemma {:induction false} Definition(tops: seq<Raw>, arity: Arity, name: string) returns (j: nat)
    requires CollectUpTo(tops, |tops|).diags == [] && arity == CollectUpTo(tops, |tops|).arity && name in arity
    requires CompileTops(tops, arity).diags == []
    ensures var nodes := CompileTops(tops, arity).nodes;
            && j < |tops| == |nodes| && nodes[j].kind == DefineFunc && nodes[j].op == name
            && forall i :: 0 <= i < |nodes| && nodes[i].kind == DefineFunc && nodes[i].op == name ==> |nodes[i].params| == arity[name]
  {
    hide CompileTops, CollectUpTo, IsSignature, CompileExpr, NameOf, ParamCount;
    var nodes := CompileTops(tops, arity).nodes;
    TopsCompiled(tops, arity);
    ArityIsExact(tops, |tops|);
    forall i | 0 <= i < |tops|
      ensures (IsSignature(tops[i]) <==> nodes[i].kind == DefineFunc)
      ensures IsSignature(tops[i]) ==> nodes[i].op == NameOf(tops[i]) && |nodes[i].params| == ParamCount(tops[i])
    {
      SignatureCompiled(tops[i], arity);
    }
    j :| 0 <= j < |tops| && IsSignature(tops[j]) && NameOf(tops[j]) == name;
  }

  /** The root that is numbered holds the compiled nodes: it is one of them, or a do over them. */
  lemma {:induction false} RootHolds(p: Program, root: Node)
    requires Clean(p) && root == Number(RootOf(p.exprs, CompileTops(TopsOf(p.exprs), ArityOf(p)).nodes).value, 0).0
    ensures var nodes := CompileTops(TopsOf(p.exprs), ArityOf(p)).nodes;
            if |p.exprs| == 1 && !IsSingleDo(p.exprs) then
              && |nodes| == 1 && root.kind == nodes[0].kind && root.op == nodes[0].op && root.params == nodes[0].params
              && forall i :: 0 <= i < |root.children| ==> root.children[i].kind != DefineFunc
            else
              && root.kind == Do && |root.children| == |nodes|
              && forall i :: 0 <= i < |nodes| ==>
                   root.children[i].kind == nodes[i].kind && root.children[i].op == nodes[i].op && root.children[i].params == nodes[i].params
  {
    hide CompileTops, CollectUpTo, Number, IsForm, CompileExpr;
    var tops, arity := TopsOf(p.exprs), ArityOf(p);
    TopsCompiled(tops, arity);
    NumberedHead(RootOf(p.exprs, CompileTops(tops, arity).nodes).value, 0);
    if |p.exprs| == 1 && !IsSingleDo(p.exprs) { BodyHasNoDefinitions(tops[0], arity, true); }
  }

  /** Every name the compiler resolved is a function at run time, with that many parameters. */
  lemma {:induction false} FunctionsResolve(p: Program, root: Node, name: string)
    requires Ok(CompileProgram(p)) && CompileProgram(p).root == Some(root)
    requires name in ArityOf(p)
    ensures name in Semantics.Functions(root) && |Semantics.Functions(root)[name].params| == ArityOf(p)[name]
  {
    hide *;
    OkIsClean(p);
    CleanParts(p);
    RootHolds(p, root);
    var arity := ArityOf(p);
    var nodes := CompileTops(TopsOf(p.exprs), arity).nodes;
    var j := Definition(TopsOf(p.exprs), arity, name);
    FunctionsAre(root);
    if |p.exprs| == 1 && !IsSingleDo(p.exprs) {
      RootContained(root, |root.children|);
    } else {
      FunctionsContain(root, |root.children|, j);
    }
    FunctionsFrom(root, |root.children|, name);
  }

  lemma CleanParts(p: Program)
    requires Clean(p)
    ensures var tops := TopsOf(p.exprs);
            && CollectUpTo(tops, |tops|).diags == [] && ArityOf(p) == CollectUpTo(tops, |tops|).arity
            && CompileTops(tops, ArityOf(p)).diags == []
  {
    hide CompileTops, CollectUpTo;
  }

  lemma FunctionsAre(root: Node)
    ensures Semantics.Functions(root) == Semantics.FunctionsUpTo(root, |root.children|)
  {
    hide Semantics.FunctionsUpTo;
  }

  // ---- the theorems ----------------------------------------------------------------------------------------------

  /** A program that compiled without diagnostics is well formed: every argument is there, every
      call names a function that takes exactly its arguments, and literals are in range. */
  lemma {:induction false} CompiledIsWellFormed(p: Program, root: Node)
    requires Ok(CompileProgram(p)) && CompileProgram(p).root == Some(root)
    ensures WellFormed(Semantics.Functions(root), Nodes(root))
  {
    hide CompileTops, CollectUpTo, Number, CompileProgram, Formed, Nodes, Semantics.Functions;
    OkIsClean(p);
    var tops, arity := TopsOf(p.exprs), ArityOf(p);
    var nodes := CompileTops(tops, arity).nodes;
    var raw := RootOf(p.exprs, nodes).value;
    TopsRead(tops, arity);
    if |p.exprs| != 1 || IsSingleDo(p.exprs) { FormedIntro(arity, raw); }
    NumberIsPreOrder(raw, 0);
    FormedUnnumbered(arity, raw);
    FormedUnnumbered(arity, root);
    forall d | d in Nodes(root) ensures Shape(Semantics.Functions(root), d) {
      FormedNodes(arity, root, d);
      if d.op in arity { FunctionsResolve(p, root, d.op); }
      if d.kind == Call { assert CallResolves(arity, d); } else { ShapeOfOthers(d, CallResolves(arity, d), false); }
      if d.kind != Call { ShapeOfOthers(d, false, d.op in Semantics.Functions(root) && |Semantics.Functions(root)[d.op].params| == |d.args|); }
    }
  }

  lemma ShapeOfOthers(n: Node, resolved: bool, resolved': bool)
    requires n.kind != Call && ShapeWith(n, resolved)
    ensures ShapeWith(n, resolved')
  {
  }

  /** Compilation is lossless: what was compiled reads back as what was parsed, spans apart. The
      root is the single expression itself, or a do of all of them. */
  lemma {:induction false} CompiledReadsBack(p: Program, root: Node)
    requires Ok(CompileProgram(p)) && CompileProgram(p).root == Some(root)
    ensures if |p.exprs| == 1 then ReadBack(root) == Strip(p.exprs[0])
            else ReadBack(root) == SList([SSym("do")] + StripAll(p.exprs))
  {
    hide CompileTops, CollectUpTo, Number, CompileProgram, Formed;
    OkIsClean(p);
    var tops, arity := TopsOf(p.exprs), ArityOf(p);
    var nodes := CompileTops(tops, arity).nodes;
    var raw := RootOf(p.exprs, nodes).value;
    TopsRead(tops, arity);
    NumberIsPreOrder(raw, 0);
    ReadBackUnnumbered(raw);
    ReadBackUnnumbered(root);
    if IsSingleDo(p.exprs) {
      var e := p.exprs[0];
      assert StripAll(e.list) == [SSym("do")] + StripAll(e.list[1..]);
    } else if |p.exprs| == 1 {
      assert ReadBackAll(nodes)[0] == StripAll(tops)[0];
    }
  }
}
