// From source text to a finished run (src/engine.cpp:360-399), and what is guaranteed of it.

module Pipeline {
  import opened Ast
  import opened Tree
  import opened Source
  import opened Parser
  import opened Semantics
  import opened TraceTheorems
  import opened Bounds
  import opened Safety
  import opened NodeIds
  import opened CompiledPrograms
  import opened Options
  import Compiler
  import Engine
  import Blame

  datatype RunResult =
    | NotRun(diags: seq<Diagnostic>)             // compilation failed; nothing was executed
    | Ran(diags: seq<Diagnostic>, outcome: Outcome)

  function RunSource(src: string, host: Host, limits: Limits): RunResult {
    var compiled := Compiler.Compile(src);
    if !Compiler.Ok(compiled) then NotRun(compiled.diags)
    else Ran(compiled.diags, Execute(host, limits, compiled.root.value))
  }

  lemma ShapedIsIndexable(fns: map<string, Node>, code: set<Node>)
    requires WellFormed(fns, code)
    ensures Engine.Indexable(code)
  {
    forall n | n in code ensures |n.args| >= Engine.ArgsRead(n) { assert Shape(fns, n); }
  }

  /** The whole pipeline as the source runs it. It demands nothing of the text: whatever
      compiles can be run without ever missing an argument. */
  method CompileAndRun(src: string, host: Host, limits: Limits) returns (result: RunResult)
    ensures result == RunSource(src, host, limits)
  {
    hide Compiler.Compile, Semantics.Execute, Semantics.Functions;
    var compiled := Compiler.CompileSource(src);
    if compiled.root.None? || compiled.diags != [] { return NotRun(compiled.diags); }
    var root := compiled.root.value;
    SourceIsWellFormed(src, root);
    ShapedIsIndexable(Functions(root), Nodes(root));
    var outcome := Engine.Execute(root, host, limits);
    return Ran(compiled.diags, outcome);
  }

  lemma SourceIsWellFormed(src: string, root: Node)
    requires Compiler.Ok(Compiler.Compile(src)) && Compiler.Compile(src).root == Some(root)
    ensures WellFormed(Functions(root), Nodes(root))
  {
    CompiledIsWellFormed(Parse(src), root);
  }

  /** Whatever the source text, host, cancel flag and limits: a program that is run at all is
      never undefined, its trace has the shape of a complete run, every event is about one of
      its own nodes, a fault about a literal is one that this literal must cause and never one of
      range, and steps, motion and turning keep within what the step limit allows. */
  lemma {:induction false} EverySourceRunsSafely(src: string, host: Host, limits: Limits)
    requires RunSource(src, host, limits).Ran?
    ensures var o := RunSource(src, host, limits).outcome;
            && WellShaped(o)
            && Starts(o.trace) <= limits.maxTotalSteps
            && 0 <= Millis(o.trace) <= 10000 * limits.maxTotalSteps
            && 0 <= Degrees(o.trace) <= 3600 * limits.maxTotalSteps
    ensures var root := Compiler.Compile(src).root.value;
            AllLegit(World(host, limits, Functions(root)), Nodes(root), RunSource(src, host, limits).outcome.trace)
  {
    hide Compiler.Compile, Semantics.Execute, Semantics.Functions, Nodes, WellShaped, Starts, Millis, Degrees;
    var root := Compiler.Compile(src).root.value;
    SourceIsWellFormed(src, root);
    WellFormedRunsAreSafe(host, limits, root);
    RunsAreWellShaped(host, limits, root);
    RunsAreBounded(host, limits, root);
  }

  /** In any run, two NodeStart events carry the same identifier exactly when they come from the
      same node of the program; and the identifier is that node's pre-order position. */
  lemma {:induction false} SameIdSameNode(src: string, host: Host, limits: Limits, i: nat, j: nat)
    requires RunSource(src, host, limits).Ran?
    requires var t := RunSource(src, host, limits).outcome.trace; i < |t| && j < |t| && t[i].NodeStart? && t[j].NodeStart?
    ensures var t, root := RunSource(src, host, limits).outcome.trace, Compiler.Compile(src).root.value;
            && (t[i].node.id == t[j].node.id <==> t[i].node == t[j].node)
            && t[i].node.id < |PreOrder(root)| && PreOrder(root)[t[i].node.id] == t[i].node
  {
    hide Compiler.Compile, Semantics.Execute, Semantics.Functions, Nodes, Starts, Highlightable;
    var t, root := RunSource(src, host, limits).outcome.trace, Compiler.Compile(src).root.value;
    SourceIsWellFormed(src, root);
    WellFormedRunsAreSafe(host, limits, root);
    assert Legit(World(host, limits, Functions(root)), Nodes(root), t[i]);
    assert Legit(World(host, limits, Functions(root)), Nodes(root), t[j]);
    Blame.AnnouncedAreHighlightable(host, limits, root, i);
    Blame.AnnouncedAreHighlightable(host, limits, root, j);
    var raw := RootIsNumbered(src, root);
    IdsAreUnique(raw, t[i].node, t[j].node);
  }

  lemma RootIsNumbered(src: string, root: Node) returns (raw: Node)
    requires Compiler.Ok(Compiler.Compile(src)) && Compiler.Compile(src).root == Some(root)
    ensures root == Compiler.Number(raw, 0).0
  {
    hide Compiler.Number, Compiler.CompileTops, Compiler.CollectUpTo;
    var p := Parse(src);
    OkIsClean(p);
    raw := Compiler.RootOf(p.exprs, Compiler.CompileTops(Compiler.TopsOf(p.exprs), ArityOf(p)).nodes).value;
  }

  /** What an event that is about a node is about. */
  function NodeOf(item: Item): Option<Node> {
    match item
    case NodeStart(n) => Some(n)
    case NodeDone(n) => Some(n)
    case NodeSkipped(n) => Some(n)
    case NodeError(n, _) => Some(n)
    case _ => None
  }

  /** The events of a run that are about nodes which are not highlightable carry identifier 0, and
      are skips and errors only. */
  lemma {:induction false} QuietEventsCarryZero(src: string, host: Host, limits: Limits, i: nat)
    requires RunSource(src, host, limits).Ran?
    requires i < |RunSource(src, host, limits).outcome.trace|
    requires var d := NodeOf(RunSource(src, host, limits).outcome.trace[i]); d.Some? && !Highlightable(d.value.kind)
    ensures var item := RunSource(src, host, limits).outcome.trace[i];
            NodeOf(item).value.id == 0 && (item.NodeSkipped? || item.NodeError?)
  {
    hide Compiler.Compile, Semantics.Execute, Semantics.Functions, Nodes, Starts, Highlightable;
    var t, root := RunSource(src, host, limits).outcome.trace, Compiler.Compile(src).root.value;
    SourceIsWellFormed(src, root);
    WellFormedRunsAreSafe(host, limits, root);
    assert Legit(World(host, limits, Functions(root)), Nodes(root), t[i]);
    if t[i].NodeStart? || t[i].NodeDone? { Blame.AnnouncedAreHighlightable(host, limits, root, i); }
    CompiledFrom(src);
    CompiledIdsOfOthers(Parse(src), root, NodeOf(t[i]).value);
  }

  lemma CompiledFrom(src: string)
    ensures Compiler.Compile(src) == Compiler.CompileProgram(Parse(src))
  {
  }
}
