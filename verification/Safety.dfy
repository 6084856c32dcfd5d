// Well-formed programs cannot go structurally wrong: no argument is ever missing, every
// call finds its function, and a literal argument never fails its range check
// (src/engine.cpp:78-113, 119-324; include/cardcode/ast.hpp:54-62).

module Safety {
  import opened Ast
  import opened Tree
  import opened Semantics
  import opened Programs
  import opened Names

  predicate IsLiteral(n: Node) { n.kind == IntegerLiteral }

  predicate LiteralWithin(n: Node, lo: int, hi: int) {
    IsLiteral(n) ==> n.nums != [] && lo <= n.nums[0] <= hi
  }

  /** The operands and literal ranges a node must have for its kind; `resolved` says that its
      callee exists and takes as many arguments. */
  predicate ShapeWith(n: Node, resolved: bool) {
    match n.kind
    case Repeat => |n.args| == 1 && LiteralWithin(n.args[0], 0, 100)
    case When | While | DefineVar | SetVar | Light => |n.args| == 1
    case If => |n.args| == 3
    case Call => resolved
    case Drive | Backward =>
      |n.args| == 2 && LiteralWithin(n.args[0], 0, 100) && LiteralWithin(n.args[1], 0, 10000)
    case TurnLeft | TurnRight => |n.args| == 1 && LiteralWithin(n.args[0], 0, 3600)
    case Wait => |n.args| == 1 && LiteralWithin(n.args[0], 0, 10000)
    case Compare => |n.args| == 2 && IsComparison(n.op)
    case BooleanOp => IsBooleanOp(n.op) && if n.op == "not" then |n.args| == 1 else |n.args| >= 2
    case Arithmetic => IsArithmetic(n.op) && if n.op == "-" || n.op == "/" then |n.args| == 2 else |n.args| >= 2
    case IntegerLiteral | BooleanLiteral => |n.nums| == 1
    case ColorLiteral => |n.nums| == 1 && 0 <= n.nums[0] <= 5
    case _ => n.args == []
  }

  predicate Shape(fns: map<string, Node>, n: Node) {
    ShapeWith(n, n.op in fns && |fns[n.op].params| == |n.args|)
  }

  ghost predicate WellFormed(fns: map<string, Node>, code: set<Node>) {
    forall n :: n in code ==> Shape(fns, n)
  }

  /** A literal of any kind, and its value. */
  predicate IsConstant(n: Node) {
    n.kind == IntegerLiteral || n.kind == BooleanLiteral || n.kind == ColorLiteral
  }

  function ConstantOf(n: Node): Value
    requires IsConstant(n)
  {
    match n.kind
    case IntegerLiteral => IntV(if n.nums == [] then 0 else n.nums[0])
    case BooleanLiteral => BoolV(n.nums != [] && n.nums[0] != 0)
    case _ => ColorV(if n.nums == [] then 0 else n.nums[0])
  }

  /** The operand can have such a value: it is computed, or it is a literal of that value. */
  predicate MayBe(n: Node, v: Value) {
    IsConstant(n) ==> v == ConstantOf(n)
  }

  /** The literals among a node's operands allow the fault. A range fault blames no literal, since
      the compiler has checked those; a repeat limit blames one that is over the limit; a fault of
      type or division blames exactly literals of a wrong type, or a zero. */
  predicate Excusable(w: World, n: Node, fault: Fault) {
    match fault
    case UndefinedFunction => false
    case SpeedRange => |n.args| == 2 && !IsLiteral(n.args[0])
    case DurationRange => n.args != [] && !IsLiteral(n.args[|n.args| - 1])
    case DegreesRange | NegativeRepeat => n.args != [] && !IsLiteral(n.args[0])
    case RepeatLimit => n.args != [] && (IsLiteral(n.args[0]) ==> n.args[0].nums != [] && n.args[0].nums[0] > w.limits.maxRepeatCount)
    case ExpectedInteger | ArithmeticOperands | CompareOperands => exists k :: 0 <= k < |n.args| && !IsLiteral(n.args[k])
    case ExpectedColor => |n.args| == 1 && n.args[0].kind != ColorLiteral
    case DivisionByZero => ZeroDivides(n)
    case _ => true
  }

  /** A division whose operands can be a number and then zero. */
  predicate ZeroDivides(n: Node) {
    n.op == "/" && |n.args| == 2 && (IsConstant(n.args[0]) ==> IsLiteral(n.args[0])) && MayBe(n.args[1], IntV(0))
  }

  /** An entry about a node is about a node of the program, and its fault is excusable. */
  predicate Legit(w: World, code: set<Node>, item: Item) {
    match item
    case NodeStart(n) => n in code
    case NodeDone(n) => n in code
    case NodeSkipped(n) => n in code
    case NodeError(n, fault) => n in code && Excusable(w, n, fault)
    case _ => true
  }

  predicate AllLegit(w: World, code: set<Node>, t: Trace) {
    forall i :: 0 <= i < |t| ==> Legit(w, code, t[i])
  }

  predicate Safe(w: World, code: set<Node>, m: Machine) {
    !m.status.Stuck? && AllLegit(w, code, m.trace)
  }

  lemma LegitPush(w: World, code: set<Node>, t: Trace, item: Item)
    requires AllLegit(w, code, t) && Legit(w, code, item)
    ensures AllLegit(w, code, t + [item])
  {
  }

  /** Evaluating a literal is one poll and its value. */
  lemma {:induction false} LiteralEvaluates(w: World, n: Node, m: Machine, sc: Scope)
    requires IsConstant(n) && m.status.Running?
    ensures var polled := m.(polls := m.polls + 1);
            Eval(w, n, m, sc) == if w.host.cancel(m.polls, m.trace) then Out(NoneV, polled.(status := Cancelled), sc)
                                 else Out(ConstantOf(n), polled, sc)
  {
  }

  /** A literal operand's value is the literal. */
  lemma LiteralValue(w: World, n: Node, m: Machine, sc: Scope)
    requires IsConstant(n) && m.status.Running?
    ensures var r := Eval(w, n, m, sc); r.m.status.Running? ==> r.v == ConstantOf(n)
  {
  }

  /** The values of the operands evaluated so far are the literals' where those are literals. */
  predicate LiteralsRead(n: Node, c: Ctl) {
    match c
    case Operands(vals) =>
      && (forall k :: 0 <= k < |vals| && k < |n.args| ==> MayBe(n.args[k], vals[k]))
      && (n.kind == Arithmetic ==> forall k :: 0 <= k < |vals| ==> vals[k].IntV?)
    case Failing(ExpectedInteger) => exists k :: 0 <= k < |n.args| && !IsLiteral(n.args[k])
    case Failing(ArithmeticOperands) => exists k :: 0 <= k < |n.args| && !IsLiteral(n.args[k])
    case Failing(DivisionByZero) => ZeroDivides(n)
    case Failing(_) => false
    case _ => true
  }

  lemma FinishSafe(w: World, n: Node, vals: seq<Value>, m: Machine, sc: Scope)
    requires Shape(w.fns, n) && |vals| == Wanted(n) && LiteralsRead(n, Operands(vals))
    ensures var move := Finish(w, n, vals, m, sc);
            && !move.Wrong?
            && (move.Raise? ==> Excusable(w, n, move.fault))
            && (move.Perform? ==> !move.next.Operands? && !move.next.Failing?)
            && (move.Perform? && move.e.Skip? ==> move.e.node in n.args || move.e.node in n.children)
  {
    hide Reading, FoldArith, Lookup, Defined, BindParams, Holds;
  }

  lemma PlanSafe(w: World, n: Node, c: Ctl, m: Machine, sc: Scope)
    requires Shape(w.fns, n) && Fits(n, c) && LiteralsRead(n, c)
    ensures var move := Plan(w, n, c, m, sc);
            && !move.Wrong?
            && (move.Raise? ==> Excusable(w, n, move.fault))
            && (move.Perform? ==> LiteralsRead(n, move.next))
            && (move.Perform? && move.e.Skip? ==> move.e.node in n.args || move.e.node in n.children)
  {
    hide Finish;
    if c.Operands? && |c.vals| == Wanted(n) { FinishSafe(w, n, c.vals, m, sc); }
  }

  lemma FeedSafe(w: World, n: Node, c: Ctl, m: Machine, sc: Scope, v: Value)
    requires Shape(w.fns, n) && Fits(n, c) && LiteralsRead(n, c) && Plan(w, n, c, m, sc).Visit?
    requires MayBe(Plan(w, n, c, m, sc).child, v)
    ensures LiteralsRead(n, Feed(n, c, v))
  {
    hide Finish;
    if c.Operands? && |c.vals| == Wanted(n) { FinishSensible(w, n, c.vals, m, sc); }
  }

  lemma AppliedSafe(w: World, code: set<Node>, e: Effect, m: Machine, sc: Scope)
    requires Safe(w, code, m) && (e.Skip? ==> e.node in code)
    ensures Safe(w, code, Applied(e, m, sc).0)
  {
  }

  lemma {:induction false} EvalSafe(w: World, n: Node, m: Machine, sc: Scope, code: set<Node>)
    requires Closed(w, code) && WellFormed(w.fns, code) && n in code
    requires Safe(w, code, m)
    ensures Safe(w, code, Eval(w, n, m, sc).m)
    decreases Remaining(w, m), n, 9, 0, 0
  {
    hide Run, Closed, WellFormed, AllLegit, Highlightable;
    var polled := m.(polls := m.polls + 1);
    if !m.status.Running? || w.host.cancel(m.polls, m.trace) {
    } else if !Highlightable(n.kind) {
      RunSafe(w, n, Begin(n.kind), polled, sc, code);
    } else if m.steps >= w.limits.maxTotalSteps {
      LegitPush(w, code, m.trace, NodeError(n, StepLimit));
    } else {
      var begun := polled.(steps := m.steps + 1, trace := m.trace + [NodeStart(n)]);
      LegitPush(w, code, m.trace, NodeStart(n));
      RunSafe(w, n, Begin(n.kind), begun, sc, code);
      LegitPush(w, code, Run(w, n, Begin(n.kind), begun, sc).m.trace, NodeDone(n));
    }
  }

  lemma {:induction false} RunSafe(w: World, n: Node, c: Ctl, m: Machine, sc: Scope, code: set<Node>)
    requires Closed(w, code) && WellFormed(w.fns, code) && n in code
    requires Fits(n, c) && LiteralsRead(n, c) && (c.Callee? ==> c.fn in code)
    requires m.status.Running? && Safe(w, code, m)
    ensures Safe(w, code, Run(w, n, c, m, sc).m)
    decreases Remaining(w, m) + Weight(n), n, Stage(c), Left(c), Todo(n, c)
  {
    hide Plan, Feed, Fits, Eval, Applied, Stage, Left, Todo, Highlightable, LiteralsRead, Shape, AllLegit, Closed, Excusable;
    PlanSensible(w, n, c, m, sc);
    PlanSafe(w, n, c, m, sc);
    match Plan(w, n, c, m, sc)
    case Return(_) =>
    case Raise(fault) => LegitPush(w, code, m.trace, NodeError(n, fault));
    case Wrong =>
    case Visit(child) =>
      MembersOf(w, code, n, child);
      EvalSafe(w, child, m, sc, code);
      var r := Eval(w, child, m, sc);
      FeedSensible(n, c, r.v);
      if r.m.status.Running? {
        if IsConstant(child) { LiteralValue(w, child, m, sc); }
        FeedSafe(w, n, c, m, sc, r.v);
        RunSafe(w, n, Feed(n, c, r.v), r.m, r.sc, code);
      }
    case Body(child) =>
      BodySensible(n, c, c.frame, c.last);
      MembersOf(w, code, c.fn, child);
      EvalSafe(w, child, m, Local(c.frame), code);
      var r := Eval(w, child, m, Local(c.frame));
      BodySensible(n, c, r.sc.vars, r.v);
      CalleeReadsNothing(n, c, r.sc.vars, r.v);
      if r.m.status.Running? { RunSafe(w, n, Callee(c.fn, c.i + 1, r.sc.vars, r.v), r.m, sc, code); }
    case Perform(e, next) =>
      AppliedGrows(e, m, sc);
      PlanEnters(w, n, c, m, sc);
      if e.Skip? { MembersOf(w, code, n, e.node); }
      AppliedSafe(w, code, e, m, sc);
      FunctionsAreCode(w, code);
      RunSafe(w, n, next, Applied(e, m, sc).0, Applied(e, m, sc).1, code);
  }

  lemma CalleeReadsNothing(n: Node, c: Ctl, frame: Vars, last: Value)
    requires c.Callee?
    ensures LiteralsRead(n, Callee(c.fn, c.i + 1, frame, last))
  {
  }

  /** A well-formed program never runs into undefined behaviour, whatever the host, the
      limits and the cancel flag; all its events are about its own nodes; no call fails to
      find its function; no range error is about a literal; and any other fault about a literal is one
      that this literal must cause. */
  lemma {:induction false} WellFormedRunsAreSafe(host: Host, limits: Limits, root: Node)
    requires WellFormed(Functions(root), Nodes(root))
    ensures var o := Execute(host, limits, root);
            !o.error.Stuck? && AllLegit(World(host, limits, Functions(root)), Nodes(root), o.trace)
  {
    hide Eval, Functions, WellFormed;
    var w := World(host, limits, Functions(root));
    ProgramIsClosed(w, root);
    EvalSafe(w, root, START, Top, Nodes(root));
  }
}
