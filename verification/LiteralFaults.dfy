// Literals that must fail at run time although they compile: a repeat count over the limit, and
// an operand of the wrong type (src/compiler.cpp:251-255; src/engine.cpp:130-137, 249-255, 301-314).

module LiteralFaults {
  import opened Ast
  import opened Tree
  import opened Semantics
  import opened TraceGrammar
  import opened TraceTheorems
  import opened Safety
  import opened Names
  import opened Options
  import Blame

  /** A literal operand is read as its value, at the cost of one poll. */
  lemma {:induction false} LiteralIsRead(w: World, n: Node, vals: seq<Value>, m: Machine, sc: Scope)
    requires |vals| < Wanted(n) && |vals| < |n.args| && IsConstant(n.args[|vals|]) && m.status.Running?
    ensures var c := n.args[|vals|]; var polled := m.(polls := m.polls + 1);
            Run(w, n, Operands(vals), m, sc)
            == if w.host.cancel(m.polls, m.trace) then Out(NoneV, polled.(status := Cancelled), sc)
               else Run(w, n, Accept(n, vals, ConstantOf(c)), polled, sc)
  {
    var c := n.args[|vals|];
    LiteralEvaluates(w, c, m, sc);
    hide Eval, Accept;
    assert Plan(w, n, Operands(vals), m, sc) == Visit(c);
  }

  // ---- nodes that fail whenever they are started -----------------------------------------------------

  /** Once `n` has started, the next entry is the failure of `x`, that is of `n` itself or of its first
      operand, unless the run is cancelled there. */
  ghost predicate Doomed(w: World, n: Node, x: Node, fault: Fault) {
    && Highlightable(n.kind)
    && forall m: Machine, sc: Scope :: m.status.Running? ==> FailsOrStops(Run(w, n, Begin(n.kind), m, sc), m, x, fault)
  }

  predicate FailsOrStops(r: Out, m: Machine, x: Node, fault: Fault) {
    || (r.m.status == Errored(x.span, fault) && r.m.trace == m.trace + [NodeError(x, fault)])
    || (r.m.status == Cancelled && r.m.trace == m.trace)
  }

  /** Every start of `n` but the last entry is followed at once by that error. */
  predicate FailsNext(t: Trace, n: Node, x: Node, fault: Fault) {
    forall i :: 0 <= i < |t| - 1 && t[i] == NodeStart(n) ==> t[i + 1] == NodeError(x, fault)
  }

  /** ... and if the last entry is a start of `n`, the run is cancelled there. */
  ghost predicate Follows(m: Machine, n: Node, x: Node, fault: Fault) {
    FailsNext(m.trace, n, x, fault) && (m.trace != [] && Last(m.trace) == NodeStart(n) ==> m.status.Cancelled?)
  }

  lemma FollowsPush(m: Machine, n: Node, x: Node, fault: Fault, item: Item, m': Machine)
    requires Follows(m, n, x, fault) && m.status.Running? && item != NodeStart(n) && m'.trace == m.trace + [item]
    ensures Follows(m', n, x, fault)
  {
  }

  lemma AppliedFollows(e: Effect, m: Machine, sc: Scope, n: Node, x: Node, fault: Fault)
    requires Follows(m, n, x, fault) && m.status.Running?
    ensures Follows(Applied(e, m, sc).0, n, x, fault)
  {
    match e
    case Skip(node) => FollowsPush(m, n, x, fault, NodeSkipped(node), Applied(e, m, sc).0);
    case Emit(command) => FollowsPush(m, n, x, fault, Act(command), Applied(e, m, sc).0);
    case Read(sensor, v) => FollowsPush(m, n, x, fault, Sensed(sensor, v), Applied(e, m, sc).0);
    case _ =>
  }

  lemma {:induction false} EvalFollows(w: World, d: Node, m: Machine, sc: Scope, n: Node, x: Node, fault: Fault)
    requires Doomed(w, n, x, fault) && Follows(m, n, x, fault)
    ensures Follows(Eval(w, d, m, sc).m, n, x, fault)
    decreases Remaining(w, m), d, 9, 0, 0
  {
    hide Run, Highlightable, Doomed, Follows;
    var polled := m.(polls := m.polls + 1);
    SameTrace(m, polled, n, x, fault);
    if !m.status.Running? {
    } else if w.host.cancel(m.polls, m.trace) {
      SameTrace(m, polled.(status := Cancelled), n, x, fault);
    } else if !Highlightable(d.kind) {
      RunFollows(w, d, Begin(d.kind), polled, sc, n, x, fault);
    } else if m.steps >= w.limits.maxTotalSteps {
      FollowsPush(m, n, x, fault, NodeError(d, StepLimit), FailAt(polled, d, StepLimit));
    } else {
      var begun := polled.(steps := m.steps + 1, trace := m.trace + [NodeStart(d)]);
      if d == n {
        DoomedFollows(w, m, begun, sc, n, x, fault);
      } else {
        FollowsPush(m, n, x, fault, NodeStart(d), begun);
        RunFollows(w, d, Begin(d.kind), begun, sc, n, x, fault);
        var r := Run(w, d, Begin(d.kind), begun, sc).m;
        if r.status.Running? { FollowsPush(r, n, x, fault, NodeDone(d), r.(trace := r.trace + [NodeDone(d)])); }
      }
    }
  }

  lemma SameTrace(m: Machine, m': Machine, n: Node, x: Node, fault: Fault)
    requires Follows(m, n, x, fault) && m.trace == m'.trace && (m.status == m'.status || (m.status.Running? && m'.status.Cancelled?))
    ensures Follows(m', n, x, fault)
  {
  }

  lemma DoomedFollows(w: World, m: Machine, begun: Machine, sc: Scope, n: Node, x: Node, fault: Fault)
    requires Doomed(w, n, x, fault) && Follows(m, n, x, fault) && m.status.Running?
    requires begun.status.Running? && begun.trace == m.trace + [NodeStart(n)]
    ensures !Run(w, n, Begin(n.kind), begun, sc).m.status.Running?
    ensures Follows(Run(w, n, Begin(n.kind), begun, sc).m, n, x, fault)
  {
    hide Run;
    var r := Run(w, n, Begin(n.kind), begun, sc);
    assert FailsOrStops(r, begun, x, fault);
    StopFollows(m, begun, r, n, x, fault);
  }

  lemma StopFollows(m: Machine, begun: Machine, r: Out, n: Node, x: Node, fault: Fault)
    requires Follows(m, n, x, fault) && m.status.Running? && begun.trace == m.trace + [NodeStart(n)]
    requires FailsOrStops(r, begun, x, fault)
    ensures !r.m.status.Running? && Follows(r.m, n, x, fault)
  {
    hide Last;
    var t := r.m.trace;
    forall i | 0 <= i < |t| - 1 && t[i] == NodeStart(n) ensures t[i + 1] == NodeError(x, fault) {
      if i < |m.trace| { LastIsNot(m, n, x, fault); assert i < |m.trace| - 1 && m.trace[i] == t[i] && m.trace[i + 1] == t[i + 1]; }
    }
    LastOf(m, r.m, n, x, fault);
  }

  lemma LastIsNot(m: Machine, n: Node, x: Node, fault: Fault)
    requires Follows(m, n, x, fault) && m.status.Running? && m.trace != []
    ensures m.trace[|m.trace| - 1] != NodeStart(n)
  {
  }

  lemma LastOf(m: Machine, r: Machine, n: Node, x: Node, fault: Fault)
    requires r.status.Cancelled? || (r.trace != [] && r.trace[|r.trace| - 1] == NodeError(x, fault))
    ensures r.trace != [] && Last(r.trace) == NodeStart(n) ==> r.status.Cancelled?
  {
  }

  lemma {:induction false} RunFollows(w: World, d: Node, c: Ctl, m: Machine, sc: Scope, n: Node, x: Node, fault: Fault)
    requires Doomed(w, n, x, fault) && Follows(m, n, x, fault) && m.status.Running? && Fits(d, c)
    ensures Follows(Run(w, d, c, m, sc).m, n, x, fault)
    decreases Remaining(w, m) + Weight(d), d, Stage(c), Left(c), Todo(d, c)
  {
    hide Plan, Feed, Fits, Eval, Applied, Stage, Left, Todo, Highlightable, Doomed, Follows;
    PlanSensible(w, d, c, m, sc);
    match Plan(w, d, c, m, sc)
    case Return(_) =>
    case Raise(f) => FollowsPush(m, n, x, fault, NodeError(d, f), FailAt(m, d, f));
    case Wrong => StuckFollows(m, n, x, fault);
    case Visit(child) =>
      EvalFollows(w, child, m, sc, n, x, fault);
      var r := Eval(w, child, m, sc);
      FeedSensible(d, c, r.v);
      if r.m.status.Running? { RunFollows(w, d, Feed(d, c, r.v), r.m, r.sc, n, x, fault); }
    case Body(child) =>
      BodySensible(d, c, c.frame, c.last);
      EvalFollows(w, child, m, Local(c.frame), n, x, fault);
      var r := Eval(w, child, m, Local(c.frame));
      BodySensible(d, c, r.sc.vars, r.v);
      if r.m.status.Running? { RunFollows(w, d, Callee(c.fn, c.i + 1, r.sc.vars, r.v), r.m, sc, n, x, fault); }
      else { SameTrace(r.m, r.m.(depth := r.m.depth - 1), n, x, fault); }
    case Perform(e, next) =>
      AppliedGrows(e, m, sc);
      AppliedFollows(e, m, sc, n, x, fault);
      RunFollows(w, d, next, Applied(e, m, sc).0, Applied(e, m, sc).1, n, x, fault);
  }

  lemma StuckFollows(m: Machine, n: Node, x: Node, fault: Fault)
    requires Follows(m, n, x, fault) && m.status.Running?
    ensures Follows(m.(status := Stuck), n, x, fault)
  {
  }

  /** In every run each start of a doomed node is followed at once by its error, or by the safety
      stop of a cancelled run. */
  lemma {:induction false} DoomedNodesFail(host: Host, limits: Limits, root: Node, n: Node, x: Node, fault: Fault, i: nat)
    requires Doomed(World(host, limits, Functions(root)), n, x, fault)
    requires var o := Execute(host, limits, root); !o.error.Stuck? && i < |o.trace| && o.trace[i] == NodeStart(n)
    ensures var o := Execute(host, limits, root);
            && i + 1 < |o.trace|
            && (o.trace[i + 1] == NodeError(x, fault) || (o.error.Cancelled? && i + 1 == |o.trace| - 2))
  {
    hide Eval, Functions, Doomed;
    var w := World(host, limits, Functions(root));
    EvalFollows(w, root, START, Top, n, x, fault);
    var m, t := Eval(w, root, START, Top).m, Execute(host, limits, root).trace;
    assert m.trace <= t;
    assert forall k :: 0 <= k < |m.trace| ==> t[k] == m.trace[k];
  }

  // ---- operands that are all literals ----------------------------------------------------------------

  predicate AllConstants(n: Node) {
    forall k :: 0 <= k < |n.args| ==> IsConstant(n.args[k])
  }

  predicate AllIntegers(n: Node) {
    forall k :: 0 <= k < |n.args| ==> IsLiteral(n.args[k])
  }

  /** Where the first `k` operands, all literals, bring the node. */
  function After(n: Node, k: nat): (c: Ctl)
    requires k <= |n.args| && AllConstants(n)
    ensures c.Operands? ==> |c.vals| == k
    ensures !c.Callee?
  {
    if k == 0 then Operands([])
    else
      var c := After(n, k - 1);
      if c.Operands? then Accept(n, c.vals, ConstantOf(n.args[k - 1])) else c
  }

  /** Literal operands are read one after the other, until one makes the node fail. */
  lemma {:induction false} ConstantsRead(w: World, n: Node, k: nat, m: Machine, sc: Scope) returns (j: nat, stopped: bool)
    requires k <= |n.args| && AllConstants(n) && k <= Wanted(n) && m.status.Running? && n.kind != BooleanOp
    ensures j <= k && Fits(n, After(n, k))
    ensures var r, polled := Run(w, n, Operands([]), m, sc), m.(polls := m.polls + j);
            if stopped then r == Out(NoneV, polled.(status := Cancelled), sc) && j > 0 && w.host.cancel(m.polls + j - 1, m.trace)
            else r == Run(w, n, After(n, k), polled, sc)
  {
    hide Run, Eval;
    if k == 0 {
      j, stopped := 0, false;
    } else {
      j, stopped := ConstantsRead(w, n, k - 1, m, sc);
      var c := After(n, k - 1);
      if !stopped && c.Operands? {
        var polled := m.(polls := m.polls + j);
        LiteralIsRead(w, n, c.vals, polled, sc);
        j, stopped := j + 1, w.host.cancel(m.polls + j, m.trace);
      }
      FitsAfter(n, k);
    }
  }

  lemma {:induction false} FitsAfter(n: Node, k: nat)
    requires k <= |n.args| && AllConstants(n) && k <= Wanted(n) && n.kind != BooleanOp
    ensures Fits(n, After(n, k)) && (After(n, k).Operands? || After(n, k).Failing?)
  {
    if k > 0 { FitsAfter(n, k - 1); }
  }

  /** An operand that must be an integer: the node goes on exactly if all of them are. */
  lemma {:induction false} IntegersWanted(n: Node, k: nat)
    requires k <= |n.args| && AllConstants(n) && Raises(n.kind, ExpectedInteger)
    ensures After(n, k) == Failing(ExpectedInteger) <==> exists i :: 0 <= i < k && !IsLiteral(n.args[i])
    ensures After(n, k).Operands? || After(n, k) == Failing(ExpectedInteger)
  {
    if k > 0 { IntegersWanted(n, k - 1); }
  }

  lemma {:induction false} MistypedIsDoomed(w: World, n: Node)
    requires Raises(n.kind, ExpectedInteger) && AllConstants(n) && !AllIntegers(n) && Wanted(n) == |n.args|
    ensures Doomed(w, n, n, ExpectedInteger)
  {
    hide Run, After;
    IntegersWanted(n, |n.args|);
    forall m: Machine, sc: Scope | m.status.Running?
      ensures FailsOrStops(Run(w, n, Begin(n.kind), m, sc), m, n, ExpectedInteger)
    {
      var j, stopped := ConstantsRead(w, n, |n.args|, m, sc);
      if !stopped { Raised(w, n, Failing(ExpectedInteger), m.(polls := m.polls + j), sc); }
    }
  }

  /** Operands of a comparison are read whatever they are. */
  lemma {:induction false} CompareAfter(n: Node, k: nat)
    requires k <= |n.args| && AllConstants(n) && (n.kind == Compare || n.kind == Light)
    ensures After(n, k).Operands?
    ensures forall i :: 0 <= i < k ==> After(n, k).vals[i] == ConstantOf(n.args[i])
  {
    if k > 0 { CompareAfter(n, k - 1); }
  }

  /** A computation stops at the first operand that is no integer, or at a zero divisor. */
  lemma {:induction false} ArithmeticAfter(n: Node, k: nat)
    requires k <= |n.args| && AllConstants(n) && n.kind == Arithmetic && IsArithmetic(n.op) && (n.op == "/" ==> |n.args| == 2)
    ensures After(n, k) == Failing(ArithmeticOperands) <==> exists i :: 0 <= i < k && !IsLiteral(n.args[i])
    ensures After(n, k) == Failing(DivisionByZero) <==> k == 2 && ZeroDivides(n) && IsLiteral(n.args[1])
    ensures After(n, k).Operands? || After(n, k) == Failing(ArithmeticOperands) || After(n, k) == Failing(DivisionByZero)
    ensures After(n, k).Operands? ==> forall i :: 0 <= i < k ==> After(n, k).vals[i] == ConstantOf(n.args[i])
  {
    if k > 0 {
      ArithmeticAfter(n, k - 1);
      hide ZeroDivides;
      var c, v := After(n, k - 1), ConstantOf(n.args[k - 1]);
      assert v.IntV? <==> IsLiteral(n.args[k - 1]);
      if c.Operands? && v.IntV? {
        assert Accept(n, c.vals, v) == Failing(DivisionByZero) <==> k == 2 && n.op == "/" && v.i == 0;
        if k == 2 { Divides(n); }
      }
    }
  }

  lemma Divides(n: Node)
    requires AllConstants(n) && |n.args| >= 2 && IsLiteral(n.args[0]) && IsLiteral(n.args[1])
    ensures ZeroDivides(n) <==> n.op == "/" && |n.args| == 2 && ConstantOf(n.args[1]).i == 0
  {
  }

  /** What a comparison or computation of literals fails with, if it does. */
  function OperationFault(n: Node): (f: Option<Fault>) {
    if n.kind == Compare then (if AllIntegers(n) then None else Some(CompareOperands))
    else if !AllIntegers(n) then Some(ArithmeticOperands)
    else if ZeroDivides(n) then Some(DivisionByZero)
    else None
  }

  predicate IsLiteralOperation(n: Node) {
    AllConstants(n) && ShapeWith(n, false) && (n.kind == Compare || n.kind == Arithmetic)
  }

  /** Evaluated from any state, unless the run is cancelled there, it fails exactly with that fault and
      otherwise has a value. */
  lemma {:induction false} OperationEvaluates(w: World, n: Node, m: Machine, sc: Scope) returns (j: nat)
    requires IsLiteralOperation(n) && m.status.Running?
    ensures var r, polled := Eval(w, n, m, sc), m.(polls := m.polls + j);
            || (r == Out(NoneV, polled.(status := Cancelled), sc) && j > 0 && w.host.cancel(m.polls + j - 1, m.trace))
            || match OperationFault(n)
               case Some(fault) => r == Out(NoneV, FailAt(polled, n, fault), sc)
               case None => r == Out(r.v, polled, sc)
  {
    hide Run, After, ConstantOf;
    if w.host.cancel(m.polls, m.trace) {
      j := 1;
    } else {
      var stopped: bool;
      var polled := m.(polls := m.polls + 1);
      j, stopped := ConstantsRead(w, n, |n.args|, polled, sc);
      if !stopped { OperationEnds(w, n, polled.(polls := polled.polls + j), sc); }
      j := j + 1;
      QuietEvaluation(w, n, m, sc);
    }
  }

  lemma QuietEvaluation(w: World, n: Node, m: Machine, sc: Scope)
    requires (n.kind == Compare || n.kind == Arithmetic) && m.status.Running? && !w.host.cancel(m.polls, m.trace)
    ensures Eval(w, n, m, sc) == Run(w, n, Operands([]), m.(polls := m.polls + 1), sc)
  {
    hide Run;
  }

  lemma {:induction false} OperationEnds(w: World, n: Node, m: Machine, sc: Scope)
    requires IsLiteralOperation(n)
    ensures Fits(n, After(n, |n.args|))
    ensures var r := Run(w, n, After(n, |n.args|), m, sc);
            match OperationFault(n)
            case Some(fault) => r == Out(NoneV, FailAt(m, n, fault), sc)
            case None => r == Out(r.v, m, sc)
  {
    hide Run, After;
    FitsAfter(n, |n.args|);
    var c := After(n, |n.args|);
    if n.kind == Compare {
      CompareAfter(n, 2);
      ComparesConstants(w, n, c.vals, m, sc);
    } else {
      ArithmeticAfter(n, |n.args|);
      if c.Failing? { Raised(w, n, c, m, sc); } else { Computes(w, n, c.vals, m, sc); }
    }
  }

  lemma ComparesConstants(w: World, n: Node, vals: seq<Value>, m: Machine, sc: Scope)
    requires n.kind == Compare && |n.args| == 2 && |vals| == 2 && AllConstants(n)
    requires vals[0] == ConstantOf(n.args[0]) && vals[1] == ConstantOf(n.args[1])
    ensures var r := Run(w, n, Operands(vals), m, sc);
            r == if AllIntegers(n) then Out(r.v, m, sc) else Out(NoneV, FailAt(m, n, CompareOperands), sc)
  {
    hide Run;
    if AllIntegers(n) { Returned(w, n, Operands(vals), m, sc); } else { Raised(w, n, Operands(vals), m, sc); }
  }

  lemma Computes(w: World, n: Node, vals: seq<Value>, m: Machine, sc: Scope)
    requires n.kind == Arithmetic && |vals| == |n.args|
    ensures var r := Run(w, n, Operands(vals), m, sc); r == Out(r.v, m, sc)
  {
    hide Run;
    Returned(w, n, Operands(vals), m, sc);
  }

  /** The operand that a node evaluates first, right after its start. */
  predicate IsFirstOperand(n: Node, x: Node) {
    n.args != [] && n.args[0] == x && Highlightable(n.kind) && n.kind != While && n.kind != Call && Wanted(n) > 0
  }

  lemma {:induction false} FirstOperandDooms(w: World, n: Node, x: Node, fault: Fault)
    requires IsFirstOperand(n, x) && IsLiteralOperation(x) && OperationFault(x) == Some(fault)
    ensures Doomed(w, n, x, fault)
  {
    hide Run, Eval, Highlightable;
    forall m: Machine, sc: Scope | m.status.Running?
      ensures FailsOrStops(Run(w, n, Begin(n.kind), m, sc), m, x, fault)
    {
      var j := OperationEvaluates(w, x, m, sc);
      FirstStops(w, n, x, m, sc);
    }
  }

  lemma FirstStops(w: World, n: Node, x: Node, m: Machine, sc: Scope)
    requires IsFirstOperand(n, x) && !Eval(w, x, m, sc).m.status.Running?
    ensures Begin(n.kind) == Operands([])
    ensures Run(w, n, Operands([]), m, sc).m == Eval(w, x, m, sc).m
  {
    hide Eval;
    assert Plan(w, n, Operands([]), m, sc) == Visit(x);
  }

  // ---- which literals doom their node ----------------------------------------------------------------

  lemma {:induction false} RepeatIsDoomed(w: World, n: Node)
    requires n.kind == Repeat && n.args != [] && n.args[0].kind == IntegerLiteral && n.args[0].nums != []
    requires n.args[0].nums[0] > w.limits.maxRepeatCount
    ensures Doomed(w, n, n, RepeatLimit)
  {
    hide Run;
    forall m: Machine, sc: Scope | m.status.Running?
      ensures FailsOrStops(Run(w, n, Begin(n.kind), m, sc), m, n, RepeatLimit)
    {
      LiteralIsRead(w, n, [], m, sc);
      var polled := m.(polls := m.polls + 1);
      var c := Operands([] + [IntV(n.args[0].nums[0])]);
      Raised(w, n, c, polled, sc);
    }
  }

  lemma Raised(w: World, n: Node, c: Ctl, m: Machine, sc: Scope)
    requires Fits(n, c) && Plan(w, n, c, m, sc).Raise?
    ensures Run(w, n, c, m, sc) == Out(NoneV, FailAt(m, n, Plan(w, n, c, m, sc).fault), sc)
  {
    hide Plan, Eval;
  }

  lemma {:induction false} LightIsDoomed(w: World, n: Node)
    requires n.kind == Light && n.args != [] && IsConstant(n.args[0]) && n.args[0].kind != ColorLiteral
    ensures Doomed(w, n, n, ExpectedColor)
  {
    hide Run;
    forall m: Machine, sc: Scope | m.status.Running?
      ensures FailsOrStops(Run(w, n, Begin(n.kind), m, sc), m, n, ExpectedColor)
    {
      LiteralIsRead(w, n, [], m, sc);
      Raised(w, n, Operands([] + [ConstantOf(n.args[0])]), m.(polls := m.polls + 1), sc);
    }
  }

  /** A literal repeat count fails exactly if it is over the limit: in every run that is not cancelled
      and that starts the node. The constant 100 of the compiler plays no part. */
  lemma {:induction false} LiteralRepeatFailsExactly(host: Host, limits: Limits, root: Node, n: Node)
    requires WellFormed(Functions(root), Nodes(root)) && n in Nodes(root)
    requires n.kind == Repeat && n.args[0].kind == IntegerLiteral
    requires var o := Execute(host, limits, root); !o.error.Cancelled? && NodeStart(n) in o.trace
    ensures NodeError(n, RepeatLimit) in Execute(host, limits, root).trace <==> n.args[0].nums[0] > limits.maxRepeatCount
  {
    hide Execute, Functions, Nodes;
    var w := World(host, limits, Functions(root));
    WellFormedRunsAreSafe(host, limits, root);
    var t := Execute(host, limits, root).trace;
    assert Shape(Functions(root), n);
    if n.args[0].nums[0] > limits.maxRepeatCount {
      RepeatIsDoomed(w, n);
      var i :| 0 <= i < |t| && t[i] == NodeStart(n);
      DoomedNodesFail(host, limits, root, n, n, RepeatLimit, i);
    }
    LegitIn(w, Nodes(root), t, NodeError(n, RepeatLimit));
  }

  lemma LegitIn(w: World, code: set<Node>, t: Trace, item: Item)
    requires AllLegit(w, code, t)
    ensures item in t ==> Legit(w, code, item)
  {
    hide Legit;
  }

  /** A light given a literal fails exactly if that is no colour. */
  lemma {:induction false} LiteralLightFailsExactly(host: Host, limits: Limits, root: Node, n: Node)
    requires WellFormed(Functions(root), Nodes(root)) && n in Nodes(root)
    requires n.kind == Light && IsConstant(n.args[0])
    requires var o := Execute(host, limits, root); !o.error.Cancelled? && NodeStart(n) in o.trace
    ensures NodeError(n, ExpectedColor) in Execute(host, limits, root).trace <==> n.args[0].kind != ColorLiteral
  {
    hide Execute, Functions, Nodes;
    var w := World(host, limits, Functions(root));
    WellFormedRunsAreSafe(host, limits, root);
    var t := Execute(host, limits, root).trace;
    assert Shape(Functions(root), n);
    if n.args[0].kind != ColorLiteral {
      LightIsDoomed(w, n);
      var i :| 0 <= i < |t| && t[i] == NodeStart(n);
      DoomedNodesFail(host, limits, root, n, n, ExpectedColor, i);
    }
    LegitIn(w, Nodes(root), t, NodeError(n, ExpectedColor));
  }

  /** A node that wants integers and is given literals fails exactly if they are not all integers. */
  lemma {:induction false} LiteralIntegerFailsExactly(host: Host, limits: Limits, root: Node, n: Node)
    requires WellFormed(Functions(root), Nodes(root)) && n in Nodes(root)
    requires Raises(n.kind, ExpectedInteger) && AllConstants(n)
    requires var o := Execute(host, limits, root); !o.error.Cancelled? && NodeStart(n) in o.trace
    ensures NodeError(n, ExpectedInteger) in Execute(host, limits, root).trace <==> !AllIntegers(n)
  {
    hide Execute, Functions, Nodes;
    var w := World(host, limits, Functions(root));
    WellFormedRunsAreSafe(host, limits, root);
    var t := Execute(host, limits, root).trace;
    assert Shape(Functions(root), n);
    if !AllIntegers(n) {
      MistypedIsDoomed(w, n);
      var i :| 0 <= i < |t| && t[i] == NodeStart(n);
      DoomedNodesFail(host, limits, root, n, n, ExpectedInteger, i);
    }
    LegitIn(w, Nodes(root), t, NodeError(n, ExpectedInteger));
  }

  /** A comparison or computation of literals that a node evaluates first fails exactly with its fault,
      in every run that is not cancelled and starts that node. */
  lemma {:induction false} LiteralOperationFailsExactly(host: Host, limits: Limits, root: Node, n: Node, x: Node, fault: Fault)
    requires WellFormed(Functions(root), Nodes(root)) && n in Nodes(root) && x in Nodes(root)
    requires IsFirstOperand(n, x) && (x.kind == Compare || x.kind == Arithmetic) && AllConstants(x)
    requires fault == CompareOperands || fault == ArithmeticOperands || fault == DivisionByZero
    requires var o := Execute(host, limits, root); !o.error.Cancelled? && NodeStart(n) in o.trace
    ensures NodeError(x, fault) in Execute(host, limits, root).trace <==> OperationFault(x) == Some(fault)
  {
    hide Execute, Functions, Nodes, Highlightable;
    var w := World(host, limits, Functions(root));
    WellFormedRunsAreSafe(host, limits, root);
    var t := Execute(host, limits, root).trace;
    assert Shape(Functions(root), x);
    ShapeAnyway(x, x.op in Functions(root) && |Functions(root)[x.op].params| == |x.args|);
    if OperationFault(x) == Some(fault) {
      FirstOperandDooms(w, n, x, fault);
      var i :| 0 <= i < |t| && t[i] == NodeStart(n);
      DoomedNodesFail(host, limits, root, n, x, fault, i);
    }
    OnlyItsFault(host, limits, root, x, fault);
  }

  lemma ShapeAnyway(n: Node, resolved: bool)
    requires n.kind != Call && ShapeWith(n, resolved)
    ensures ShapeWith(n, false)
  {
  }

  lemma {:induction false} OnlyItsFault(host: Host, limits: Limits, root: Node, x: Node, fault: Fault)
    requires WellFormed(Functions(root), Nodes(root)) && IsLiteralOperation(x)
    requires fault == CompareOperands || fault == ArithmeticOperands || fault == DivisionByZero
    ensures NodeError(x, fault) in Execute(host, limits, root).trace ==> OperationFault(x) == Some(fault)
  {
    hide Execute, Functions, Nodes, Highlightable;
    var w, t := World(host, limits, Functions(root)), Execute(host, limits, root).trace;
    WellFormedRunsAreSafe(host, limits, root);
    LegitIn(w, Nodes(root), t, NodeError(x, fault));
    RaisedIn(host, limits, root, x, fault);
  }

  lemma {:induction false} RaisedIn(host: Host, limits: Limits, root: Node, x: Node, fault: Fault)
    requires !Execute(host, limits, root).error.Stuck?
    ensures NodeError(x, fault) in Execute(host, limits, root).trace ==> Raises(x.kind, fault)
  {
    hide Execute, Raises;
    var t := Execute(host, limits, root).trace;
    if i :| 0 <= i < |t| && t[i] == NodeError(x, fault) { Blame.BlamedByFault(host, limits, root, i); }
  }

  /** A division of two literals fails exactly if the second is zero, and is exact otherwise. */
  lemma {:induction false} LiteralDivision(w: World, n: Node, x: int, y: int, m: Machine, sc: Scope)
    requires n.kind == Arithmetic && n.op == "/" && |n.args| == 2 && m.status.Running?
    requires n.args[0].kind == IntegerLiteral && n.args[0].nums == [x]
    requires n.args[1].kind == IntegerLiteral && n.args[1].nums == [y]
    requires !w.host.cancel(m.polls, m.trace) && !w.host.cancel(m.polls + 1, m.trace)
    ensures var m' := m.(polls := m.polls + 2);
            Run(w, n, Begin(n.kind), m, sc) == if y == 0 then Out(NoneV, FailAt(m', n, DivisionByZero), sc) else Out(IntV(TruncDiv(x, y)), m', sc)
  {
    hide Run;
    LiteralIsRead(w, n, [], m, sc);
    LiteralIsRead(w, n, [] + [IntV(x)], m.(polls := m.polls + 1), sc);
    var m' := m.(polls := m.polls + 2);
    if y == 0 {
      Raised(w, n, Failing(DivisionByZero), m', sc);
    } else {
      var vals := [] + [IntV(x)] + [IntV(y)];
      assert vals[..1] == [IntV(x)] && FoldArith(n.op, vals) == Apply2(n.op, FoldArith(n.op, [IntV(x)]), y) == TruncDiv(x, y);
      Returned(w, n, Operands(vals), m', sc);
    }
  }

  lemma Returned(w: World, n: Node, c: Ctl, m: Machine, sc: Scope)
    requires Fits(n, c) && Plan(w, n, c, m, sc).Return?
    ensures Run(w, n, c, m, sc) == Out(Plan(w, n, c, m, sc).v, m, sc)
  {
    hide Plan, Eval;
  }
}
