// How many nodes a run evaluates: each step pays for one round of work that is not
// itself counted as steps (src/engine.cpp:78-113, 119-349).

module Evaluations {
  import opened Ast
  import opened Tree
  import opened Semantics
  import opened Programs
  import opened Bounds

  /** The evaluations a node causes without spending a step: itself alone if its start
      is a step, otherwise itself and its operands. */
  function Own(n: Node): nat
    decreases n, 1
  {
    if Highlightable(n.kind) then 1 else 1 + OwnAll(n.args)
  }

  function OwnAll(ns: seq<Node>): nat
    decreases ns, 0
  {
    if ns == [] then 0 else Own(ns[0]) + OwnAll(ns[1..])
  }

  lemma {:induction false} OwnWithinSize(n: Node)
    ensures Own(n) <= Size(n)
    decreases n, 1
  {
    OwnAllWithinSize(n.args);
  }

  lemma {:induction false} OwnAllWithinSize(ns: seq<Node>)
    ensures OwnAll(ns) <= SizeAll(ns)
    decreases ns, 0
  {
    if ns != [] { OwnWithinSize(ns[0]); OwnAllWithinSize(ns[1..]); }
  }

  /** The evaluations control state `c` of node `n` still causes before another step is spent. */
  function Pending(w: World, n: Node, c: Ctl): nat {
    match c
    case Resolve => OwnAll(n.args) + After(w, n)
    case LoopHead => 0
    case Operands(vals) => OwnAll(Rest(n.args, |vals|)) + After(w, n)
    case Statements(i, _) => OwnAll(Rest(n.children, i))
    case Rounds(left, i) =>
      if left == 0 then 0 else OwnAll(Rest(n.children, i)) + (left - 1) * OwnAll(n.children)
    case Skipping(_) => 0
    case Branch(k) => if k < |n.args| then Own(n.args[k]) else 0
    case LoopBody(i) => OwnAll(Rest(n.children, i))
    case Callee(fn, i, _, _) => OwnAll(Rest(fn.children, i))
    case Finished(_) => 0
    case Failing(_) => 0
  }

  function Rest(ns: seq<Node>, i: nat): seq<Node> {
    if i <= |ns| then ns[i..] else []
  }

  /** What follows the operands. */
  function After(w: World, n: Node): nat {
    match n.kind
    case Repeat => w.limits.maxRepeatCount * OwnAll(n.children)
    case Do | When | While => OwnAll(n.children)
    case Call => if n.op in w.fns then OwnAll(w.fns[n.op].children) else 0
    case _ => 0
  }

  lemma RestStep(ns: seq<Node>, i: nat)
    requires i < |ns|
    ensures OwnAll(Rest(ns, i)) == Own(ns[i]) + OwnAll(Rest(ns, i + 1))
  {
    assert ns[i..][1..] == ns[i + 1..];
  }

  lemma {:induction false} OwnOfElement(ns: seq<Node>, i: nat)
    requires i < |ns|
    ensures Own(ns[i]) <= OwnAll(ns)
  {
    if i > 0 { OwnOfElement(ns[1..], i - 1); }
  }

  // ---- one step pays for one round of work -----------------------------------------------------

  lemma Distribute(x: int, y: int, k: int)
    ensures (x + y) * k == x * k + y * k
  {
  }

  lemma Monotone(x: nat, y: nat, k: nat)
    requires x <= y
    ensures x * k <= y * k
  {
    Distribute(x, y - x, k);
  }

  lemma RoundsPending(w: World, n: Node, left: nat)
    ensures Pending(w, n, Rounds(left, 0)) == left * OwnAll(n.children)
  {
    assert Rest(n.children, 0) == n.children;
    if left > 0 { Distribute(left - 1, 1, OwnAll(n.children)); }
  }

  lemma IfPending(n: Node, k: nat)
    requires k == 1 || k == 2
    requires |n.args| >= 3
    ensures Own(n.args[k]) <= OwnAll(Rest(n.args, 1))
  {
    OwnOfElement(n.args[1..], k - 1);
  }

  /** Deciding what to do next never adds to the pending work. */
  lemma FinishPending(w: World, n: Node, vals: seq<Value>, m: Machine, sc: Scope)
    requires |vals| == Wanted(n)
    ensures var move := Finish(w, n, vals, m, sc);
            move.Perform? ==> !move.e.Tick? && Pending(w, n, move.next) <= Pending(w, n, Operands(vals))
  {
    hide Reading, FoldArith, Lookup, Defined, BindParams, Holds, OwnAll, Own;
    match n.kind
    case Repeat =>
      var count := vals[0].AsInt();
      if 0 <= count <= w.limits.maxRepeatCount {
        RoundsPending(w, n, count);
        Monotone(count, w.limits.maxRepeatCount, OwnAll(n.children));
      }
    case If => if |n.args| >= 3 { IfPending(n, 1); IfPending(n, 2); }
    case Do | When | While => assert Rest(n.children, 0) == n.children;
    case Call => if n.op in w.fns { assert Rest(w.fns[n.op].children, 0) == w.fns[n.op].children; }
    case _ =>
  }

  lemma PlanPending(w: World, n: Node, c: Ctl, m: Machine, sc: Scope)
    requires Fits(n, c)
    ensures var move := Plan(w, n, c, m, sc);
            move.Perform? ==>
              Pending(w, n, move.next) <= if move.e.Tick? then OwnAll(n.args) + After(w, n) else Pending(w, n, c)
  {
    hide Finish, OwnAll, Own, After;
    match c
    case Operands(vals) => if |vals| == Wanted(n) { FinishPending(w, n, vals, m, sc); FinishSensible(w, n, vals, m, sc); }
    case Rounds(left, i) => if left > 0 { RoundsPending(w, n, left - 1); }
    case Resolve => assert Rest(n.args, 0) == n.args;
    case LoopHead => assert Rest(n.args, 0) == n.args;
    case _ =>
  }

  lemma OperandPending(w: World, n: Node, vals: seq<Value>, m: Machine, sc: Scope, v: Value)
    requires Fits(n, Operands(vals)) && Plan(w, n, Operands(vals), m, sc).Visit?
    ensures Own(Plan(w, n, Operands(vals), m, sc).child) + Pending(w, n, Accept(n, vals, v)) <= Pending(w, n, Operands(vals))
  {
    hide Finish, OwnAll, Own, After, Rest;
    if |vals| == Wanted(n) { FinishSensible(w, n, vals, m, sc); } else { RestStep(n.args, |vals|); }
  }

  lemma VisitPending(w: World, n: Node, c: Ctl, m: Machine, sc: Scope, v: Value)
    requires Fits(n, c) && Plan(w, n, c, m, sc).Visit?
    ensures Own(Plan(w, n, c, m, sc).child) + Pending(w, n, Feed(n, c, v)) <= Pending(w, n, c)
  {
    hide Finish, OwnAll, Own, After, Rest, Accept;
    match c
    case Operands(vals) => OperandPending(w, n, vals, m, sc, v);
    case Statements(i, _) => RestStep(n.children, i);
    case Rounds(left, i) => RestStep(n.children, i);
    case LoopBody(i) => RestStep(n.children, i);
    case _ =>
  }

  /** `k` pays for one round of work of every node that counts as a step. */
  ghost predicate Affordable(w: World, code: set<Node>, k: nat) {
    forall n :: n in code && Highlightable(n.kind) ==> OwnAll(n.args) + After(w, n) <= k
  }

  /** What the steps so far have paid for and has not been used. */
  function Slack(m: Machine, k: nat): int { m.steps * k - m.polls }

  lemma SlackStep(m: Machine, m': Machine, k: nat)
    requires m'.polls == m.polls
    requires m'.steps == m.steps + 1
    ensures Slack(m', k) == Slack(m, k) + k
  {
    Distribute(m.steps, 1, k);
  }

  lemma SlackSame(m: Machine, m': Machine, k: nat)
    requires m'.polls == m.polls && m'.steps == m.steps
    ensures Slack(m', k) == Slack(m, k)
  {
  }

  lemma {:induction false} EvalWork(w: World, n: Node, m: Machine, sc: Scope, code: set<Node>, k: nat)
    requires Closed(w, code) && Affordable(w, code, k) && n in code
    ensures Slack(Eval(w, n, m, sc).m, k) >= Slack(m, k) - Own(n)
    decreases Remaining(w, m), n, 9, 0, 0
  {
    hide Run, Closed, Pending, After, OwnAll;
    var polled := m.(polls := m.polls + 1);
    if !m.status.Running? || w.host.cancel(m.polls, m.trace) {
    } else if !Highlightable(n.kind) {
      BeginPending(w, n);
      RunWork(w, n, Begin(n.kind), polled, sc, code, k);
    } else if m.steps < w.limits.maxTotalSteps {
      BeginPending(w, n);
      var begun := polled.(steps := m.steps + 1, trace := m.trace + [NodeStart(n)]);
      SlackStep(polled, begun, k);
      RunWork(w, n, Begin(n.kind), begun, sc, code, k);
    }
  }

  lemma BeginPending(w: World, n: Node)
    ensures Pending(w, n, Begin(n.kind)) <= OwnAll(n.args) + After(w, n)
    ensures !Highlightable(n.kind) ==> After(w, n) == 0
  {
    assert Rest(n.args, 0) == n.args;
  }

  lemma {:induction false} RunWork(w: World, n: Node, c: Ctl, m: Machine, sc: Scope, code: set<Node>, k: nat)
    requires Closed(w, code) && Affordable(w, code, k) && n in code
    requires Fits(n, c) && (c.Callee? ==> c.fn in code)
    ensures Slack(Run(w, n, c, m, sc).m, k) >= Slack(m, k) - Pending(w, n, c)
    decreases Remaining(w, m) + Weight(n), n, Stage(c), Left(c), Todo(n, c)
  {
    hide Plan, Feed, Fits, Eval, Applied, Stage, Left, Todo, Highlightable, OwnAll, Own, After, Pending, Slack;
    PlanSensible(w, n, c, m, sc);
    PlanPending(w, n, c, m, sc);
    match Plan(w, n, c, m, sc)
    case Return(_) =>
    case Raise(fault) => SlackSame(m, FailAt(m, n, fault), k);
    case Wrong => SlackSame(m, m.(status := Stuck), k);
    case Visit(child) =>
      EvalWork(w, child, m, sc, code, k);
      var r := Eval(w, child, m, sc);
      FeedSensible(n, c, r.v);
      VisitPending(w, n, c, m, sc, r.v);
      if r.m.status.Running? { RunWork(w, n, Feed(n, c, r.v), r.m, r.sc, code, k); }
    case Body(child) =>
      BodySensible(n, c, c.frame, c.last);
      EvalWork(w, child, m, Local(c.frame), code, k);
      var r := Eval(w, child, m, Local(c.frame));
      BodySensible(n, c, r.sc.vars, r.v);
      BodyPending(w, n, c, r.sc.vars, r.v);
      SlackSame(r.m, r.m.(depth := r.m.depth - 1), k);
      if r.m.status.Running? { RunWork(w, n, Callee(c.fn, c.i + 1, r.sc.vars, r.v), r.m, sc, code, k); }
    case Perform(e, next) =>
      AppliedGrows(e, m, sc);
      PlanEnters(w, n, c, m, sc);
      var m' := Applied(e, m, sc).0;
      if e.Tick? {
        SlackStep(m, m', k);
        WhileIsStep(n);
      } else {
        SlackSame(m, m', k);
      }
      RunWork(w, n, next, m', Applied(e, m, sc).1, code, k);
  }

  lemma WhileIsStep(n: Node)
    ensures n.kind == While ==> Highlightable(n.kind)
  {
  }

  lemma BodyPending(w: World, n: Node, c: Ctl, frame: Vars, last: Value)
    requires c.Callee? && c.i < |c.fn.children|
    ensures Own(c.fn.children[c.i]) + Pending(w, n, Callee(c.fn, c.i + 1, frame, last)) <= Pending(w, n, c)
  {
    RestStep(c.fn.children, c.i);
  }

  // ---- one round of work is no more than the program itself ------------------------------------------

  lemma {:induction false} ArgsWithin(t: Node, c: Node)
    requires c in Nodes(t)
    ensures OwnAll(c.args) + 1 <= Size(t)
  {
    OwnAllWithinSize(c.args);
    SizeWithin(t, c);
  }

  lemma {:induction false} ArgsWithinAll(ns: seq<Node>, c: Node)
    requires c in NodesAll(ns)
    ensures OwnAll(c.args) + 1 <= SizeAll(ns)
  {
    var i := NodesAllElement(ns, c);
    ArgsWithin(ns[i], c);
    SizeOfElement(ns, i);
  }

  /** A step's operands are not part of the uncounted work around it. */
  lemma {:induction false} OwnBeside(t: Node, c: Node)
    requires c in Nodes(t) && Highlightable(c.kind)
    ensures Own(t) + OwnAll(c.args) <= Size(t)
    decreases t, 1
  {
    ArgsWithin(t, c);
    if !Highlightable(t.kind) {
      if c in NodesAll(t.args) {
        OwnAllBeside(t.args, c);
      } else {
        OwnAllWithinSize(t.args);
        ArgsWithinAll(t.children, c);
      }
    }
  }

  lemma {:induction false} OwnAllBeside(ns: seq<Node>, c: Node)
    requires c in NodesAll(ns) && Highlightable(c.kind)
    ensures OwnAll(ns) + OwnAll(c.args) <= SizeAll(ns)
    decreases ns, 0
  {
    if c in Nodes(ns[0]) {
      OwnBeside(ns[0], c);
      OwnAllWithinSize(ns[1..]);
    } else {
      OwnWithinSize(ns[0]);
      OwnAllBeside(ns[1..], c);
    }
  }

  /** A call's operands and its callee's body are different parts of the program. */
  lemma {:induction false} CallBudget(root: Node, c: Node, name: string)
    requires c in Nodes(root) && Highlightable(c.kind) && name in Functions(root)
    ensures OwnAll(c.args) + OwnAll(Functions(root)[name].children) <= Size(root)
  {
    var fn := Functions(root)[name];
    FunctionsFrom(root, |root.children|, name);
    OwnAllWithinSize(fn.children);
    OwnAllWithinSize(root.args);
    if c in NodesAll(fn.children) {
      OwnAllBeside(fn.children, c);
      if fn != root { SizeOfElement(root.children, Index(root, fn)); }
    } else if fn == root {
      ArgsWithinAll(root.args, c);
    } else {
      var j := Index(root, fn);
      SizeOfElement(root.children, j);
      if c == root {
        OwnAllWithinSize(c.args);
      } else if c in NodesAll(root.args) {
        ArgsWithinAll(root.args, c);
      } else {
        var i := NodesAllElement(root.children, c);
        ArgsWithin(root.children[i], c);
        if i == j {
          ArgsWithinAll(fn.args, c);
        } else {
          SizeOfTwo(root.children, i, j);
        }
      }
    }
  }

  function Budget(w: World, root: Node): nat {
    (if w.limits.maxRepeatCount > 1 then w.limits.maxRepeatCount else 1) * Size(root)
  }

  lemma {:induction false} ProgramIsAffordable(w: World, root: Node)
    requires w.fns == Functions(root)
    ensures Affordable(w, Nodes(root), Budget(w, root)) && Size(root) <= Budget(w, root)
  {
    hide Functions;
    var r := if w.limits.maxRepeatCount > 1 then w.limits.maxRepeatCount else 1;
    Monotone(1, r, Size(root));
    forall n | n in Nodes(root) && Highlightable(n.kind)
      ensures OwnAll(n.args) + After(w, n) <= Budget(w, root)
    {
      SizeWithin(root, n);
      OwnAllWithinSize(n.args);
      OwnAllWithinSize(n.children);
      match n.kind
      case Call => if n.op in w.fns { CallBudget(root, n, n.op); }
      case Repeat => RepeatBudget(OwnAll(n.args), OwnAll(n.children), w.limits.maxRepeatCount, r, Size(root));
      case _ =>
    }
  }

  lemma RepeatBudget(args: nat, body: nat, count: nat, r: nat, size: nat)
    requires count <= r && 1 <= r && args + body <= size
    ensures args + count * body <= r * size
  {
    Monotone(count, r, body);
    Monotone(1, r, args);
    Monotone(args + body, size, r);
    Distribute(args, body, r);
  }

  /** No program and no host makes the interpreter evaluate more than
      (1 + max_total_steps) * max(1, max_repeat_count) * |AST| nodes. */
  lemma {:induction false} EvaluationsAreBounded(host: Host, limits: Limits, root: Node)
    ensures var w := World(host, limits, Functions(root));
            Eval(w, root, START, Top).m.polls <= (1 + limits.maxTotalSteps) * Budget(w, root)
  {
    hide Eval, Functions, Budget;
    var w := World(host, limits, Functions(root));
    var k := Budget(w, root);
    ProgramIsClosed(w, root);
    ProgramIsAffordable(w, root);
    EvalWork(w, root, START, Top, Nodes(root), k);
    EvalCounts(w, root, START, Top);
    OwnWithinSize(root);
    var m := Eval(w, root, START, Top).m;
    StartCounts();
    Monotone(m.steps, limits.maxTotalSteps, k);
    Distribute(1, limits.maxTotalSteps, k);
  }

  lemma StartCounts()
    ensures Starts(START.trace) == 0
  {
    StartsPush([], ProgramStart);
    assert [] + [ProgramStart] == START.trace;
  }
}
