// How much a run can do: steps, commanded motion, and evaluated nodes
// (src/engine.cpp:130-143, 171-185, 215-259, 326-349).

module Bounds {
  import opened Ast
  import opened Semantics
  import opened TraceGrammar
  import opened TraceTheorems

  // ---- steps --------------------------------------------------------------------------------

  function Starts(t: Trace): nat {
    if t == [] then 0 else Starts(t[..|t| - 1]) + if Last(t).NodeStart? then 1 else 0
  }

  lemma StartsPush(t: Trace, item: Item)
    ensures Starts(t + [item]) == Starts(t) + if item.NodeStart? then 1 else 0
  {
    assert (t + [item])[..|t|] == t;
  }

  /** Every step is an announced node or a while iteration begun, and the limit holds. */
  predicate Counted(w: World, m: Machine) {
    m.steps == Starts(m.trace) + m.ticks && m.steps <= w.limits.maxTotalSteps
  }

  lemma AppliedCounts(w: World, e: Effect, m: Machine, sc: Scope)
    requires Counted(w, m)
    requires e.Tick? ==> m.steps < w.limits.maxTotalSteps
    ensures Counted(w, Applied(e, m, sc).0)
  {
    match e
    case Skip(node) => StartsPush(m.trace, NodeSkipped(node));
    case Emit(command) => StartsPush(m.trace, Act(command));
    case Read(sensor, v) => StartsPush(m.trace, Sensed(sensor, v));
    case _ =>
  }

  lemma {:induction false} EvalCounts(w: World, n: Node, m: Machine, sc: Scope)
    requires Counted(w, m)
    ensures Counted(w, Eval(w, n, m, sc).m)
    decreases Remaining(w, m), n, 9, 0, 0
  {
    hide Run, Highlightable, Starts;
    var polled := m.(polls := m.polls + 1);
    if !m.status.Running? || w.host.cancel(m.polls, m.trace) {
    } else if !Highlightable(n.kind) {
      RunCounts(w, n, Begin(n.kind), polled, sc);
    } else if m.steps >= w.limits.maxTotalSteps {
      StartsPush(m.trace, NodeError(n, StepLimit));
    } else {
      var begun := polled.(steps := m.steps + 1, trace := m.trace + [NodeStart(n)]);
      StartsPush(m.trace, NodeStart(n));
      RunCounts(w, n, Begin(n.kind), begun, sc);
      StartsPush(Run(w, n, Begin(n.kind), begun, sc).m.trace, NodeDone(n));
    }
  }

  lemma {:induction false} RunCounts(w: World, n: Node, c: Ctl, m: Machine, sc: Scope)
    requires Fits(n, c) && Counted(w, m)
    ensures Counted(w, Run(w, n, c, m, sc).m)
    decreases Remaining(w, m) + Weight(n), n, Stage(c), Left(c), Todo(n, c)
  {
    hide Plan, Feed, Fits, Eval, Applied, Stage, Left, Todo, Highlightable, Starts;
    PlanSensible(w, n, c, m, sc);
    match Plan(w, n, c, m, sc)
    case Return(_) =>
    case Raise(fault) => StartsPush(m.trace, NodeError(n, fault));
    case Wrong =>
    case Visit(child) =>
      EvalCounts(w, child, m, sc);
      var r := Eval(w, child, m, sc);
      FeedSensible(n, c, r.v);
      if r.m.status.Running? { RunCounts(w, n, Feed(n, c, r.v), r.m, r.sc); }
    case Body(child) =>
      BodySensible(n, c, c.frame, c.last);
      EvalCounts(w, child, m, Local(c.frame));
      var r := Eval(w, child, m, Local(c.frame));
      BodySensible(n, c, r.sc.vars, r.v);
      if r.m.status.Running? { RunCounts(w, n, Callee(c.fn, c.i + 1, r.sc.vars, r.v), r.m, sc); }
    case Perform(e, next) =>
      AppliedGrows(e, m, sc);
      AppliedCounts(w, e, m, sc);
      RunCounts(w, n, next, Applied(e, m, sc).0, Applied(e, m, sc).1);
  }

  // ---- commanded motion -------------------------------------------------------------------------

  function Dones(t: Trace): nat {
    if t == [] then 0 else Dones(t[..|t| - 1]) + if Last(t).NodeDone? then 1 else 0
  }

  function MillisOf(command: Command): int {
    match command
    case DriveForward(_, ms) => ms
    case DriveBackward(_, ms) => ms
    case WaitMs(ms) => ms
    case _ => 0
  }

  function DegreesOf(command: Command): int {
    match command
    case TurnLeftBy(degrees) => degrees
    case TurnRightBy(degrees) => degrees
    case _ => 0
  }

  /** Total time the program tells the robot to drive or wait. */
  function Millis(t: Trace): int {
    if t == [] then 0 else Millis(t[..|t| - 1]) + if Last(t).Act? then MillisOf(Last(t).command) else 0
  }

  /** Total angle the program tells the robot to turn. */
  function Degrees(t: Trace): int {
    if t == [] then 0 else Degrees(t[..|t| - 1]) + if Last(t).Act? then DegreesOf(Last(t).command) else 0
  }

  lemma {:induction false} LiveTotals(t: Trace)
    requires Scan(t).Live?
    ensures Starts(t) == Dones(t) + |Scan(t).open|
    ensures var acts := Dones(t) + if Scan(t).acted then 1 else 0;
            0 <= Millis(t) <= 10000 * acts && 0 <= Degrees(t) <= 3600 * acts && acts <= Starts(t)
  {
    hide Acts, Highlightable, MaySkip, Blames, Quiet;
    var init := t[..|t| - 1];
    if init != [] { LiveTotals(init); }
  }

  /** The whole run: the step count is the announced nodes and the while iterations, it
      keeps to the limit, and so does everything the robot is told to do. */
  lemma {:induction false} RunsAreBounded(host: Host, limits: Limits, root: Node)
    requires !Execute(host, limits, root).error.Stuck?
    ensures var m := Eval(World(host, limits, Functions(root)), root, START, Top).m;
            m.steps == Starts(m.trace) + m.ticks && m.steps <= limits.maxTotalSteps
    ensures var t := Execute(host, limits, root).trace;
            && Starts(t) <= limits.maxTotalSteps
            && 0 <= Millis(t) <= 10000 * limits.maxTotalSteps
            && 0 <= Degrees(t) <= 3600 * limits.maxTotalSteps
  {
    hide Eval, Functions, Scan, Step;
    var w := World(host, limits, Functions(root));
    var m := Eval(w, root, START, Top).m;
    EvalCounts(w, root, START, Top);
    StartIsLive();
    EvalScans(w, root, START, Top, []);
    var t := Execute(host, limits, root).trace;
    if m.status.Errored? {
      BeforeFailure(m.trace);
      var kept := m.trace[..|m.trace| - 1];
      LiveTotals(kept);
    } else {
      LiveTotals(m.trace);
    }
    ClosingTotals(m);
  }

  /** Closing a run commands no more motion. */
  lemma ClosingTotals(m: Machine)
    ensures var t := Conclude(m).trace;
            Starts(t) == Starts(m.trace) && Millis(t) == Millis(m.trace) && Degrees(t) == Degrees(m.trace)
  {
    var t := Conclude(m).trace;
    if m.status.Running? {
      assert t[..|t| - 1] == m.trace;
    } else if !m.status.Stuck? {
      var u := t[..|t| - 1];
      assert u[..|u| - 1] == m.trace;
      assert Last(u) == Act(StopMotors) && Last(t).ProgramError?;
      assert Starts(t) == Starts(u) && Millis(t) == Millis(u) && Degrees(t) == Degrees(u);
    }
  }
}
