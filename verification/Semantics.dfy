// A reference semantics for the interpreter of src/engine.cpp.
//
// Each node is run by a small control automaton: `Plan` says what the node does
// next, `Feed` what it does with the value of the sub-expression it asked for,
// and `Eval`/`Run` thread the machine state through those moves. The host is an
// oracle: its sensor readings and its cancel flag may depend on everything that
// has happened so far.

module Semantics {
  import opened Ast

  type Vars = map<string, Value>

  datatype Limits = Limits(maxRepeatCount: nat, maxTotalSteps: nat, maxCallDepth: nat)

  datatype Fault =
    | StepLimit | RepeatLimit | DepthLimit
    | NegativeRepeat | ExpectedInteger | ExpectedColor
    | SpeedRange | DurationRange | DegreesRange
    | UndefinedFunction | UndefinedVariable | SetUndefined
    | CompareOperands | ArithmeticOperands | DivisionByZero

  datatype Command =
    | DriveForward(speed: int, ms: int) | DriveBackward(speed: int, ms: int)
    | TurnLeftBy(degrees: int) | TurnRightBy(degrees: int)
    | StopMotors | WaitMs(ms: int) | SetLight(color: int) | BeepOnce

  datatype Cause = RunCancelled | RunFailed(fault: Fault)

  /** One entry of the interleaved record of events and host calls. A node event
      carries the node it is about; the message sent is its id, span and op. */
  datatype Item =
    | ProgramStart | ProgramDone | ProgramError(cause: Cause)
    | NodeStart(node: Node) | NodeDone(node: Node) | NodeSkipped(node: Node)
    | NodeError(node: Node, fault: Fault)
    | Act(command: Command)
    | Sensed(sensor: Kind, reading: Value)

  type Trace = seq<Item>

  /** Everything outside the engine: sensor readings and the cancel flag. */
  datatype Host = Host(distance: Trace -> int,
                       flag: (Kind, Trace) -> bool,
                       cancel: (nat, Trace) -> bool)

  datatype World = World(host: Host, limits: Limits, fns: map<string, Node>)

  /** `Stuck` stands for undefined behaviour: an argument that is not there. */
  datatype Status = Running | Errored(span: Span, fault: Fault) | Cancelled | Stuck

  /** The interpreter's state. Two fields are bookkeeping of the model: `polls`
      counts the reads of the cancel flag and `ticks` the while iterations begun. */
  datatype Machine = Machine(globals: Vars, steps: nat, depth: int, polls: nat, ticks: nat,
                             status: Status, trace: Trace)

  /** The frame a node is evaluated in: the global one, or a call's own. */
  datatype Scope = Top | Local(vars: Vars)

  datatype Out = Out(v: Value, m: Machine, sc: Scope)

  // ---- frames -----------------------------------------------------------------

  predicate Defined(name: string, globals: Vars, sc: Scope) {
    (sc.Local? && name in sc.vars) || name in globals
  }

  function Lookup(name: string, globals: Vars, sc: Scope): Value
    requires Defined(name, globals, sc)
  {
    if sc.Local? && name in sc.vars then sc.vars[name] else globals[name]
  }

  /** Parameters bound left to right; a missing argument is None. */
  function BindParams(params: seq<string>, argv: seq<Value>, n: nat): Vars
    requires n <= |params|
  {
    if n == 0 then map[]
    else BindParams(params, argv, n - 1)[params[n - 1] := if n - 1 < |argv| then argv[n - 1] else NoneV]
  }

  // ---- operators --------------------------------------------------------------

  /** C++ division: the quotient is truncated toward zero. */
  function TruncDiv(x: int, y: int): int
    requires y != 0
  {
    if x >= 0 then x / y else -((-x) / y)
  }

  function Apply2(op: string, x: int, y: int): int {
    if op == "+" then x + y
    else if op == "-" then x - y
    else if op == "*" then x * y
    else if y == 0 then 0 else TruncDiv(x, y)
  }

  function FoldArith(op: string, vals: seq<Value>): int {
    if vals == [] then 0
    else if |vals| == 1 then vals[0].AsInt()
    else Apply2(op, FoldArith(op, vals[..|vals| - 1]), vals[|vals| - 1].AsInt())
  }

  predicate Holds(op: string, x: int, y: int) {
    if op == "<" then x < y
    else if op == ">" then x > y
    else if op == "=" then x == y
    else if op == "<=" then x <= y
    else if op == ">=" then x >= y
    else false
  }

  // ---- control automaton of one node ---------------------------------------------

  datatype Ctl =
    | Resolve                                   // a call: find the function first
    | LoopHead                                  // a while: count the coming iteration
    | Operands(vals: seq<Value>)                // operands evaluated so far
    | Statements(i: nat, last: Value)           // body statements from i on
    | Rounds(left: nat, i: nat)                 // repeat: rounds left, statement i of this one
    | Skipping(i: nat)                          // when not taken: statements reported from i on
    | Branch(k: nat)                            // if: the chosen branch
    | LoopBody(i: nat)
    | Callee(fn: Node, i: nat, frame: Vars, last: Value)
    | Finished(v: Value)
    | Failing(fault: Fault)

  datatype Effect =
    | Nothing
    | Tick                                      // a while iteration counts as a step
    | Skip(node: Node)
    | Enter | Leave                             // call depth
    | Bind(name: string, v: Value)
    | Assign(name: string, v: Value)
    | Emit(command: Command)
    | Read(sensor: Kind, reading: Value)

  datatype Move =
    | Return(v: Value)
    | Raise(fault: Fault)
    | Wrong                                     // undefined behaviour
    | Visit(child: Node)                        // evaluate in the node's own scope
    | Body(child: Node)                         // evaluate in the callee's frame
    | Perform(e: Effect, next: Ctl)

  function Begin(kind: Kind): Ctl {
    match kind
    case While => LoopHead
    case Call => Resolve
    case _ => Operands([])
  }

  /** How many operands are evaluated before the node decides what to do. */
  function Wanted(n: Node): nat {
    match n.kind
    case Drive | Backward | Compare => 2
    case Repeat | When | If | While | DefineVar | SetVar => 1
    case TurnLeft | TurnRight | Wait | Light => 1
    case BooleanOp => if n.op == "not" then 1 else |n.args|
    case Arithmetic | Call => |n.args|
    case _ => 0
  }

  /** What an operand's value does to the node waiting for it. */
  function Accept(n: Node, vals: seq<Value>, v: Value): Ctl {
    match n.kind
    case Repeat | Drive | Backward | TurnLeft | TurnRight | Wait =>
      if v.IntV? then Operands(vals + [v]) else Failing(ExpectedInteger)
    case Arithmetic =>
      if !v.IntV? then Failing(ArithmeticOperands)
      else if vals != [] && n.op != "+" && n.op != "-" && n.op != "*" && v.i == 0 then Failing(DivisionByZero)
      else Operands(vals + [v])
    case BooleanOp =>
      if n.op == "not" then Operands(vals + [v])
      else if n.op == "and" && !v.Truthy() then Finished(BoolV(false))
      else if n.op != "and" && v.Truthy() then Finished(BoolV(true))
      else Operands(vals + [v])
    case _ => Operands(vals + [v])
  }

  function Feed(n: Node, c: Ctl, v: Value): Ctl {
    match c
    case Operands(vals) => Accept(n, vals, v)
    case Statements(i, _) => Statements(i + 1, v)
    case Rounds(left, i) => Rounds(left, i + 1)
    case LoopBody(i) => LoopBody(i + 1)
    case _ => Finished(v)
  }

  function Reading(w: World, sensor: Kind, trace: Trace): Value {
    if sensor == DistanceCm then IntV(w.host.distance(trace)) else BoolV(w.host.flag(sensor, trace))
  }

  function FinishCommand(n: Node, vals: seq<Value>): Move
    requires |vals| == Wanted(n)
    requires IsCommand(n.kind)
  {
    match n.kind
    case Drive | Backward =>
      var speed, ms := vals[0].AsInt(), vals[1].AsInt();
      if !(0 <= speed <= 100) then Raise(SpeedRange)
      else if !(0 <= ms <= 10000) then Raise(DurationRange)
      else Perform(Emit(if n.kind == Drive then DriveForward(speed, ms) else DriveBackward(speed, ms)),
                   Finished(NoneV))
    case TurnLeft | TurnRight =>
      var degrees := vals[0].AsInt();
      if !(0 <= degrees <= 3600) then Raise(DegreesRange)
      else Perform(Emit(if n.kind == TurnLeft then TurnLeftBy(degrees) else TurnRightBy(degrees)),
                   Finished(NoneV))
    case Wait =>
      var ms := vals[0].AsInt();
      if !(0 <= ms <= 10000) then Raise(DurationRange)
      else Perform(Emit(WaitMs(ms)), Finished(NoneV))
    case Light =>
      if !vals[0].ColorV? then Raise(ExpectedColor)
      else Perform(Emit(SetLight(vals[0].code)), Finished(NoneV))
    case Stop => Perform(Emit(StopMotors), Finished(NoneV))
    case _ => Perform(Emit(BeepOnce), Finished(NoneV))
  }

  /** The node's decision once all wanted operands are there. */
  function Finish(w: World, n: Node, vals: seq<Value>, m: Machine, sc: Scope): Move
    requires |vals| == Wanted(n)
  {
    if IsCommand(n.kind) then FinishCommand(n, vals)
    else if IsSensor(n.kind) then
      var v := Reading(w, n.kind, m.trace);
      Perform(Read(n.kind, v), Finished(v))
    else
      match n.kind
      case Do => Perform(Nothing, Statements(0, NoneV))
      case Repeat =>
        var count := vals[0].AsInt();
        if count < 0 then Raise(NegativeRepeat)
        else if count > w.limits.maxRepeatCount then Raise(RepeatLimit)
        else Perform(Nothing, Rounds(count, 0))
      case When =>
        Perform(Nothing, if vals[0].Truthy() then Statements(0, NoneV) else Skipping(0))
      case If =>
        if |n.args| < 3 then Wrong
        else if vals[0].Truthy() then Perform(Skip(n.args[2]), Branch(1))
        else Perform(Skip(n.args[1]), Branch(2))
      case While => if vals[0].Truthy() then Perform(Nothing, LoopBody(0)) else Return(NoneV)
      case DefineVar => Perform(Bind(n.op, vals[0]), Finished(vals[0]))
      case SetVar =>
        if Defined(n.op, m.globals, sc) then Perform(Assign(n.op, vals[0]), Finished(vals[0]))
        else Raise(SetUndefined)
      case VarRef =>
        if Defined(n.op, m.globals, sc) then Return(Lookup(n.op, m.globals, sc))
        else Raise(UndefinedVariable)
      case Call =>
        if n.op !in w.fns then Raise(UndefinedFunction)
        else if m.depth >= w.limits.maxCallDepth then Raise(DepthLimit)
        else
          var fn := w.fns[n.op];
          Perform(Enter, Callee(fn, 0, BindParams(fn.params, vals, |fn.params|), NoneV))
      case Compare =>
        if vals[0].IntV? && vals[1].IntV? then Return(BoolV(Holds(n.op, vals[0].i, vals[1].i)))
        else Raise(CompareOperands)
      case BooleanOp =>
        if n.op == "not" then Return(BoolV(!vals[0].Truthy())) else Return(BoolV(n.op == "and"))
      case Arithmetic => Return(IntV(FoldArith(n.op, vals)))
      case IntegerLiteral => Return(IntV(if n.nums == [] then 0 else n.nums[0]))
      case BooleanLiteral => Return(BoolV(n.nums != [] && n.nums[0] != 0))
      case ColorLiteral => Return(ColorV(if n.nums == [] then 0 else n.nums[0]))
      case _ => Return(NoneV)                   // a function definition does nothing at run time
  }

  /** The control states a node goes through. */
  predicate Fits(n: Node, c: Ctl) {
    match c
    case Resolve | Callee(_, _, _, _) => n.kind == Call
    case LoopHead | LoopBody(_) => n.kind == While
    case Statements(_, _) => n.kind == Do || n.kind == When
    case Skipping(_) => n.kind == When
    case Rounds(_, _) => n.kind == Repeat
    case Branch(k) => n.kind == If && (k == 1 || k == 2)
    case Operands(vals) => |vals| <= Wanted(n)
    case _ => true
  }

  function Plan(w: World, n: Node, c: Ctl, m: Machine, sc: Scope): Move
    requires Fits(n, c)
  {
    match c
    case Resolve => if n.op in w.fns then Perform(Nothing, Operands([])) else Raise(UndefinedFunction)
    case LoopHead =>
      if m.steps >= w.limits.maxTotalSteps then Raise(StepLimit) else Perform(Tick, Operands([]))
    case Operands(vals) =>
      if |vals| == Wanted(n) then Finish(w, n, vals, m, sc)
      else if |vals| < |n.args| then Visit(n.args[|vals|])
      else Wrong
    case Statements(i, last) => if i < |n.children| then Visit(n.children[i]) else Return(last)
    case Rounds(left, i) =>
      if left == 0 then Return(NoneV)
      else if i < |n.children| then Visit(n.children[i])
      else Perform(Nothing, Rounds(left - 1, 0))
    case Skipping(i) =>
      if i < |n.children| then Perform(Skip(n.children[i]), Skipping(i + 1)) else Return(NoneV)
    case Branch(k) => if k < |n.args| then Visit(n.args[k]) else Wrong
    case LoopBody(i) => if i < |n.children| then Visit(n.children[i]) else Perform(Nothing, LoopHead)
    case Callee(fn, i, _, last) =>
      if i < |fn.children| then Body(fn.children[i]) else Perform(Leave, Finished(last))
    case Finished(v) => Return(v)
    case Failing(fault) => Raise(fault)
  }

  // ---- the run --------------------------------------------------------------------

  function FailAt(m: Machine, n: Node, fault: Fault): Machine {
    m.(status := Errored(n.span, fault), trace := m.trace + [NodeError(n, fault)])
  }

  function Applied(e: Effect, m: Machine, sc: Scope): (Machine, Scope) {
    match e
    case Nothing => (m, sc)
    case Tick => (m.(steps := m.steps + 1, ticks := m.ticks + 1), sc)
    case Skip(node) => (m.(trace := m.trace + [NodeSkipped(node)]), sc)
    case Enter => (m.(depth := m.depth + 1), sc)
    case Leave => (m.(depth := m.depth - 1), sc)
    case Bind(name, v) =>
      if sc.Local? then (m, Local(sc.vars[name := v])) else (m.(globals := m.globals[name := v]), sc)
    case Assign(name, v) =>
      if sc.Local? && name in sc.vars then (m, Local(sc.vars[name := v]))
      else (m.(globals := m.globals[name := v]), sc)
    case Emit(command) => (m.(trace := m.trace + [Act(command)]), sc)
    case Read(sensor, reading) => (m.(trace := m.trace + [Sensed(sensor, reading)]), sc)
  }

  /** The trace only grows, and a step is counted by a while loop's tick alone. */
  lemma AppliedGrows(e: Effect, m: Machine, sc: Scope)
    ensures m.trace <= Applied(e, m, sc).0.trace
    ensures Applied(e, m, sc).0.steps == if e.Tick? then m.steps + 1 else m.steps
    ensures Applied(e, m, sc).0.depth == if e.Enter? then m.depth + 1 else if e.Leave? then m.depth - 1 else m.depth
    ensures Applied(e, m, sc).0.polls == m.polls && Applied(e, m, sc).0.status == m.status
    ensures Applied(e, m, sc).1.Local? <==> sc.Local?
  {
  }

  function Remaining(w: World, m: Machine): nat {
    if m.steps <= w.limits.maxTotalSteps then w.limits.maxTotalSteps - m.steps else 0
  }

  // Termination: a step spent, else a smaller node, else a later stage of this node.

  function Weight(n: Node): nat { if Highlightable(n.kind) then 1 else 0 }

  function Stage(c: Ctl): nat {
    match c
    case Resolve => 5
    case Operands(_) => 4
    case Statements(_, _) | Rounds(_, _) | Skipping(_) | Branch(_) | LoopBody(_) | Callee(_, _, _, _) => 2
    case LoopHead => 1
    case Finished(_) | Failing(_) => 0
  }

  function Left(c: Ctl): nat { if c.Rounds? then c.left else 0 }

  function Minus(x: nat, y: nat): nat { if x >= y then x - y else 0 }

  function Todo(n: Node, c: Ctl): nat {
    match c
    case Operands(vals) => Minus(Wanted(n), |vals|)
    case Statements(i, _) => Minus(|n.children|, i)
    case Rounds(_, i) => Minus(|n.children|, i)
    case Skipping(i) => Minus(|n.children|, i)
    case LoopBody(i) => Minus(|n.children|, i)
    case Callee(fn, i, _, _) => Minus(|fn.children|, i)
    case _ => 0
  }

  predicate Below(n: Node, c: Ctl, d: Ctl) {
    || Stage(c) < Stage(d)
    || (Stage(c) == Stage(d) && Left(c) < Left(d))
    || (Stage(c) == Stage(d) && Left(c) == Left(d) && Todo(n, c) < Todo(n, d))
  }

  /** A control state that is waiting for the value of a sub-expression. */
  predicate Waiting(n: Node, c: Ctl) {
    match c
    case Operands(vals) => |vals| < Wanted(n)
    case Statements(i, _) => i < |n.children|
    case Rounds(_, i) => i < |n.children|
    case LoopBody(i) => i < |n.children|
    case Branch(_) => true
    case _ => false
  }

  /** What every move of node `n` in state `c` looks like: it asks only for its own
      sub-expressions or its callee's, it spends a step or makes progress, and it
      enters and leaves a callee in pairs. */
  predicate Sensible(w: World, n: Node, c: Ctl, m: Machine, move: Move)
    requires Fits(n, c)
  {
    match move
    case Return(_) | Raise(_) | Wrong => !c.Callee?
    case Visit(child) => Waiting(n, c) && (child in n.args || child in n.children)
    case Body(child) => c.Callee? && c.i < |c.fn.children| && child == c.fn.children[c.i]
    case Perform(e, next) =>
      && Fits(n, next)
      && (next.Callee? <==> e.Enter?)
      && (c.Callee? <==> e.Leave?)
      && (if e.Tick? then n.kind == While && m.steps < w.limits.maxTotalSteps else Below(n, next, c))
  }

  lemma FinishSensible(w: World, n: Node, vals: seq<Value>, m: Machine, sc: Scope)
    requires |vals| == Wanted(n)
    ensures Sensible(w, n, Operands(vals), m, Finish(w, n, vals, m, sc))
    ensures !Finish(w, n, vals, m, sc).Visit? && !Finish(w, n, vals, m, sc).Body?
  {
    hide Reading, FoldArith, Lookup, Defined, BindParams, Holds;
  }

  lemma PlanSensible(w: World, n: Node, c: Ctl, m: Machine, sc: Scope)
    requires Fits(n, c)
    ensures Sensible(w, n, c, m, Plan(w, n, c, m, sc))
  {
    hide Finish;
    if c.Operands? && |c.vals| == Wanted(n) { FinishSensible(w, n, c.vals, m, sc); }
  }

  /** A callee's body is the body of the function of that name. */
  lemma PlanEnters(w: World, n: Node, c: Ctl, m: Machine, sc: Scope)
    requires Fits(n, c)
    ensures var move := Plan(w, n, c, m, sc);
            move.Perform? && move.next.Callee? ==> n.op in w.fns && move.next.fn == w.fns[n.op]
  {
    hide Reading, FoldArith, Lookup, Defined, BindParams, Holds, FinishCommand;
    if c.Operands? && |c.vals| == Wanted(n) && IsCommand(n.kind) { FinishSensible(w, n, c.vals, m, sc); }
  }

  lemma FeedSensible(n: Node, c: Ctl, v: Value)
    requires Waiting(n, c) && Fits(n, c)
    ensures Fits(n, Feed(n, c, v)) && !Feed(n, c, v).Callee? && Below(n, Feed(n, c, v), c)
  {
  }

  lemma BodySensible(n: Node, c: Ctl, frame: Vars, last: Value)
    requires c.Callee? && Fits(n, c) && c.i < |c.fn.children|
    ensures Weight(n) == 1
    ensures Fits(n, Callee(c.fn, c.i + 1, frame, last))
    ensures Below(n, Callee(c.fn, c.i + 1, frame, last), c)
  {
  }

  /** Evaluates one node: poll the cancel flag, count and announce the node, run it. */
  function Eval(w: World, n: Node, m: Machine, sc: Scope): (r: Out)
    ensures m.steps <= r.m.steps
    ensures r.sc.Local? <==> sc.Local?
    decreases Remaining(w, m), n, 9, 0, 0
  {
    if !m.status.Running? then Out(NoneV, m, sc)
    else
      var polled := m.(polls := m.polls + 1);
      if w.host.cancel(m.polls, m.trace) then Out(NoneV, polled.(status := Cancelled), sc)
      else if !Highlightable(n.kind) then Run(w, n, Begin(n.kind), polled, sc)
      else if m.steps >= w.limits.maxTotalSteps then Out(NoneV, FailAt(polled, n, StepLimit), sc)
      else
        var r := Run(w, n, Begin(n.kind), polled.(steps := m.steps + 1, trace := m.trace + [NodeStart(n)]), sc);
        if r.m.status.Running? then r.(m := r.m.(trace := r.m.trace + [NodeDone(n)])) else r
  }

  /** Runs node `n` on from control state `c`. */
  function Run(w: World, n: Node, c: Ctl, m: Machine, sc: Scope): (r: Out)
    requires Fits(n, c)
    ensures m.steps <= r.m.steps
    ensures r.sc.Local? <==> sc.Local?
    decreases Remaining(w, m) + Weight(n), n, Stage(c), Left(c), Todo(n, c)
  {
    hide Plan, Feed, Finish, Stage, Left, Todo, Highlightable;
    PlanSensible(w, n, c, m, sc);
    match Plan(w, n, c, m, sc)
    case Return(v) => Out(v, m, sc)
    case Raise(fault) => Out(NoneV, FailAt(m, n, fault), sc)
    case Wrong => Out(NoneV, m.(status := Stuck), sc)
    case Visit(child) =>
      var r := Eval(w, child, m, sc);
      FeedSensible(n, c, r.v);
      if r.m.status.Running? then Run(w, n, Feed(n, c, r.v), r.m, r.sc) else Out(NoneV, r.m, r.sc)
    case Body(child) =>
      BodySensible(n, c, c.frame, c.last);
      var r := Eval(w, child, m, Local(c.frame));
      BodySensible(n, c, r.sc.vars, r.v);
      if r.m.status.Running? then Run(w, n, Callee(c.fn, c.i + 1, r.sc.vars, r.v), r.m, sc)
      else Out(NoneV, r.m.(depth := r.m.depth - 1), sc)
    case Perform(e, next) =>
      AppliedGrows(e, m, sc);
      Run(w, n, next, Applied(e, m, sc).0, Applied(e, m, sc).1)
  }

  // ---- whole programs ---------------------------------------------------------------

  /** The function table: the root if it is a definition, then its direct children,
      a later definition of a name replacing an earlier one. */
  function Functions(root: Node): map<string, Node> {
    FunctionsUpTo(root, |root.children|)
  }

  function FunctionsUpTo(root: Node, i: nat): map<string, Node>
    requires i <= |root.children|
  {
    if i == 0 then (if root.kind == DefineFunc then map[root.op := root] else map[])
    else
      var c := root.children[i - 1];
      if c.kind == DefineFunc then FunctionsUpTo(root, i - 1)[c.op := c] else FunctionsUpTo(root, i - 1)
  }

  const START := Machine(map[], 0, 0, 0, 0, Running, [ProgramStart])

  datatype Outcome = Outcome(success: bool, error: Status, trace: Trace)

  /** What `execute` reports and adds to the trace once the root has been run. */
  function Conclude(m: Machine): Outcome {
    match m.status
    case Running => Outcome(true, Running, m.trace + [ProgramDone])
    case Cancelled => Outcome(false, Cancelled, m.trace + [Act(StopMotors), ProgramError(RunCancelled)])
    case Errored(_, fault) => Outcome(false, m.status, m.trace + [Act(StopMotors), ProgramError(RunFailed(fault))])
    case Stuck => Outcome(false, Stuck, m.trace)
  }

  function Execute(host: Host, limits: Limits, root: Node): Outcome {
    Conclude(Eval(World(host, limits, Functions(root)), root, START, Top).m)
  }
}
