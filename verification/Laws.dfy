// The meaning of each kind of node, by what its parts evaluate to: which value it has, which
// command it gives the robot with which arguments, and what it binds (src/engine.cpp:12-28, 78-113,
// 119-324; include/cardcode/value.hpp:28-36). The laws themselves speak of no stages or moves.

module Laws {
  import opened Ast
  import opened Semantics
  import Engine

  // ---- parts in sequence -------------------------------------------------------------------------------

  /** The values of nodes evaluated one after the other, up to the first that stops the run. */
  datatype Listed = Listed(vals: seq<Value>, m: Machine, sc: Scope)

  function Evaluated(w: World, ns: seq<Node>, m: Machine, sc: Scope): Listed {
    if ns == [] then Listed([], m, sc)
    else
      var r := Eval(w, ns[0], m, sc);
      if !r.m.status.Running? then Listed([], r.m, r.sc)
      else
        var rest := Evaluated(w, ns[1..], r.m, r.sc);
        Listed([r.v] + rest.vals, rest.m, rest.sc)
  }

  /** Nodes evaluated one after the other for the value of the last. */
  function Sequence(w: World, ns: seq<Node>, m: Machine, sc: Scope, last: Value): Out {
    if ns == [] then Out(last, m, sc)
    else
      var r := Eval(w, ns[0], m, sc);
      if !r.m.status.Running? then Out(NoneV, r.m, r.sc) else Sequence(w, ns[1..], r.m, r.sc, r.v)
  }

  /** `count` rounds of the same nodes. */
  function Repeated(w: World, ns: seq<Node>, count: nat, m: Machine, sc: Scope): Out {
    if count == 0 then Out(NoneV, m, sc)
    else
      var r := Sequence(w, ns, m, sc, NoneV);
      if !r.m.status.Running? then Out(NoneV, r.m, r.sc) else Repeated(w, ns, count - 1, r.m, r.sc)
  }

  /** Numbers but zero, true, and every colour. */
  predicate IsTrue(v: Value) {
    v == BoolV(true) || (v.IntV? && v.i != 0) || v.ColorV?
  }

  lemma TruthIs(v: Value)
    ensures v.Truthy() <==> IsTrue(v)
  {
  }

  function Failed(m: Machine, n: Node, fault: Fault): Machine {
    m.(status := Errored(n.span, fault), trace := m.trace + [NodeError(n, fault)])
  }

  function Does(m: Machine, command: Command): Machine { m.(trace := m.trace + [Act(command)]) }

  /** The run of a node from its beginning, after its start has been announced. */
  function Work(w: World, n: Node, m: Machine, sc: Scope): Out
  {
    Run(w, n, Begin(n.kind), m, sc)
  }

  // ---- one node ------------------------------------------------------------------------------------------

  const ANNOUNCED := {Do, Repeat, When, If, While, DefineVar, SetVar, Call,
                      Drive, Backward, TurnLeft, TurnRight, Stop, Wait, Light, Beep,
                      DistanceCm, Button, LineLeft, LineRight}

  lemma AnnouncedKinds(kind: Kind)
    ensures Highlightable(kind) <==> kind in ANNOUNCED
  {
  }

  /** Every node polls the cancel flag once before anything else. A statement, command, sensor or call then needs
      a step and spends it, and stands in the trace from its start to its end if it gets there; an
      operator, variable, literal or definition of a function leaves no mark of its own. */
  lemma {:induction false} EvalLaw(w: World, n: Node, m: Machine, sc: Scope)
    requires m.status.Running?
    ensures var polled := m.(polls := m.polls + 1);
            var r := Work(w, n, polled.(steps := m.steps + 1, trace := m.trace + [NodeStart(n)]), sc);
            Eval(w, n, m, sc)
            == if w.host.cancel(m.polls, m.trace) then Out(NoneV, polled.(status := Cancelled), sc)
               else if n.kind !in ANNOUNCED then Work(w, n, polled, sc)
               else if m.steps >= w.limits.maxTotalSteps then Out(NoneV, Failed(polled, n, StepLimit), sc)
               else if r.m.status.Running? then Out(r.v, r.m.(trace := r.m.trace + [NodeDone(n)]), r.sc)
               else r
  {
    AnnouncedKinds(n.kind);
    hide Run, ANNOUNCED, Highlightable;
  }

  // ---- operands ------------------------------------------------------------------------------------------

  /** One operand. */
  lemma Operand(w: World, n: Node, vals: seq<Value>, m: Machine, sc: Scope)
    requires |vals| < Wanted(n) && |vals| < |n.args|
    ensures var r := Eval(w, n.args[|vals|], m, sc);
            && Fits(n, Accept(n, vals, r.v))
            && Run(w, n, Operands(vals), m, sc)
               == if r.m.status.Running? then Run(w, n, Accept(n, vals, r.v), r.m, r.sc) else Out(NoneV, r.m, r.sc)
  {
    Engine.RunVisits(w, n, Operands(vals), m, sc);
    hide Eval, Run, Accept;
  }

  /** Kinds whose operands are all evaluated whatever they are. */
  predicate IsStrict(n: Node) {
    || n.kind == When || n.kind == If || n.kind == While || n.kind == DefineVar || n.kind == SetVar || n.kind == Light
    || n.kind == Call || n.kind == Compare
  }

  lemma {:induction false} StrictOperands(w: World, n: Node, vals: seq<Value>, m: Machine, sc: Scope)
    requires IsStrict(n) && |vals| <= Wanted(n) <= |n.args| && m.status.Running?
    ensures var e := Evaluated(w, n.args[|vals|..Wanted(n)], m, sc);
            if e.m.status.Running?
            then |vals + e.vals| == Wanted(n) && Run(w, n, Operands(vals), m, sc) == Run(w, n, Operands(vals + e.vals), e.m, e.sc)
            else Run(w, n, Operands(vals), m, sc) == Out(NoneV, e.m, e.sc)
    decreases Wanted(n) - |vals|
  {
    hide Eval, Run, Accept, Wanted;
    var ns := n.args[|vals|..Wanted(n)];
    if |vals| == Wanted(n) {
      assert ns == [] && vals + [] == vals;
    } else {
      Operand(w, n, vals, m, sc);
      AcceptsAll(n, vals, Eval(w, n.args[|vals|], m, sc).v);
      assert ns[0] == n.args[|vals|] && ns[1..] == n.args[|vals| + 1..Wanted(n)];
      var r := Eval(w, n.args[|vals|], m, sc);
      if r.m.status.Running? {
        StrictOperands(w, n, vals + [r.v], r.m, r.sc);
        var rest := Evaluated(w, ns[1..], r.m, r.sc);
        assert vals + [r.v] + rest.vals == vals + ([r.v] + rest.vals);
      }
    }
  }

  lemma AcceptsAll(n: Node, vals: seq<Value>, v: Value)
    requires IsStrict(n)
    ensures Accept(n, vals, v) == Operands(vals + [v])
  {
  }

  // ---- commands ------------------------------------------------------------------------------------------

  /** drive and backward: speed first, then the time; both must be integers and then in range; and the
      robot is told to go with just these. */
  lemma {:induction false} DriveLaw(w: World, n: Node, m: Machine, sc: Scope)
    requires (n.kind == Drive || n.kind == Backward) && |n.args| == 2 && m.status.Running?
    ensures var r := Eval(w, n.args[0], m, sc);
            var s := Eval(w, n.args[1], r.m, r.sc);
            Work(w, n, m, sc)
            == if !r.m.status.Running? then Out(NoneV, r.m, r.sc)
               else if !r.v.IntV? then Out(NoneV, Failed(r.m, n, ExpectedInteger), r.sc)
               else if !s.m.status.Running? then Out(NoneV, s.m, s.sc)
               else if !s.v.IntV? then Out(NoneV, Failed(s.m, n, ExpectedInteger), s.sc)
               else if !(0 <= r.v.i <= 100) then Out(NoneV, Failed(s.m, n, SpeedRange), s.sc)
               else if !(0 <= s.v.i <= 10000) then Out(NoneV, Failed(s.m, n, DurationRange), s.sc)
               else if n.kind == Drive then Out(NoneV, Does(s.m, DriveForward(r.v.i, s.v.i)), s.sc)
               else Out(NoneV, Does(s.m, DriveBackward(r.v.i, s.v.i)), s.sc)
  {
    Operand(w, n, [], m, sc);
    var r := Eval(w, n.args[0], m, sc);
    if r.m.status.Running? {
      if !r.v.IntV? { Fails(w, n, ExpectedInteger, r.m, r.sc); }
      else {
        Operand(w, n, [] + [r.v], r.m, r.sc);
        var s := Eval(w, n.args[1], r.m, r.sc);
        if s.m.status.Running? {
          if !s.v.IntV? { Fails(w, n, ExpectedInteger, s.m, s.sc); } else { DriveEnds(w, n, r.v, s.v, s.m, s.sc); }
        }
      }
    }
    hide Eval, Run;
  }

  lemma Fails(w: World, n: Node, fault: Fault, m: Machine, sc: Scope)
    ensures Fits(n, Failing(fault)) && Run(w, n, Failing(fault), m, sc) == Out(NoneV, Failed(m, n, fault), sc)
  {
    Engine.RunFails(w, n, fault, m, sc);
    hide Run;
  }

  /** A host command, and then the node is finished. */
  lemma Commands(w: World, n: Node, c: Ctl, command: Command, m: Machine, sc: Scope)
    requires Fits(n, c) && Plan(w, n, c, m, sc) == Perform(Emit(command), Finished(NoneV))
    ensures Run(w, n, c, m, sc) == Out(NoneV, Does(m, command), sc)
  {
    Engine.RunPerforms(w, n, c, m, sc);
    Engine.RunReturns(w, n, Finished(NoneV), Does(m, command), sc);
    hide Run, Plan;
  }

  lemma DriveEnds(w: World, n: Node, a: Value, b: Value, m: Machine, sc: Scope)
    requires (n.kind == Drive || n.kind == Backward) && a.IntV? && b.IntV?
    ensures Fits(n, Operands([] + [a] + [b]))
    ensures Run(w, n, Operands([] + [a] + [b]), m, sc)
         == if !(0 <= a.i <= 100) then Out(NoneV, Failed(m, n, SpeedRange), sc)
            else if !(0 <= b.i <= 10000) then Out(NoneV, Failed(m, n, DurationRange), sc)
            else Out(NoneV, Does(m, if n.kind == Drive then DriveForward(a.i, b.i) else DriveBackward(a.i, b.i)), sc)
  {
    hide Run, Eval;
    var c := Operands([] + [a] + [b]);
    if 0 <= a.i <= 100 && 0 <= b.i <= 10000 {
      Commands(w, n, c, if n.kind == Drive then DriveForward(a.i, b.i) else DriveBackward(a.i, b.i), m, sc);
    } else {
      Engine.RunRaises(w, n, c, m, sc);
    }
  }

  /** turn-left, turn-right and wait: one integer in range. */
  lemma {:induction false} TurnLaw(w: World, n: Node, m: Machine, sc: Scope)
    requires (n.kind == TurnLeft || n.kind == TurnRight || n.kind == Wait) && |n.args| == 1 && m.status.Running?
    ensures var r := Eval(w, n.args[0], m, sc);
            Work(w, n, m, sc)
            == if !r.m.status.Running? then Out(NoneV, r.m, r.sc)
               else if !r.v.IntV? then Out(NoneV, Failed(r.m, n, ExpectedInteger), r.sc)
               else if n.kind == Wait then
                 (if !(0 <= r.v.i <= 10000) then Out(NoneV, Failed(r.m, n, DurationRange), r.sc)
                  else Out(NoneV, Does(r.m, WaitMs(r.v.i)), r.sc))
               else if !(0 <= r.v.i <= 3600) then Out(NoneV, Failed(r.m, n, DegreesRange), r.sc)
               else if n.kind == TurnLeft then Out(NoneV, Does(r.m, TurnLeftBy(r.v.i)), r.sc)
               else Out(NoneV, Does(r.m, TurnRightBy(r.v.i)), r.sc)
  {
    Operand(w, n, [], m, sc);
    var r := Eval(w, n.args[0], m, sc);
    if r.m.status.Running? {
      if !r.v.IntV? { Fails(w, n, ExpectedInteger, r.m, r.sc); } else { TurnEnds(w, n, r.v, r.m, r.sc); }
    }
    hide Eval, Run;
  }

  lemma TurnEnds(w: World, n: Node, a: Value, m: Machine, sc: Scope)
    requires (n.kind == TurnLeft || n.kind == TurnRight || n.kind == Wait) && a.IntV?
    ensures Fits(n, Operands([] + [a]))
    ensures Run(w, n, Operands([] + [a]), m, sc)
         == if n.kind == Wait then
              (if !(0 <= a.i <= 10000) then Out(NoneV, Failed(m, n, DurationRange), sc) else Out(NoneV, Does(m, WaitMs(a.i)), sc))
            else if !(0 <= a.i <= 3600) then Out(NoneV, Failed(m, n, DegreesRange), sc)
            else Out(NoneV, Does(m, if n.kind == TurnLeft then TurnLeftBy(a.i) else TurnRightBy(a.i)), sc)
  {
    hide Run, Eval;
    var c := Operands([] + [a]);
    if 0 <= a.i <= (if n.kind == Wait then 10000 else 3600) {
      Commands(w, n, c, if n.kind == Wait then WaitMs(a.i) else if n.kind == TurnLeft then TurnLeftBy(a.i) else TurnRightBy(a.i), m, sc);
    } else {
      Engine.RunRaises(w, n, c, m, sc);
    }
  }

  /** light: a colour, and that colour. */
  lemma {:induction false} LightLaw(w: World, n: Node, m: Machine, sc: Scope)
    requires n.kind == Light && |n.args| == 1 && m.status.Running?
    ensures var r := Eval(w, n.args[0], m, sc);
            Work(w, n, m, sc)
            == if !r.m.status.Running? then Out(NoneV, r.m, r.sc)
               else if !r.v.ColorV? then Out(NoneV, Failed(r.m, n, ExpectedColor), r.sc)
               else Out(NoneV, Does(r.m, SetLight(r.v.code)), r.sc)
  {
    Operand(w, n, [], m, sc);
    var r := Eval(w, n.args[0], m, sc);
    if r.m.status.Running? {
      var c := Operands([] + [r.v]);
      if r.v.ColorV? { Commands(w, n, c, SetLight(r.v.code), r.m, r.sc); } else { Engine.RunRaises(w, n, c, r.m, r.sc); }
    }
    hide Eval, Run;
  }

  lemma PlainLaw(w: World, n: Node, m: Machine, sc: Scope)
    requires n.kind == Stop || n.kind == Beep
    ensures Work(w, n, m, sc) == Out(NoneV, Does(m, if n.kind == Stop then StopMotors else BeepOnce), sc)
  {
    hide Run, Eval;
    Commands(w, n, Operands([]), if n.kind == Stop then StopMotors else BeepOnce, m, sc);
  }

  /** A sensor has the reading that the robot gives at that point of the trace, and the trace records it. */
  lemma SensorLaw(w: World, n: Node, m: Machine, sc: Scope)
    requires n.kind == DistanceCm || n.kind == Button || n.kind == LineLeft || n.kind == LineRight
    ensures var v := if n.kind == DistanceCm then IntV(w.host.distance(m.trace)) else BoolV(w.host.flag(n.kind, m.trace));
            Work(w, n, m, sc) == Out(v, m.(trace := m.trace + [Sensed(n.kind, v)]), sc)
  {
    hide Run, Eval;
    var v := if n.kind == DistanceCm then IntV(w.host.distance(m.trace)) else BoolV(w.host.flag(n.kind, m.trace));
    Engine.RunPerforms(w, n, Operands([]), m, sc);
    Engine.RunReturns(w, n, Finished(v), m.(trace := m.trace + [Sensed(n.kind, v)]), sc);
  }

  // ---- values ----------------------------------------------------------------------------------------------

  /** Literals have the value that they carry, and a definition of a function none. */
  lemma LiteralLaw(w: World, n: Node, m: Machine, sc: Scope)
    requires n.kind == IntegerLiteral || n.kind == BooleanLiteral || n.kind == ColorLiteral || n.kind == DefineFunc
    requires n.kind != DefineFunc ==> n.nums != []
    ensures Work(w, n, m, sc)
         == Out(if n.kind == IntegerLiteral then IntV(n.nums[0]) else if n.kind == BooleanLiteral then BoolV(n.nums[0] != 0)
                else if n.kind == ColorLiteral then ColorV(n.nums[0]) else NoneV, m, sc)
  {
    hide Run, Eval;
    Engine.RunReturns(w, n, Operands([]), m, sc);
  }

  /** The comparison that an operator makes. */
  predicate Compares(op: string, x: int, y: int) {
    || (op == "<" && x < y) || (op == ">" && x > y) || (op == "=" && x == y) || (op == "<=" && x <= y) || (op == ">=" && x >= y)
  }

  /** Both operands are evaluated, and only then are they looked at. */
  lemma {:induction false} CompareLaw(w: World, n: Node, m: Machine, sc: Scope)
    requires n.kind == Compare && |n.args| == 2 && m.status.Running?
    ensures var e := Evaluated(w, n.args, m, sc);
            if !e.m.status.Running? then Work(w, n, m, sc) == Out(NoneV, e.m, e.sc)
            else
              && |e.vals| == 2
              && Work(w, n, m, sc) == if e.vals[0].IntV? && e.vals[1].IntV? then Out(BoolV(Compares(n.op, e.vals[0].i, e.vals[1].i)), e.m, e.sc)
                                      else Out(NoneV, Failed(e.m, n, CompareOperands), e.sc)
  {
    StrictOperands(w, n, [], m, sc);
    assert n.args[0..2] == n.args;
    var e := Evaluated(w, n.args, m, sc);
    assert [] + e.vals == e.vals;
    if e.m.status.Running? { Compared(w, n, e.vals, e.m, e.sc); }
    hide Run, Evaluated;
  }

  lemma Compared(w: World, n: Node, vals: seq<Value>, m: Machine, sc: Scope)
    requires n.kind == Compare && |vals| == 2
    ensures Run(w, n, Operands(vals), m, sc)
         == if vals[0].IntV? && vals[1].IntV? then Out(BoolV(Compares(n.op, vals[0].i, vals[1].i)), m, sc)
            else Out(NoneV, Failed(m, n, CompareOperands), sc)
  {
    hide Run, Eval;
    if vals[0].IntV? && vals[1].IntV? { Engine.RunReturns(w, n, Operands(vals), m, sc); } else { Engine.RunRaises(w, n, Operands(vals), m, sc); }
  }

  /** not turns its operand around. */
  lemma {:induction false} NotLaw(w: World, n: Node, m: Machine, sc: Scope)
    requires n.kind == BooleanOp && n.op == "not" && |n.args| == 1
    ensures var r := Eval(w, n.args[0], m, sc);
            Work(w, n, m, sc) == if r.m.status.Running? then Out(BoolV(!IsTrue(r.v)), r.m, r.sc) else Out(NoneV, r.m, r.sc)
  {
    Operand(w, n, [], m, sc);
    var r := Eval(w, n.args[0], m, sc);
    if r.m.status.Running? { Engine.RunReturns(w, n, Operands([] + [r.v]), r.m, r.sc); }
    hide Run, Eval;
  }

  /** and is true if every operand is, or true if some operand is; and the first that decides it is the
      last evaluated. */
  function Connected(w: World, and: bool, ns: seq<Node>, m: Machine, sc: Scope): Out {
    if ns == [] then Out(BoolV(and), m, sc)
    else
      var r := Eval(w, ns[0], m, sc);
      if !r.m.status.Running? then Out(NoneV, r.m, r.sc)
      else if and && !IsTrue(r.v) then Out(BoolV(false), r.m, r.sc)
      else if !and && IsTrue(r.v) then Out(BoolV(true), r.m, r.sc)
      else Connected(w, and, ns[1..], r.m, r.sc)
  }

  lemma {:induction false} ConnectiveLaw(w: World, n: Node, m: Machine, sc: Scope)
    requires n.kind == BooleanOp && (n.op == "and" || n.op == "or")
    ensures Work(w, n, m, sc) == Connected(w, n.op == "and", n.args, m, sc)
  {
    Connects(w, n, [], m, sc);
    assert n.args[0..] == n.args;
  }

  lemma {:induction false} Connects(w: World, n: Node, vals: seq<Value>, m: Machine, sc: Scope)
    requires n.kind == BooleanOp && (n.op == "and" || n.op == "or") && |vals| <= |n.args|
    ensures Run(w, n, Operands(vals), m, sc) == Connected(w, n.op == "and", n.args[|vals|..], m, sc)
    decreases |n.args| - |vals|
  {
    hide Eval, Run;
    if |vals| == |n.args| {
      Engine.RunReturns(w, n, Operands(vals), m, sc);
    } else {
      Operand(w, n, vals, m, sc);
      var r := Eval(w, n.args[|vals|], m, sc);
      if r.m.status.Running? {
        if IsTrue(r.v) == (n.op == "and") {
          Connects(w, n, vals + [r.v], r.m, r.sc);
          assert n.args[|vals|..][1..] == n.args[|vals| + 1..];
        } else {
          Engine.RunReturns(w, n, Finished(BoolV(n.op != "and")), r.m, r.sc);
        }
      }
    }
  }

  // ---- arithmetic --------------------------------------------------------------------------------------------

  function Sum(vals: seq<Value>): int {
    if vals == [] then 0 else Sum(vals[..|vals| - 1]) + vals[|vals| - 1].AsInt()
  }

  function Product(vals: seq<Value>): int {
    if vals == [] then 1 else Product(vals[..|vals| - 1]) * vals[|vals| - 1].AsInt()
  }

  /** The quotient of C++: its remainder is smaller than the divisor and has the sign of the dividend. */
  predicate IsQuotient(x: int, y: int, q: int) {
    var r := x - q * y;
    (if y > 0 then -y < r < y else y < r < -y) && (r > 0 ==> x > 0) && (r < 0 ==> x < 0)
  }

  lemma QuotientIs(x: int, y: int)
    requires y != 0
    ensures IsQuotient(x, y, TruncDiv(x, y))
  {
    var a := if x < 0 then -x else x;
    EuclidIs(a, y);
    var k := a / y;
    NegatedProduct(k, y);
    var q := TruncDiv(x, y);
    assert q == if x < 0 then -k else k;
    hide *;
    assert q * y == if x < 0 then -(k * y) else k * y;
    Quotients(x, y, q, k * y);
  }

  lemma EuclidIs(a: nat, y: int)
    requires y != 0
    ensures 0 <= a - a / y * y < if y > 0 then y else -y
  {
    assert a == a / y * y + a % y;
  }

  lemma NegatedProduct(k: int, y: int)
    ensures (-k) * y == -(k * y)
  {
  }

  lemma Quotients(x: int, y: int, q: int, p: int)
    requires y != 0 && q * y == if x < 0 then -p else p
    requires 0 <= (if x < 0 then -x else x) - p < if y > 0 then y else -y
    ensures IsQuotient(x, y, q)
  {
    var z := q * y;
  }

  /** Integers operand by operand, up to the first that is none. */
  function Integers(w: World, n: Node, ns: seq<Node>, m: Machine, sc: Scope): Listed {
    if ns == [] then Listed([], m, sc)
    else
      var r := Eval(w, ns[0], m, sc);
      if !r.m.status.Running? then Listed([], r.m, r.sc)
      else if !r.v.IntV? then Listed([], Failed(r.m, n, ArithmeticOperands), r.sc)
      else
        var rest := Integers(w, n, ns[1..], r.m, r.sc);
        Listed([r.v] + rest.vals, rest.m, rest.sc)
  }

  /** + is the sum of all operands, * their product, and - the difference of two. */
  lemma {:induction false} ArithmeticLaw(w: World, n: Node, m: Machine, sc: Scope)
    requires n.kind == Arithmetic && m.status.Running?
    requires ((n.op == "+" || n.op == "*") && |n.args| >= 1) || (n.op == "-" && |n.args| == 2)
    ensures var e := Integers(w, n, n.args, m, sc);
            if !e.m.status.Running? then Work(w, n, m, sc) == Out(NoneV, e.m, e.sc)
            else
              && |e.vals| == |n.args|
              && Work(w, n, m, sc) == Out(IntV(if n.op == "+" then Sum(e.vals) else if n.op == "*" then Product(e.vals)
                                               else e.vals[0].AsInt() - e.vals[1].AsInt()), e.m, e.sc)
  {
    hide *;
    Adds(w, n, [], m, sc);
    assert n.args[0..] == n.args;
    var e := Integers(w, n, n.args, m, sc);
    assert [] + e.vals == e.vals;
    ArithmeticBegins(w, n, m, sc);
    if e.m.status.Running? {
      Folds(n.op, e.vals);
      Engine.ArithmeticEnds(w, n, e.vals, e.m, e.sc);
    }
  }

  lemma ArithmeticBegins(w: World, n: Node, m: Machine, sc: Scope)
    requires n.kind == Arithmetic
    ensures Fits(n, Operands([])) && Work(w, n, m, sc) == Run(w, n, Operands([]), m, sc)
  {
    hide Run;
  }

  lemma {:induction false} Adds(w: World, n: Node, vals: seq<Value>, m: Machine, sc: Scope)
    requires n.kind == Arithmetic && (n.op == "+" || n.op == "*" || n.op == "-") && |vals| <= |n.args| && m.status.Running?
    ensures var e := Integers(w, n, n.args[|vals|..], m, sc);
            if e.m.status.Running?
            then |vals + e.vals| == |n.args| && Run(w, n, Operands(vals), m, sc) == Run(w, n, Operands(vals + e.vals), e.m, e.sc)
            else Run(w, n, Operands(vals), m, sc) == Out(NoneV, e.m, e.sc)
    decreases |n.args| - |vals|
  {
    hide Eval, Run;
    if |vals| == |n.args| {
      assert vals + [] == vals;
    } else {
      Term(w, n, vals, m, sc);
      var ns := n.args[|vals|..];
      assert ns[0] == n.args[|vals|] && ns[1..] == n.args[|vals| + 1..];
      var r := Eval(w, n.args[|vals|], m, sc);
      if r.m.status.Running? {
        if r.v.IntV? {
          Adds(w, n, vals + [r.v], r.m, r.sc);
          var rest := Integers(w, n, ns[1..], r.m, r.sc);
          assert vals + [r.v] + rest.vals == vals + ([r.v] + rest.vals);
        }
      }
    }
  }

  lemma {:induction false} Folds(op: string, vals: seq<Value>)
    requires vals != []
    ensures op == "+" ==> FoldArith(op, vals) == Sum(vals)
    ensures op == "*" ==> FoldArith(op, vals) == Product(vals)
    ensures op == "-" && |vals| == 2 ==> FoldArith(op, vals) == vals[0].AsInt() - vals[1].AsInt()
  {
    if |vals| == 1 {
      assert vals[..0] == [];
    } else {
      Folds(op, vals[..|vals| - 1]);
      assert |vals| == 2 ==> vals[..1] == [vals[0]];
    }
  }

  /** / divides the first by the second, which must not be zero, as C++ does. */
  lemma {:induction false} DivisionLaw(w: World, n: Node, m: Machine, sc: Scope)
    requires n.kind == Arithmetic && n.op == "/" && |n.args| == 2
    ensures var r := Eval(w, n.args[0], m, sc);
            var s := Eval(w, n.args[1], r.m, r.sc);
            var o := Work(w, n, m, sc);
            if !r.m.status.Running? then o == Out(NoneV, r.m, r.sc)
            else if !r.v.IntV? then o == Out(NoneV, Failed(r.m, n, ArithmeticOperands), r.sc)
            else if !s.m.status.Running? then o == Out(NoneV, s.m, s.sc)
            else if !s.v.IntV? then o == Out(NoneV, Failed(s.m, n, ArithmeticOperands), s.sc)
            else if s.v.i == 0 then o == Out(NoneV, Failed(s.m, n, DivisionByZero), s.sc)
            else o.v.IntV? && IsQuotient(r.v.i, s.v.i, o.v.i) && o == Out(o.v, s.m, s.sc)
  {
    ArithmeticBegins(w, n, m, sc);
    Term(w, n, [], m, sc);
    var r := Eval(w, n.args[0], m, sc);
    assert [] + [r.v] == [r.v];
    if r.m.status.Running? && r.v.IntV? { DivisorLaw(w, n, r.v, r.m, r.sc); }
    hide *;
  }

  lemma DivisorLaw(w: World, n: Node, a: Value, m: Machine, sc: Scope)
    requires n.kind == Arithmetic && n.op == "/" && |n.args| == 2 && a.IntV?
    ensures Fits(n, Operands([a]))
    ensures var s := Eval(w, n.args[1], m, sc);
            var o := Run(w, n, Operands([a]), m, sc);
            if !s.m.status.Running? then o == Out(NoneV, s.m, s.sc)
            else if !s.v.IntV? then o == Out(NoneV, Failed(s.m, n, ArithmeticOperands), s.sc)
            else if s.v.i == 0 then o == Out(NoneV, Failed(s.m, n, DivisionByZero), s.sc)
            else o.v.IntV? && IsQuotient(a.i, s.v.i, o.v.i) && o == Out(o.v, s.m, s.sc)
  {
    assert n.op != "+" && n.op != "-" && n.op != "*";
    Term(w, n, [a], m, sc);
    hide *;
    var s := Eval(w, n.args[1], m, sc);
    if s.m.status.Running? && s.v.IntV? && s.v.i != 0 { Divided(w, n, a, s.v, s.m, s.sc); }
  }

  /** One operand of an arithmetic operation. */
  lemma Term(w: World, n: Node, vals: seq<Value>, m: Machine, sc: Scope)
    requires n.kind == Arithmetic && |vals| < |n.args|
    ensures var r := Eval(w, n.args[|vals|], m, sc);
            && Fits(n, Operands(vals)) && Fits(n, Operands(vals + [r.v]))
            && Run(w, n, Operands(vals), m, sc)
               == if !r.m.status.Running? then Out(NoneV, r.m, r.sc)
                  else if !r.v.IntV? then Out(NoneV, Failed(r.m, n, ArithmeticOperands), r.sc)
                  else if vals != [] && n.op != "+" && n.op != "-" && n.op != "*" && r.v.i == 0
                  then Out(NoneV, Failed(r.m, n, DivisionByZero), r.sc)
                  else Run(w, n, Operands(vals + [r.v]), r.m, r.sc)
  {
    hide Eval, Run;
    Operand(w, n, vals, m, sc);
    var r := Eval(w, n.args[|vals|], m, sc);
    if r.m.status.Running? {
      if !r.v.IntV? { Fails(w, n, ArithmeticOperands, r.m, r.sc); }
      else if vals != [] && n.op != "+" && n.op != "-" && n.op != "*" && r.v.i == 0 { Fails(w, n, DivisionByZero, r.m, r.sc); }
    }
  }

  lemma Divided(w: World, n: Node, a: Value, b: Value, m: Machine, sc: Scope)
    requires n.kind == Arithmetic && n.op == "/" && |n.args| == 2 && a.IntV? && b.IntV? && b.i != 0
    ensures Fits(n, Operands([a] + [b]))
    ensures var o := Run(w, n, Operands([a] + [b]), m, sc); o.v.IntV? && IsQuotient(a.i, b.i, o.v.i) && o == Out(o.v, m, sc)
  {
    QuotientIs(a.i, b.i);
    hide Eval, Run, TruncDiv, IsQuotient;
    var vals := [a] + [b];
    assert vals[..1] == [a];
    assert FoldArith("/", vals) == Apply2("/", FoldArith("/", [a]), b.i) == TruncDiv(a.i, b.i);
    Engine.ArithmeticEnds(w, n, vals, m, sc);
  }

  // ---- control -----------------------------------------------------------------------------------------------

  /** do runs its statements and has the value of the last. */
  lemma {:induction false} DoLaw(w: World, n: Node, m: Machine, sc: Scope)
    requires n.kind == Do
    ensures Work(w, n, m, sc) == Sequence(w, n.children, m, sc, NoneV)
  {
    Engine.RunPerforms(w, n, Operands([]), m, sc);
    StatementsRun(w, n, 0, NoneV, m, sc);
    assert n.children[0..] == n.children;
    hide Run, Eval;
  }

  lemma {:induction false} StatementsRun(w: World, n: Node, i: nat, last: Value, m: Machine, sc: Scope)
    requires (n.kind == Do || n.kind == When) && i <= |n.children|
    ensures Run(w, n, Statements(i, last), m, sc) == Sequence(w, n.children[i..], m, sc, last)
    decreases |n.children| - i
  {
    hide Eval, Run;
    if i == |n.children| {
      Engine.RunReturns(w, n, Statements(i, last), m, sc);
    } else {
      Engine.RunVisits(w, n, Statements(i, last), m, sc);
      var r := Eval(w, n.children[i], m, sc);
      assert n.children[i..][0] == n.children[i] && n.children[i..][1..] == n.children[i + 1..];
      if r.m.status.Running? { StatementsRun(w, n, i + 1, r.v, r.m, r.sc); }
    }
  }

  /** The entries that report nodes as skipped. */
  function Skipped(ns: seq<Node>): Trace {
    seq(|ns|, i requires 0 <= i < |ns| => NodeSkipped(ns[i]))
  }

  /** when runs its statements if its condition is true, and otherwise reports each of them as skipped. */
  lemma {:induction false} WhenLaw(w: World, n: Node, m: Machine, sc: Scope)
    requires n.kind == When && |n.args| >= 1
    ensures var r := Eval(w, n.args[0], m, sc);
            Work(w, n, m, sc)
            == if !r.m.status.Running? then Out(NoneV, r.m, r.sc)
               else if IsTrue(r.v) then Sequence(w, n.children, r.m, r.sc, NoneV)
               else Out(NoneV, r.m.(trace := r.m.trace + Skipped(n.children)), r.sc)
  {
    Operand(w, n, [], m, sc);
    var r := Eval(w, n.args[0], m, sc);
    assert n.children[0..] == n.children;
    if r.m.status.Running? {
      Engine.RunPerforms(w, n, Operands([] + [r.v]), r.m, r.sc);
      TruthIs(r.v);
      if IsTrue(r.v) { StatementsRun(w, n, 0, NoneV, r.m, r.sc); } else { SkipsRun(w, n, 0, r.m, r.sc); }
    }
    hide Run, Eval;
  }

  lemma {:induction false} SkipsRun(w: World, n: Node, i: nat, m: Machine, sc: Scope)
    requires n.kind == When && i <= |n.children|
    ensures Run(w, n, Skipping(i), m, sc) == Out(NoneV, m.(trace := m.trace + Skipped(n.children[i..])), sc)
    decreases |n.children| - i
  {
    hide Eval, Run;
    if i == |n.children| {
      Engine.RunReturns(w, n, Skipping(i), m, sc);
      assert m.trace + [] == m.trace;
    } else {
      Engine.RunPerforms(w, n, Skipping(i), m, sc);
      var next := m.(trace := m.trace + [NodeSkipped(n.children[i])]);
      SkipsRun(w, n, i + 1, next, sc);
      assert [NodeSkipped(n.children[i])] + Skipped(n.children[i + 1..]) == Skipped(n.children[i..]);
      assert m.trace + [NodeSkipped(n.children[i])] + Skipped(n.children[i + 1..]) == m.trace + Skipped(n.children[i..]);
    }
  }

  /** if reports the branch that it does not take, and is the other. */
  lemma {:induction false} IfLaw(w: World, n: Node, m: Machine, sc: Scope)
    requires n.kind == If && |n.args| == 3
    ensures var r := Eval(w, n.args[0], m, sc);
            var taken, other := if IsTrue(r.v) then n.args[1] else n.args[2], if IsTrue(r.v) then n.args[2] else n.args[1];
            var s := Eval(w, taken, r.m.(trace := r.m.trace + [NodeSkipped(other)]), r.sc);
            Work(w, n, m, sc) == if !r.m.status.Running? then Out(NoneV, r.m, r.sc)
                                 else if !s.m.status.Running? then Out(NoneV, s.m, s.sc) else s
  {
    Operand(w, n, [], m, sc);
    var r := Eval(w, n.args[0], m, sc);
    if r.m.status.Running? { Branches(w, n, r.v, r.m, r.sc); }
    hide Run, Eval;
  }

  lemma Branches(w: World, n: Node, v: Value, m: Machine, sc: Scope)
    requires n.kind == If && |n.args| == 3
    ensures Fits(n, Operands([] + [v]))
    ensures var taken, other := if IsTrue(v) then n.args[1] else n.args[2], if IsTrue(v) then n.args[2] else n.args[1];
            var s := Eval(w, taken, m.(trace := m.trace + [NodeSkipped(other)]), sc);
            Run(w, n, Operands([] + [v]), m, sc) == if s.m.status.Running? then s else Out(NoneV, s.m, s.sc)
  {
    hide Run, Eval;
    TruthIs(v);
    Engine.RunPerforms(w, n, Operands([] + [v]), m, sc);
    var k := if IsTrue(v) then 1 else 2;
    var next := m.(trace := m.trace + [NodeSkipped(n.args[3 - k])]);
    Engine.RunVisits(w, n, Branch(k), next, sc);
    var s := Eval(w, n.args[k], next, sc);
    if s.m.status.Running? { Engine.RunReturns(w, n, Finished(s.v), s.m, s.sc); }
  }

  /** repeat: a count that is a number, not negative and not over the limit, and that many rounds. */
  lemma {:induction false} RepeatLaw(w: World, n: Node, m: Machine, sc: Scope)
    requires n.kind == Repeat && |n.args| >= 1
    ensures var r := Eval(w, n.args[0], m, sc);
            Work(w, n, m, sc)
            == if !r.m.status.Running? then Out(NoneV, r.m, r.sc)
               else if !r.v.IntV? then Out(NoneV, Failed(r.m, n, ExpectedInteger), r.sc)
               else if r.v.i < 0 then Out(NoneV, Failed(r.m, n, NegativeRepeat), r.sc)
               else if r.v.i > w.limits.maxRepeatCount then Out(NoneV, Failed(r.m, n, RepeatLimit), r.sc)
               else Repeated(w, n.children, r.v.i, r.m, r.sc)
  {
    Operand(w, n, [], m, sc);
    var r := Eval(w, n.args[0], m, sc);
    if r.m.status.Running? {
      if !r.v.IntV? { Fails(w, n, ExpectedInteger, r.m, r.sc); }
      else {
        Engine.RepeatStarts(w, n, r.v.i, r.m, r.sc);
        if 0 <= r.v.i { RoundsRun(w, n, r.v.i, r.m, r.sc); }
      }
    }
    hide Run, Eval;
  }

  lemma {:induction false} RoundsRun(w: World, n: Node, left: nat, m: Machine, sc: Scope)
    requires n.kind == Repeat && m.status.Running?
    ensures Run(w, n, Rounds(left, 0), m, sc) == Repeated(w, n.children, left, m, sc)
    decreases left
  {
    hide Eval, Run;
    if left == 0 {
      Engine.RepeatEnds(w, n, m, sc);
    } else {
      RoundRuns(w, n, left, 0, NoneV, m, sc);
      assert n.children[0..] == n.children;
      var r := Sequence(w, n.children, m, sc, NoneV);
      if r.m.status.Running? { RoundsRun(w, n, left - 1, r.m, r.sc); }
    }
  }

  lemma {:induction false} RoundRuns(w: World, n: Node, left: nat, i: nat, last: Value, m: Machine, sc: Scope)
    requires n.kind == Repeat && left > 0 && i <= |n.children| && m.status.Running?
    ensures var r := Sequence(w, n.children[i..], m, sc, last);
            Run(w, n, Rounds(left, i), m, sc) == if r.m.status.Running? then Run(w, n, Rounds(left - 1, 0), r.m, r.sc) else Out(NoneV, r.m, r.sc)
    decreases |n.children| - i
  {
    hide Eval, Run;
    if i == |n.children| {
      Engine.RoundEnds(w, n, left, m, sc);
    } else {
      Engine.RunVisits(w, n, Rounds(left, i), m, sc);
      var r := Eval(w, n.children[i], m, sc);
      assert n.children[i..][0] == n.children[i] && n.children[i..][1..] == n.children[i + 1..];
      if r.m.status.Running? { RoundRuns(w, n, left, i + 1, r.v, r.m, r.sc); }
    }
  }

  /** while: each iteration counts as a step, and there must be one left for it; then the condition, and if
      it is true the body, and from there all over again. */
  lemma {:induction false} WhileLaw(w: World, n: Node, m: Machine, sc: Scope)
    requires n.kind == While && |n.args| >= 1 && m.status.Running?
    ensures var r := Eval(w, n.args[0], m.(steps := m.steps + 1, ticks := m.ticks + 1), sc);
            var b := Sequence(w, n.children, r.m, r.sc, NoneV);
            Work(w, n, m, sc)
            == if m.steps >= w.limits.maxTotalSteps then Out(NoneV, Failed(m, n, StepLimit), sc)
               else if !r.m.status.Running? || !IsTrue(r.v) then Out(NoneV, r.m, r.sc)
               else if !b.m.status.Running? then Out(NoneV, b.m, b.sc)
               else Work(w, n, b.m, b.sc)
  {
    hide Run, Eval;
    if m.steps >= w.limits.maxTotalSteps {
      Engine.RunRaises(w, n, LoopHead, m, sc);
    } else {
      var next := m.(steps := m.steps + 1, ticks := m.ticks + 1);
      Engine.RunPerforms(w, n, LoopHead, m, sc);
      Operand(w, n, [], next, sc);
      var r := Eval(w, n.args[0], next, sc);
      if r.m.status.Running? {
        TruthIs(r.v);
        assert n.children[0..] == n.children;
        if IsTrue(r.v) {
          Engine.RunPerforms(w, n, Operands([] + [r.v]), r.m, r.sc);
          IterationRuns(w, n, 0, NoneV, r.m, r.sc);
        } else {
          Engine.RunReturns(w, n, Operands([] + [r.v]), r.m, r.sc);
        }
      }
    }
  }

  lemma {:induction false} IterationRuns(w: World, n: Node, i: nat, last: Value, m: Machine, sc: Scope)
    requires n.kind == While && i <= |n.children| && m.status.Running?
    ensures var r := Sequence(w, n.children[i..], m, sc, last);
            Run(w, n, LoopBody(i), m, sc) == if r.m.status.Running? then Run(w, n, LoopHead, r.m, r.sc) else Out(NoneV, r.m, r.sc)
    decreases |n.children| - i
  {
    hide Eval, Run;
    if i == |n.children| {
      Engine.RunPerforms(w, n, LoopBody(i), m, sc);
    } else {
      Engine.RunVisits(w, n, LoopBody(i), m, sc);
      var r := Eval(w, n.children[i], m, sc);
      assert n.children[i..][0] == n.children[i] && n.children[i..][1..] == n.children[i + 1..];
      if r.m.status.Running? { IterationRuns(w, n, i + 1, r.v, r.m, r.sc); }
    }
  }

  // ---- names and calls -----------------------------------------------------------------------------------------

  /** define gives the name its value where it stands: in a call's own frame, or among the globals. */
  lemma {:induction false} DefineLaw(w: World, n: Node, m: Machine, sc: Scope)
    requires n.kind == DefineVar && |n.args| >= 1
    ensures var r := Eval(w, n.args[0], m, sc);
            Work(w, n, m, sc)
            == if !r.m.status.Running? then Out(NoneV, r.m, r.sc)
               else if r.sc.Local? then Out(r.v, r.m, Local(r.sc.vars[n.op := r.v]))
               else Out(r.v, r.m.(globals := r.m.globals[n.op := r.v]), r.sc)
  {
    Operand(w, n, [], m, sc);
    var r := Eval(w, n.args[0], m, sc);
    if r.m.status.Running? {
      Engine.RunPerforms(w, n, Operands([] + [r.v]), r.m, r.sc);
      var (next, at) := Applied(Bind(n.op, r.v), r.m, r.sc);
      Engine.RunReturns(w, n, Finished(r.v), next, at);
    }
    hide Run, Eval;
  }

  /** set! changes the innermost binding that the name has, and fails where it has none. */
  lemma {:induction false} SetLaw(w: World, n: Node, m: Machine, sc: Scope)
    requires n.kind == SetVar && |n.args| >= 1
    ensures var r := Eval(w, n.args[0], m, sc);
            Work(w, n, m, sc)
            == if !r.m.status.Running? then Out(NoneV, r.m, r.sc)
               else if r.sc.Local? && n.op in r.sc.vars then Out(r.v, r.m, Local(r.sc.vars[n.op := r.v]))
               else if n.op in r.m.globals then Out(r.v, r.m.(globals := r.m.globals[n.op := r.v]), r.sc)
               else Out(NoneV, Failed(r.m, n, SetUndefined), r.sc)
  {
    Operand(w, n, [], m, sc);
    var r := Eval(w, n.args[0], m, sc);
    if r.m.status.Running? {
      if Defined(n.op, r.m.globals, r.sc) {
        Engine.RunPerforms(w, n, Operands([] + [r.v]), r.m, r.sc);
        var (next, at) := Applied(Assign(n.op, r.v), r.m, r.sc);
        Engine.RunReturns(w, n, Finished(r.v), next, at);
      } else {
        Engine.RunRaises(w, n, Operands([] + [r.v]), r.m, r.sc);
      }
    }
    hide Run, Eval;
  }

  /** A variable has the value of its innermost binding, and fails without one. */
  lemma RefLaw(w: World, n: Node, m: Machine, sc: Scope)
    requires n.kind == VarRef
    ensures Work(w, n, m, sc)
         == if sc.Local? && n.op in sc.vars then Out(sc.vars[n.op], m, sc)
            else if n.op in m.globals then Out(m.globals[n.op], m, sc)
            else Out(NoneV, Failed(m, n, UndefinedVariable), sc)
  {
    hide Run, Eval;
    if Defined(n.op, m.globals, sc) { Engine.RunReturns(w, n, Operands([]), m, sc); } else { Engine.RunRaises(w, n, Operands([]), m, sc); }
  }

  /** The frame of a call: it has just the parameters, the i-th with the i-th argument, or no value
      if there is none; where a name is a parameter twice, the later counts. */
  ghost predicate IsFrame(params: seq<string>, argv: seq<Value>, frame: Vars) {
    && (forall name :: name in frame <==> name in params)
    && (forall i :: 0 <= i < |params| && params[i] !in params[i + 1..] ==>
          frame[params[i]] == if i < |argv| then argv[i] else NoneV)
  }

  lemma {:induction false} FrameIs(params: seq<string>, argv: seq<Value>, k: nat)
    requires k <= |params|
    ensures IsFrame(params[..k], argv, BindParams(params, argv, k))
  {
    hide IsFrame;
    if k == 0 {
      NoFrame(argv);
      assert params[..0] == [];
    } else {
      FrameIs(params, argv, k - 1);
      FrameGrows(params[..k - 1], argv, params[k - 1], BindParams(params, argv, k - 1));
      assert params[..k] == params[..k - 1] + [params[k - 1]];
    }
  }

  lemma NoFrame(argv: seq<Value>)
    ensures IsFrame([], argv, map[])
  {
  }

  lemma FrameGrows(params: seq<string>, argv: seq<Value>, name: string, frame: Vars)
    requires IsFrame(params, argv, frame)
    ensures IsFrame(params + [name], argv, frame[name := if |params| < |argv| then argv[|params|] else NoneV])
  {
    var now := params + [name];
    var v := if |params| < |argv| then argv[|params|] else NoneV;
    forall x ensures x in frame[name := v] <==> x in now { assert x in now <==> x in params || x == name; }
    forall i | 0 <= i < |now| && now[i] !in now[i + 1..]
      ensures frame[name := v][now[i]] == if i < |argv| then argv[i] else NoneV
    {
      if i < |params| {
        assert now[i + 1..] == params[i + 1..] + [name];
        assert now[i] == params[i] && params[i] != name && params[i] !in params[i + 1..];
      }
    }
  }

  /** A call: the function must be there before anything is evaluated; then the arguments in order;
      then there must be a level left; then the body in its own frame, one level deeper. The caller's
      scope is as the arguments left it. */
  lemma {:induction false} CallLaw(w: World, n: Node, m: Machine, sc: Scope)
    requires n.kind == Call && m.status.Running?
    ensures n.op !in w.fns ==> Work(w, n, m, sc) == Out(NoneV, Failed(m, n, UndefinedFunction), sc)
    ensures n.op in w.fns ==>
              var fn := w.fns[n.op];
              var e := Evaluated(w, n.args, m, sc);
              if !e.m.status.Running? then Work(w, n, m, sc) == Out(NoneV, e.m, e.sc)
              else if e.m.depth >= w.limits.maxCallDepth then Work(w, n, m, sc) == Out(NoneV, Failed(e.m, n, DepthLimit), e.sc)
              else exists frame :: IsFrame(fn.params, e.vals, frame) && CallsWith(w, n, fn, frame, e, Work(w, n, m, sc))
  {
    hide Run, Evaluated, BindParams;
    if n.op in w.fns {
      Engine.RunPerforms(w, n, Resolve, m, sc);
      StrictOperands(w, n, [], m, sc);
      var e := Evaluated(w, n.args, m, sc);
      assert n.args[0..|n.args|] == n.args && [] + e.vals == e.vals;
      if e.m.status.Running? { Called(w, n, e); }
    } else {
      Engine.RunRaises(w, n, Resolve, m, sc);
    }
  }

  ghost predicate CallsWith(w: World, n: Node, fn: Node, frame: Vars, e: Listed, r: Out) {
    var b := Sequence(w, fn.children, e.m.(depth := e.m.depth + 1), Local(frame), NoneV);
    r == Out(if b.m.status.Running? then b.v else NoneV, b.m.(depth := b.m.depth - 1), e.sc)
  }

  lemma Called(w: World, n: Node, e: Listed)
    requires n.kind == Call && n.op in w.fns && e.m.status.Running? && |e.vals| == |n.args|
    ensures var fn := w.fns[n.op];
            var frame := BindParams(fn.params, e.vals, |fn.params|);
            && IsFrame(fn.params, e.vals, frame)
            && Fits(n, Operands(e.vals))
            && if e.m.depth >= w.limits.maxCallDepth then Run(w, n, Operands(e.vals), e.m, e.sc) == Out(NoneV, Failed(e.m, n, DepthLimit), e.sc)
               else CallsWith(w, n, fn, frame, e, Run(w, n, Operands(e.vals), e.m, e.sc))
  {
    hide Run, Eval, BindParams, IsFrame;
    var fn := w.fns[n.op];
    FrameIs(fn.params, e.vals, |fn.params|);
    assert fn.params[..|fn.params|] == fn.params;
    if e.m.depth >= w.limits.maxCallDepth {
      Engine.RunRaises(w, n, Operands(e.vals), e.m, e.sc);
    } else {
      Engine.RunPerforms(w, n, Operands(e.vals), e.m, e.sc);
      var frame := BindParams(fn.params, e.vals, |fn.params|);
      CalleeRuns(w, n, fn, 0, frame, NoneV, e.m.(depth := e.m.depth + 1), e.sc);
      assert fn.children[0..] == fn.children;
    }
  }

  lemma {:induction false} CalleeRuns(w: World, n: Node, fn: Node, i: nat, frame: Vars, last: Value, m: Machine, sc: Scope)
    requires n.kind == Call && i <= |fn.children| && m.status.Running?
    ensures var b := Sequence(w, fn.children[i..], m, Local(frame), last);
            Run(w, n, Callee(fn, i, frame, last), m, sc)
            == Out(if b.m.status.Running? then b.v else NoneV, b.m.(depth := b.m.depth - 1), sc)
    decreases |fn.children| - i
  {
    hide Run, Eval;
    var c := Callee(fn, i, frame, last);
    if i == |fn.children| {
      Engine.RunPerforms(w, n, c, m, sc);
      Engine.RunReturns(w, n, Finished(last), m.(depth := m.depth - 1), sc);
    } else {
      Engine.RunBodies(w, n, c, m, sc);
      var r := Eval(w, fn.children[i], m, Local(frame));
      assert fn.children[i..][0] == fn.children[i] && fn.children[i..][1..] == fn.children[i + 1..];
      StaysLocal(w, fn.children[i], m, frame);
      if r.m.status.Running? { CalleeRuns(w, n, fn, i + 1, r.sc.vars, r.v, r.m, sc); }
    }
  }

  lemma StaysLocal(w: World, n: Node, m: Machine, frame: Vars)
    ensures Eval(w, n, m, Local(frame)).sc.Local?
  {
  }

  // ---- the table of functions -----------------------------------------------------------------------------------

  predicate Defines(n: Node, name: string) { n.kind == DefineFunc && n.op == name }

  /** A name stands for the last direct child of the root that defines it ... */
  lemma {:induction false} LastDefinitionCounts(root: Node, name: string, i: nat, n: nat)
    requires i < n <= |root.children| && Defines(root.children[i], name) && forall j :: i < j < n ==> !Defines(root.children[j], name)
    ensures name in FunctionsUpTo(root, n) && FunctionsUpTo(root, n)[name] == root.children[i]
  {
    if i < n - 1 { LastDefinitionCounts(root, name, i, n - 1); }
  }

  /** ... or for the root, if that defines it and none of them does, or for nothing. */
  lemma {:induction false} RootOrNothing(root: Node, name: string, n: nat)
    requires n <= |root.children| && forall j :: 0 <= j < n ==> !Defines(root.children[j], name)
    ensures if Defines(root, name) then name in FunctionsUpTo(root, n) && FunctionsUpTo(root, n)[name] == root else name !in FunctionsUpTo(root, n)
  {
    if n > 0 { RootOrNothing(root, name, n - 1); }
  }

  lemma TableLaw(root: Node, name: string)
    ensures forall i :: 0 <= i < |root.children| && IsLast(root, name, i) ==> name in Functions(root) && Functions(root)[name] == root.children[i]
    ensures (forall i :: 0 <= i < |root.children| ==> !Defines(root.children[i], name)) ==>
              if Defines(root, name) then name in Functions(root) && Functions(root)[name] == root else name !in Functions(root)
  {
    hide FunctionsUpTo, Defines;
    forall i | 0 <= i < |root.children| && IsLast(root, name, i) ensures name in Functions(root) && Functions(root)[name] == root.children[i] {
      LastDefinitionCounts(root, name, i, |root.children|);
    }
    if forall i :: 0 <= i < |root.children| ==> !Defines(root.children[i], name) { RootOrNothing(root, name, |root.children|); }
  }

  predicate IsLast(root: Node, name: string, i: nat)
    requires i < |root.children|
  {
    Defines(root.children[i], name) && forall j :: i < j < |root.children| ==> !Defines(root.children[j], name)
  }
}
