// The interpreter of src/engine.cpp in its own form: frames and execution state are
// objects updated in place, bodies and operands are evaluated by loops. Every method is
// proved to compute what the reference semantics says.

module Engine {
  import opened Ast
  import opened Tree
  import opened Semantics
  import opened Growth
  import opened Programs

  /** How many arguments the interpreter reads by position from a node of this kind. */
  function ArgsRead(n: Node): nat {
    if n.kind == If then 3 else Wanted(n)
  }

  /** Every argument that is read by position is there. */
  ghost predicate Indexable(code: set<Node>) {
    forall n :: n in code ==> |n.args| >= ArgsRead(n)
  }

  // ---- the reference semantics, one move at a time -----------------------------------------------

  lemma RunPerforms(w: World, n: Node, c: Ctl, m: Machine, sc: Scope)
    requires Fits(n, c) && Plan(w, n, c, m, sc).Perform?
    ensures var move := Plan(w, n, c, m, sc);
            && Fits(n, move.next)
            && Run(w, n, c, m, sc) == Run(w, n, move.next, Applied(move.e, m, sc).0, Applied(move.e, m, sc).1)
  {
    hide Plan, Applied, Eval;
    PlanSensible(w, n, c, m, sc);
  }

  lemma RunReturns(w: World, n: Node, c: Ctl, m: Machine, sc: Scope)
    requires Fits(n, c) && Plan(w, n, c, m, sc).Return?
    ensures Run(w, n, c, m, sc) == Out(Plan(w, n, c, m, sc).v, m, sc)
  {
    hide Plan, Eval;
  }

  lemma RunRaises(w: World, n: Node, c: Ctl, m: Machine, sc: Scope)
    requires Fits(n, c) && Plan(w, n, c, m, sc).Raise?
    ensures Run(w, n, c, m, sc) == Out(NoneV, FailAt(m, n, Plan(w, n, c, m, sc).fault), sc)
  {
    hide Plan, Eval;
  }

  lemma RunVisits(w: World, n: Node, c: Ctl, m: Machine, sc: Scope)
    requires Fits(n, c) && Plan(w, n, c, m, sc).Visit?
    ensures var r := Semantics.Eval(w, Plan(w, n, c, m, sc).child, m, sc);
            && Fits(n, Feed(n, c, r.v))
            && Run(w, n, c, m, sc) ==
               if r.m.status.Running? then Run(w, n, Feed(n, c, r.v), r.m, r.sc) else Out(NoneV, r.m, r.sc)
  {
    hide Plan, Semantics.Eval, Feed;
    PlanSensible(w, n, c, m, sc);
    FeedSensible(n, c, Semantics.Eval(w, Plan(w, n, c, m, sc).child, m, sc).v);
  }

  lemma RunBodies(w: World, n: Node, c: Ctl, m: Machine, sc: Scope)
    requires Fits(n, c) && Plan(w, n, c, m, sc).Body?
    ensures c.Callee? && Fits(n, c)
    ensures var r := Semantics.Eval(w, Plan(w, n, c, m, sc).child, m, Local(c.frame));
            Run(w, n, c, m, sc) ==
            if r.m.status.Running? then Run(w, n, Callee(c.fn, c.i + 1, r.sc.vars, r.v), r.m, sc)
            else Out(NoneV, r.m.(depth := r.m.depth - 1), sc)
  {
    hide Plan, Semantics.Eval;
    PlanSensible(w, n, c, m, sc);
  }

  lemma FoldPush(op: string, vals: seq<Value>, v: Value)
    ensures FoldArith(op, vals + [v]) ==
            if vals == [] then v.AsInt() else Apply2(op, FoldArith(op, vals), v.AsInt())
  {
    assert (vals + [v])[..|vals|] == vals;
  }

  lemma RunFails(w: World, n: Node, fault: Fault, m: Machine, sc: Scope)
    ensures Fits(n, Failing(fault)) && Run(w, n, Failing(fault), m, sc) == Out(NoneV, FailAt(m, n, fault), sc)
  {
    hide Eval;
    RunRaises(w, n, Failing(fault), m, sc);
  }

  lemma ArithmeticSteps(n: Node, vals: seq<Value>, a: Value)
    requires n.kind == Arithmetic
    ensures var acc, next := FoldArith(n.op, vals), Accept(n, vals, a);
            if !a.IntV? then next == Failing(ArithmeticOperands)
            else if vals != [] && n.op != "+" && n.op != "-" && n.op != "*" && a.i == 0 then next == Failing(DivisionByZero)
            else
              && next == Operands(vals + [a])
              && FoldArith(n.op, vals + [a])
                 == if vals == [] then a.i
                    else if n.op == "+" then acc + a.i
                    else if n.op == "-" then acc - a.i
                    else if n.op == "*" then acc * a.i
                    else TruncDiv(acc, a.i)
    ensures FoldArith(n.op, []) == 0
  {
    hide FoldArith;
    FoldPush(n.op, vals, a);
    NoFold(n.op);
  }

  lemma NoFold(op: string)
    ensures FoldArith(op, []) == 0
  {
  }

  lemma RepeatStarts(w: World, n: Node, count: int, m: Machine, sc: Scope)
    requires n.kind == Repeat
    ensures Run(w, n, Operands([] + [IntV(count)]), m, sc)
         == if count < 0 then Out(NoneV, FailAt(m, n, NegativeRepeat), sc)
            else if count > w.limits.maxRepeatCount then Out(NoneV, FailAt(m, n, RepeatLimit), sc)
            else Run(w, n, Rounds(count, 0), m, sc)
  {
    hide Eval, Run;
    var c := Operands([] + [IntV(count)]);
    if 0 <= count <= w.limits.maxRepeatCount { RunPerforms(w, n, c, m, sc); } else { RunRaises(w, n, c, m, sc); }
  }

  lemma RoundEnds(w: World, n: Node, left: nat, m: Machine, sc: Scope)
    requires n.kind == Repeat && left > 0
    ensures Run(w, n, Rounds(left, |n.children|), m, sc) == Run(w, n, Rounds(left - 1, 0), m, sc)
  {
    hide Eval, Run;
    RunPerforms(w, n, Rounds(left, |n.children|), m, sc);
  }

  lemma RepeatEnds(w: World, n: Node, m: Machine, sc: Scope)
    requires n.kind == Repeat
    ensures Run(w, n, Rounds(0, 0), m, sc) == Out(NoneV, m, sc)
  {
    hide Eval, Run;
    RunReturns(w, n, Rounds(0, 0), m, sc);
  }

  lemma ArithmeticEnds(w: World, n: Node, vals: seq<Value>, m: Machine, sc: Scope)
    requires n.kind == Arithmetic && |vals| == |n.args|
    ensures Run(w, n, Operands(vals), m, sc) == Out(IntV(FoldArith(n.op, vals)), m, sc)
  {
    hide Eval, FoldArith;
    RunReturns(w, n, Operands(vals), m, sc);
  }

  lemma ArgsThere(code: set<Node>, n: Node)
    requires Indexable(code) && n in code
    ensures |n.args| >= ArgsRead(n)
  {
  }

  /** A loop about to evaluate statement `i` of its body. */
  function InLoop(kind: Kind, left: nat, i: nat): Ctl {
    if kind == While then LoopBody(i) else Rounds(left, i)
  }

  // ---- frames ---------------------------------------------------------------------------------------

  /** A variable scope: its own bindings, then those of the global frame. */
  class Frame {
    var vars: Vars
    const parent: Frame?

    constructor (parent: Frame?)
      ensures vars == map[] && this.parent == parent
    {
      this.vars := map[];
      this.parent := parent;
    }

    /** The frame in which `name` is found, if any. */
    function Find(name: string): (f: Frame?)
      reads this, parent
      ensures f != null ==> name in f.vars && (f == this || f == parent)
      ensures f == null <==> name !in vars && (parent == null || name !in parent.vars)
      ensures name in vars ==> f == this
    {
      if name in vars then this
      else if parent != null && name in parent.vars then parent
      else null
    }
  }

  class ExecState {
    const w: World
    const global: Frame
    ghost const code: set<Node>
    var steps: nat
    var callDepth: nat
    var errored: bool
    var cancelled: bool
    var errorSpan: Span
    var errorFault: Fault
    var trace: Trace
    var polls: nat                 // how often the cancel flag has been read
    ghost var ticks: nat           // while iterations begun

    constructor (w: World, ghost code: set<Node>)
      requires Closed(w, code) && Indexable(code)
      ensures Valid() && Now() == START.(trace := [])
      ensures this.w == w && this.code == code && fresh(global)
    {
      this.w := w;
      this.global := new Frame(null);
      this.code := code;
      this.steps, this.callDepth, this.polls, this.ticks := 0, 0, 0, 0;
      this.errored, this.cancelled := false, false;
      this.errorSpan, this.errorFault := NO_SPAN, StepLimit;
      this.trace := [];
    }

    /** The machine of the reference semantics that this object represents. */
    ghost function Now(): Machine
      reads this, global
    {
      Machine(global.vars, steps, callDepth, polls, ticks,
              if errored then Errored(errorSpan, errorFault) else if cancelled then Cancelled else Running,
              trace)
    }

    /** Never both errored and cancelled, and the call depth within its limit. */
    ghost predicate Valid()
      reads this, global
    {
      && !(errored && cancelled)
      && callDepth <= w.limits.maxCallDepth
      && steps <= w.limits.maxTotalSteps
      && global.parent == null
      && Closed(w, code) && Indexable(code)
    }

    /** A frame evaluation can happen in: the global one, or one that falls back to it. */
    ghost predicate InScope(f: Frame) {
      f == global || f.parent == global
    }

    ghost function ScopeOf(f: Frame): Scope
      reads f
    {
      if f == global then Top else Local(f.vars)
    }

    /** This object and frame `f` are where `r` says. */
    ghost predicate At(r: Out, f: Frame, v: Value)
      reads this, global, f
    {
      Now() == r.m && ScopeOf(f) == r.sc && (Now().status.Running? ==> v == r.v)
    }

    /** What running `n` on from `c` will come to. */
    ghost function Ahead(n: Node, c: Ctl, f: Frame): Out
      requires Fits(n, c)
      reads this, global, f
    {
      Run(w, n, c, Now(), ScopeOf(f))
    }

    /** Ready to go on with node `n`. */
    ghost predicate Ready(n: Node, scope: Frame)
      reads this, global
    {
      Valid() && n in code && InScope(scope) && !Stopping()
    }

    predicate Stopping()
      reads this
    {
      errored || cancelled
    }

    method Report(item: Item)
      modifies this`trace
      ensures trace == old(trace) + [item]
    {
      trace := trace + [item];
    }

    method Fail(n: Node, fault: Fault)
      requires Valid() && !Stopping()
      modifies this
      ensures Valid() && Now() == FailAt(old(Now()), n, fault)
    {
      errored := true;
      errorSpan, errorFault := n.span, fault;
      Report(NodeError(n, fault));
    }

    method Eval(n: Node, scope: Frame) returns (v: Value)
      requires Valid() && n in code && InScope(scope)
      modifies this, global, scope
      ensures Valid() && old(steps) <= steps && callDepth == old(callDepth)
      ensures At(Semantics.Eval(w, n, old(Now()), old(ScopeOf(scope))), scope, v)
      decreases Remaining(w, Now()), n, 9
    {
      hide Run, Closed, Indexable;
      EvalGrows(w, n, Now(), ScopeOf(scope));
      if Stopping() { return NoneV; }
      polls := polls + 1;
      if w.host.cancel(polls - 1, trace) {
        cancelled := true;
        return NoneV;
      }
      var highlight := Highlightable(n.kind);
      if highlight {
        if steps >= w.limits.maxTotalSteps {
          Fail(n, StepLimit);
          return NoneV;
        }
        steps := steps + 1;
        Report(NodeStart(n));
      }
      v := EvalInner(n, scope);
      if Stopping() { return; }
      if highlight { Report(NodeDone(n)); }
    }

    method EvalInner(n: Node, scope: Frame) returns (v: Value)
      requires Ready(n, scope)
      modifies this, global, scope
      ensures Valid() && old(steps) <= steps
      ensures At(old(Ahead(n, Begin(n.kind), scope)), scope, v)
      decreases Remaining(w, Now()) + Weight(n), n, 8
    {
      hide Run, Semantics.Eval, Closed, Indexable;
      match n.kind
      case Do => v := EvalDo(n, scope);
      case Repeat => v := EvalRepeat(n, scope);
      case When => v := EvalWhen(n, scope);
      case If => v := EvalIf(n, scope);
      case While => v := EvalWhile(n, scope);
      case DefineFunc => RunReturns(w, n, Operands([]), Now(), ScopeOf(scope)); v := NoneV;
      case DefineVar => v := EvalDefine(n, scope);
      case SetVar => v := EvalSet(n, scope);
      case VarRef => v := EvalRef(n, scope);
      case Call => v := CallFunction(n, scope);
      case Drive | Backward => v := EvalDrive(n, scope);
      case TurnLeft | TurnRight => v := EvalTurn(n, scope);
      case Wait => v := EvalWait(n, scope);
      case Light => v := EvalLight(n, scope);
      case Stop | Beep => v := EvalPlainCommand(n, scope);
      case DistanceCm | Button | LineLeft | LineRight => v := EvalSensor(n, scope);
      case Compare => v := EvalCompare(n, scope);
      case BooleanOp => v := EvalBoolean(n, scope);
      case Arithmetic => v := EvalArithmetic(n, scope);
      case IntegerLiteral =>
        RunReturns(w, n, Operands([]), Now(), ScopeOf(scope));
        v := IntV(if n.nums == [] then 0 else n.nums[0]);
      case BooleanLiteral =>
        RunReturns(w, n, Operands([]), Now(), ScopeOf(scope));
        v := BoolV(n.nums != [] && n.nums[0] != 0);
      case ColorLiteral =>
        RunReturns(w, n, Operands([]), Now(), ScopeOf(scope));
        v := ColorV(if n.nums == [] then 0 else n.nums[0]);
    }

    /** The next operand of `n`, after those in `vals`: evaluated, stored unless that
        stopped the run. */
    method EvalOperand(n: Node, scope: Frame, ghost vals: seq<Value>, k: nat) returns (v: Value)
      requires Ready(n, scope) && k == |vals| < Wanted(n)
      modifies this, global, scope
      ensures Valid() && old(steps) <= steps
      ensures !Stopping() ==> Fits(n, Accept(n, vals, v)) && Ahead(n, Accept(n, vals, v), scope) == old(Ahead(n, Operands(vals), scope))
      ensures Stopping() ==> At(old(Ahead(n, Operands(vals), scope)), scope, NoneV)
      decreases Remaining(w, Now()) + Weight(n), n, 5
    {
      hide Run, Semantics.Eval, Closed, Indexable, Accept;
      ArgsThere(code, n);
      MembersOf(w, code, n, n.args[k]);
      RunVisits(w, n, Operands(vals), Now(), ScopeOf(scope));
      v := Eval(n.args[k], scope);
    }

    /** eval_int: an operand that must be an integer. */
    method EvalInt(n: Node, scope: Frame, ghost vals: seq<Value>, k: nat) returns (ok: bool, out: int)
      requires Ready(n, scope) && k == |vals| < Wanted(n)
      requires n.kind == Repeat || n.kind == Drive || n.kind == Backward || n.kind == TurnLeft || n.kind == TurnRight || n.kind == Wait
      modifies this, global, scope
      ensures Valid() && old(steps) <= steps && ok == !Stopping()
      ensures ok ==> Ahead(n, Operands(vals + [IntV(out)]), scope) == old(Ahead(n, Operands(vals), scope))
      ensures !ok ==> At(old(Ahead(n, Operands(vals), scope)), scope, NoneV)
      decreases Remaining(w, Now()) + Weight(n), n, 6
    {
      hide Run, Semantics.Eval, Closed, Indexable;
      out := 0;
      var v := EvalOperand(n, scope, vals, k);
      if Stopping() { return false, 0; }
      if !v.IntV? {
        RunRaises(w, n, Failing(ExpectedInteger), Now(), ScopeOf(scope));
        Fail(n, ExpectedInteger);
        return false, 0;
      }
      return true, v.i;
    }

    /** eval_children: one round of a loop's body. */
    method EvalChildren(n: Node, scope: Frame, ghost left: nat)
      requires Ready(n, scope) && (n.kind == While || n.kind == Repeat) && left > 0
      modifies this, global, scope
      ensures Valid() && old(steps) <= steps
      ensures !Stopping() ==> Ahead(n, InLoop(n.kind, left, |n.children|), scope) == old(Ahead(n, InLoop(n.kind, left, 0), scope))
      ensures Stopping() ==> At(old(Ahead(n, InLoop(n.kind, left, 0), scope)), scope, NoneV)
      decreases Remaining(w, Now()) + Weight(n), n, 5
    {
      hide Run, Semantics.Eval, Closed, Indexable;
      for i := 0 to |n.children|
        invariant Ready(n, scope) && old(steps) <= steps
        invariant Ahead(n, InLoop(n.kind, left, i), scope) == old(Ahead(n, InLoop(n.kind, left, 0), scope))
      {
        MembersOf(w, code, n, n.children[i]);
        RunVisits(w, n, InLoop(n.kind, left, i), Now(), ScopeOf(scope));
        var v := Eval(n.children[i], scope);
        if Stopping() { return; }
      }
    }

    method EvalDo(n: Node, scope: Frame) returns (v: Value)
      requires Ready(n, scope) && n.kind == Do
      modifies this, global, scope
      ensures Valid() && old(steps) <= steps
      ensures At(old(Ahead(n, Begin(n.kind), scope)), scope, v)
      decreases Remaining(w, Now()) + Weight(n), n, 7
    {
      hide Run, Semantics.Eval, Closed, Indexable;
      ghost var r := Ahead(n, Begin(n.kind), scope);
      RunPerforms(w, n, Operands([]), Now(), ScopeOf(scope));
      v := EvalStatements(n, scope);
    }

    method EvalStatements(n: Node, scope: Frame) returns (v: Value)
      requires Ready(n, scope) && (n.kind == Do || n.kind == When)
      modifies this, global, scope
      ensures Valid() && old(steps) <= steps
      ensures At(old(Ahead(n, Statements(0, NoneV), scope)), scope, v)
      decreases Remaining(w, Now()) + Weight(n), n, 6
    {
      hide Run, Semantics.Eval, Closed, Indexable;
      ghost var r := Ahead(n, Statements(0, NoneV), scope);
      v := NoneV;
      for i := 0 to |n.children|
        invariant Ready(n, scope) && old(steps) <= steps
        invariant Ahead(n, Statements(i, v), scope) == r
      {
        MembersOf(w, code, n, n.children[i]);
        RunVisits(w, n, Statements(i, v), Now(), ScopeOf(scope));
        v := Eval(n.children[i], scope);
        if Stopping() { return NoneV; }
      }
      RunReturns(w, n, Statements(|n.children|, v), Now(), ScopeOf(scope));
    }

    method EvalRepeat(n: Node, scope: Frame) returns (v: Value)
      requires Ready(n, scope) && n.kind == Repeat
      modifies this, global, scope
      ensures Valid() && old(steps) <= steps
      ensures At(old(Ahead(n, Begin(n.kind), scope)), scope, v)
      decreases Remaining(w, Now()) + Weight(n), n, 7
    {
      hide Run, Semantics.Eval, Closed, Indexable, Plan, Finish, Accept;
      ghost var r := Ahead(n, Begin(n.kind), scope);
      var ok, count := EvalInt(n, scope, [], 0);
      if !ok { return NoneV; }
      RepeatStarts(w, n, count, Now(), ScopeOf(scope));
      if count < 0 {
        Fail(n, NegativeRepeat);
        return NoneV;
      }
      if count > w.limits.maxRepeatCount {
        Fail(n, RepeatLimit);
        return NoneV;
      }
      v := NoneV;
      for i := 0 to count
        invariant Ready(n, scope) && old(steps) <= steps
        invariant Ahead(n, Rounds(count - i, 0), scope) == r
      {
        EvalChildren(n, scope, count - i);
        if Stopping() { return NoneV; }
        RoundEnds(w, n, count - i, Now(), ScopeOf(scope));
      }
      RepeatEnds(w, n, Now(), ScopeOf(scope));
    }

    method EvalWhen(n: Node, scope: Frame) returns (v: Value)
      requires Ready(n, scope) && n.kind == When
      modifies this, global, scope
      ensures Valid() && old(steps) <= steps
      ensures At(old(Ahead(n, Begin(n.kind), scope)), scope, v)
      decreases Remaining(w, Now()) + Weight(n), n, 7
    {
      hide Run, Semantics.Eval, Closed, Indexable;
      ghost var r := Ahead(n, Begin(n.kind), scope);
      var cond := EvalOperand(n, scope, [], 0);
      if Stopping() { return NoneV; }
      RunPerforms(w, n, Operands([] + [cond]), Now(), ScopeOf(scope));
      v := NoneV;
      if cond.Truthy() {
        v := EvalStatements(n, scope);
      } else {
        for i := 0 to |n.children|
          invariant Ready(n, scope) && old(steps) <= steps
          invariant Ahead(n, Skipping(i), scope) == r
        {
          RunPerforms(w, n, Skipping(i), Now(), ScopeOf(scope));
          Report(NodeSkipped(n.children[i]));
        }
        RunReturns(w, n, Skipping(|n.children|), Now(), ScopeOf(scope));
      }
    }

    method EvalIf(n: Node, scope: Frame) returns (v: Value)
      requires Ready(n, scope) && n.kind == If
      modifies this, global, scope
      ensures Valid() && old(steps) <= steps
      ensures At(old(Ahead(n, Begin(n.kind), scope)), scope, v)
      decreases Remaining(w, Now()) + Weight(n), n, 7
    {
      hide Run, Semantics.Eval, Closed, Indexable;
      ghost var r := Ahead(n, Begin(n.kind), scope);
      var cond := EvalOperand(n, scope, [], 0);
      if Stopping() { return NoneV; }
      ArgsThere(code, n);
      var taken := cond.Truthy();
      RunPerforms(w, n, Operands([] + [cond]), Now(), ScopeOf(scope));
      Report(NodeSkipped(if taken then n.args[2] else n.args[1]));
      var k := if taken then 1 else 2;
      MembersOf(w, code, n, n.args[k]);
      RunVisits(w, n, Branch(k), Now(), ScopeOf(scope));
      v := Eval(n.args[k], scope);
      if !Stopping() { RunReturns(w, n, Finished(v), Now(), ScopeOf(scope)); }
    }

    method EvalWhile(n: Node, scope: Frame) returns (v: Value)
      requires Ready(n, scope) && n.kind == While
      modifies this, global, scope
      ensures Valid() && old(steps) <= steps
      ensures At(old(Ahead(n, Begin(n.kind), scope)), scope, v)
      decreases Remaining(w, Now()) + Weight(n), n, 7
    {
      hide Run, Semantics.Eval, Closed, Indexable;
      ghost var r := Ahead(n, Begin(n.kind), scope);
      v := NoneV;
      while true
        invariant Ready(n, scope) && old(steps) <= steps
        invariant Ahead(n, LoopHead, scope) == r
        decreases Remaining(w, Now())
      {
        if steps >= w.limits.maxTotalSteps {
          RunRaises(w, n, LoopHead, Now(), ScopeOf(scope));
          Fail(n, StepLimit);
          return;
        }
        RunPerforms(w, n, LoopHead, Now(), ScopeOf(scope));
        steps := steps + 1;
        ticks := ticks + 1;
        var cond := EvalOperand(n, scope, [], 0);
        if Stopping() { return; }
        if !cond.Truthy() {
          RunReturns(w, n, Operands([] + [cond]), Now(), ScopeOf(scope));
          return;
        }
        RunPerforms(w, n, Operands([] + [cond]), Now(), ScopeOf(scope));
        EvalChildren(n, scope, 1);
        if Stopping() { return; }
        RunPerforms(w, n, LoopBody(|n.children|), Now(), ScopeOf(scope));
      }
    }

    method EvalDefine(n: Node, scope: Frame) returns (v: Value)
      requires Ready(n, scope) && n.kind == DefineVar
      modifies this, global, scope
      ensures Valid() && old(steps) <= steps
      ensures At(old(Ahead(n, Begin(n.kind), scope)), scope, v)
      decreases Remaining(w, Now()) + Weight(n), n, 7
    {
      hide Run, Semantics.Eval, Closed, Indexable;
      ghost var r := Ahead(n, Begin(n.kind), scope);
      v := EvalOperand(n, scope, [], 0);
      if Stopping() { return NoneV; }
      RunPerforms(w, n, Operands([] + [v]), Now(), ScopeOf(scope));
      RunReturns(w, n, Finished(v), Applied(Bind(n.op, v), Now(), ScopeOf(scope)).0, Applied(Bind(n.op, v), Now(), ScopeOf(scope)).1);
      scope.vars := scope.vars[n.op := v];
    }

    method EvalSet(n: Node, scope: Frame) returns (v: Value)
      requires Ready(n, scope) && n.kind == SetVar
      modifies this, global, scope
      ensures Valid() && old(steps) <= steps
      ensures At(old(Ahead(n, Begin(n.kind), scope)), scope, v)
      decreases Remaining(w, Now()) + Weight(n), n, 7
    {
      hide Run, Semantics.Eval, Closed, Indexable;
      ghost var r := Ahead(n, Begin(n.kind), scope);
      v := EvalOperand(n, scope, [], 0);
      if Stopping() { return NoneV; }
      var slot := scope.Find(n.op);
      if slot == null {
        RunRaises(w, n, Operands([] + [v]), Now(), ScopeOf(scope));
        Fail(n, SetUndefined);
        return NoneV;
      }
      RunPerforms(w, n, Operands([] + [v]), Now(), ScopeOf(scope));
      RunReturns(w, n, Finished(v), Applied(Assign(n.op, v), Now(), ScopeOf(scope)).0, Applied(Assign(n.op, v), Now(), ScopeOf(scope)).1);
      slot.vars := slot.vars[n.op := v];
    }

    method EvalRef(n: Node, scope: Frame) returns (v: Value)
      requires Ready(n, scope) && n.kind == VarRef
      modifies this, global, scope
      ensures Valid() && old(steps) <= steps
      ensures At(old(Ahead(n, Begin(n.kind), scope)), scope, v)
      decreases Remaining(w, Now()) + Weight(n), n, 7
    {
      hide Run, Semantics.Eval, Closed, Indexable;
      ghost var r := Ahead(n, Begin(n.kind), scope);
      var slot := scope.Find(n.op);
      if slot == null {
        RunRaises(w, n, Operands([]), Now(), ScopeOf(scope));
        Fail(n, UndefinedVariable);
        return NoneV;
      }
      RunReturns(w, n, Operands([]), Now(), ScopeOf(scope));
      return slot.vars[n.op];
    }

    method CallFunction(n: Node, scope: Frame) returns (v: Value)
      requires Ready(n, scope) && n.kind == Call
      modifies this, global, scope
      ensures Valid() && old(steps) <= steps
      ensures At(old(Ahead(n, Begin(n.kind), scope)), scope, v)
      decreases Remaining(w, Now()) + Weight(n), n, 7
    {
      hide Run, Semantics.Eval, Closed, Indexable;
      ghost var r := Ahead(n, Begin(n.kind), scope);
      if n.op !in w.fns {
        RunRaises(w, n, Resolve, Now(), ScopeOf(scope));
        Fail(n, UndefinedFunction);
        return NoneV;
      }
      RunPerforms(w, n, Resolve, Now(), ScopeOf(scope));
      var fn := w.fns[n.op];
      FunctionsAreCode(w, code);

      var argv: seq<Value> := [];
      for i := 0 to |n.args|
        invariant Ready(n, scope) && old(steps) <= steps
        invariant |argv| == i && Ahead(n, Operands(argv), scope) == r
      {
        var a := EvalOperand(n, scope, argv, i);
        if Stopping() { return NoneV; }
        argv := argv + [a];
      }

      if callDepth >= w.limits.maxCallDepth {
        RunRaises(w, n, Operands(argv), Now(), ScopeOf(scope));
        Fail(n, DepthLimit);
        return NoneV;
      }
      var frame := CallFrame(fn, argv);
      RunPerforms(w, n, Operands(argv), Now(), ScopeOf(scope));
      callDepth := callDepth + 1;
      v := RunBody(n, fn, scope, frame, r);
      callDepth := callDepth - 1;
    }

    /** A fresh frame with the parameters bound left to right. */
    method CallFrame(fn: Node, argv: seq<Value>) returns (frame: Frame)
      ensures fresh(frame) && frame.parent == global
      ensures frame.vars == BindParams(fn.params, argv, |fn.params|)
    {
      frame := new Frame(global);
      for i := 0 to |fn.params|
        invariant frame.vars == BindParams(fn.params, argv, i)
      {
        frame.vars := frame.vars[fn.params[i] := if i < |argv| then argv[i] else NoneV];
      }
    }

    /** The callee's body, one statement after the other, in its own frame. */
    method RunBody(n: Node, fn: Node, scope: Frame, frame: Frame, ghost r: Out) returns (v: Value)
      requires Ready(n, scope) && n.kind == Call && fn in code && callDepth >= 1
      requires frame.parent == global && frame != global && frame != scope
      requires Ahead(n, Callee(fn, 0, frame.vars, NoneV), scope) == r
      modifies this, global, frame
      ensures Valid() && old(steps) <= steps && callDepth == old(callDepth)
      ensures At(r.(m := r.m.(depth := r.m.depth + 1)), scope, v)
      decreases Remaining(w, Now()) + Weight(n), n, 4
    {
      hide Run, Semantics.Eval, Closed, Indexable;
      v := NoneV;
      for i := 0 to |fn.children|
        invariant Ready(n, scope) && old(steps) <= steps && callDepth == old(callDepth)
        invariant Ahead(n, Callee(fn, i, frame.vars, v), scope) == r
      {
        MembersOf(w, code, fn, fn.children[i]);
        RunBodies(w, n, Callee(fn, i, frame.vars, v), Now(), ScopeOf(scope));
        v := Eval(fn.children[i], frame);
        if Stopping() { return; }
      }
      ghost var c := Callee(fn, |fn.children|, frame.vars, v);
      RunPerforms(w, n, c, Now(), ScopeOf(scope));
      RunReturns(w, n, Finished(v), Applied(Leave, Now(), ScopeOf(scope)).0, ScopeOf(scope));
    }

    method EvalDrive(n: Node, scope: Frame) returns (v: Value)
      requires Ready(n, scope) && (n.kind == Drive || n.kind == Backward)
      modifies this, global, scope
      ensures Valid() && old(steps) <= steps
      ensures At(old(Ahead(n, Begin(n.kind), scope)), scope, v)
      decreases Remaining(w, Now()) + Weight(n), n, 7
    {
      hide Run, Semantics.Eval, Closed, Indexable;
      ghost var r := Ahead(n, Begin(n.kind), scope);
      var ok, speed := EvalInt(n, scope, [], 0);
      if !ok { return NoneV; }
      var ok2, ms := EvalInt(n, scope, [] + [IntV(speed)], 1);
      if !ok2 { return NoneV; }
      ghost var c := Operands([] + [IntV(speed)] + [IntV(ms)]);
      if speed < 0 || speed > 100 {
        RunRaises(w, n, c, Now(), ScopeOf(scope));
        Fail(n, SpeedRange);
        return NoneV;
      }
      if ms < 0 || ms > 10000 {
        RunRaises(w, n, c, Now(), ScopeOf(scope));
        Fail(n, DurationRange);
        return NoneV;
      }
      var command := if n.kind == Drive then DriveForward(speed, ms) else DriveBackward(speed, ms);
      RunPerforms(w, n, c, Now(), ScopeOf(scope));
      RunReturns(w, n, Finished(NoneV), Applied(Emit(command), Now(), ScopeOf(scope)).0, ScopeOf(scope));
      Report(Act(command));
      return NoneV;
    }

    method EvalTurn(n: Node, scope: Frame) returns (v: Value)
      requires Ready(n, scope) && (n.kind == TurnLeft || n.kind == TurnRight)
      modifies this, global, scope
      ensures Valid() && old(steps) <= steps
      ensures At(old(Ahead(n, Begin(n.kind), scope)), scope, v)
      decreases Remaining(w, Now()) + Weight(n), n, 7
    {
      hide Run, Semantics.Eval, Closed, Indexable;
      ghost var r := Ahead(n, Begin(n.kind), scope);
      var ok, degrees := EvalInt(n, scope, [], 0);
      if !ok { return NoneV; }
      ghost var c := Operands([] + [IntV(degrees)]);
      if degrees < 0 || degrees > 3600 {
        RunRaises(w, n, c, Now(), ScopeOf(scope));
        Fail(n, DegreesRange);
        return NoneV;
      }
      var command := if n.kind == TurnLeft then TurnLeftBy(degrees) else TurnRightBy(degrees);
      RunPerforms(w, n, c, Now(), ScopeOf(scope));
      RunReturns(w, n, Finished(NoneV), Applied(Emit(command), Now(), ScopeOf(scope)).0, ScopeOf(scope));
      Report(Act(command));
      return NoneV;
    }

    method EvalWait(n: Node, scope: Frame) returns (v: Value)
      requires Ready(n, scope) && n.kind == Wait
      modifies this, global, scope
      ensures Valid() && old(steps) <= steps
      ensures At(old(Ahead(n, Begin(n.kind), scope)), scope, v)
      decreases Remaining(w, Now()) + Weight(n), n, 7
    {
      hide Run, Semantics.Eval, Closed, Indexable;
      ghost var r := Ahead(n, Begin(n.kind), scope);
      var ok, ms := EvalInt(n, scope, [], 0);
      if !ok { return NoneV; }
      ghost var c := Operands([] + [IntV(ms)]);
      if ms < 0 || ms > 10000 {
        RunRaises(w, n, c, Now(), ScopeOf(scope));
        Fail(n, DurationRange);
        return NoneV;
      }
      RunPerforms(w, n, c, Now(), ScopeOf(scope));
      RunReturns(w, n, Finished(NoneV), Applied(Emit(WaitMs(ms)), Now(), ScopeOf(scope)).0, ScopeOf(scope));
      Report(Act(WaitMs(ms)));
      return NoneV;
    }

    method EvalLight(n: Node, scope: Frame) returns (v: Value)
      requires Ready(n, scope) && n.kind == Light
      modifies this, global, scope
      ensures Valid() && old(steps) <= steps
      ensures At(old(Ahead(n, Begin(n.kind), scope)), scope, v)
      decreases Remaining(w, Now()) + Weight(n), n, 7
    {
      hide Run, Semantics.Eval, Closed, Indexable;
      ghost var r := Ahead(n, Begin(n.kind), scope);
      var color := EvalOperand(n, scope, [], 0);
      if Stopping() { return NoneV; }
      ghost var c := Operands([] + [color]);
      if !color.ColorV? {
        RunRaises(w, n, c, Now(), ScopeOf(scope));
        Fail(n, ExpectedColor);
        return NoneV;
      }
      RunPerforms(w, n, c, Now(), ScopeOf(scope));
      RunReturns(w, n, Finished(NoneV), Applied(Emit(SetLight(color.code)), Now(), ScopeOf(scope)).0, ScopeOf(scope));
      Report(Act(SetLight(color.code)));
      return NoneV;
    }

    method EvalPlainCommand(n: Node, scope: Frame) returns (v: Value)
      requires Ready(n, scope) && (n.kind == Stop || n.kind == Beep)
      modifies this, global, scope
      ensures Valid() && old(steps) <= steps
      ensures At(old(Ahead(n, Begin(n.kind), scope)), scope, v)
      decreases Remaining(w, Now()) + Weight(n), n, 7
    {
      hide Run, Semantics.Eval, Closed, Indexable;
      ghost var r := Ahead(n, Begin(n.kind), scope);
      var command := if n.kind == Stop then StopMotors else BeepOnce;
      RunPerforms(w, n, Operands([]), Now(), ScopeOf(scope));
      RunReturns(w, n, Finished(NoneV), Applied(Emit(command), Now(), ScopeOf(scope)).0, ScopeOf(scope));
      Report(Act(command));
      return NoneV;
    }

    method EvalSensor(n: Node, scope: Frame) returns (v: Value)
      requires Ready(n, scope) && IsSensor(n.kind)
      modifies this, global, scope
      ensures Valid() && old(steps) <= steps
      ensures At(old(Ahead(n, Begin(n.kind), scope)), scope, v)
      decreases Remaining(w, Now()) + Weight(n), n, 7
    {
      hide Run, Semantics.Eval, Closed, Indexable;
      ghost var r := Ahead(n, Begin(n.kind), scope);
      v := if n.kind == DistanceCm then IntV(w.host.distance(trace)) else BoolV(w.host.flag(n.kind, trace));
      RunPerforms(w, n, Operands([]), Now(), ScopeOf(scope));
      RunReturns(w, n, Finished(v), Applied(Read(n.kind, v), Now(), ScopeOf(scope)).0, ScopeOf(scope));
      Report(Sensed(n.kind, v));
    }

    method EvalCompare(n: Node, scope: Frame) returns (v: Value)
      requires Ready(n, scope) && n.kind == Compare
      modifies this, global, scope
      ensures Valid() && old(steps) <= steps
      ensures At(old(Ahead(n, Begin(n.kind), scope)), scope, v)
      decreases Remaining(w, Now()) + Weight(n), n, 7
    {
      hide Run, Semantics.Eval, Closed, Indexable;
      ghost var r := Ahead(n, Begin(n.kind), scope);
      var a := EvalOperand(n, scope, [], 0);
      if Stopping() { return NoneV; }
      var b := EvalOperand(n, scope, [] + [a], 1);
      if Stopping() { return NoneV; }
      ghost var c := Operands([] + [a] + [b]);
      if !a.IntV? || !b.IntV? {
        RunRaises(w, n, c, Now(), ScopeOf(scope));
        Fail(n, CompareOperands);
        return NoneV;
      }
      var x, y, holds := a.i, b.i, false;
      if n.op == "<" { holds := x < y; }
      else if n.op == ">" { holds := x > y; }
      else if n.op == "=" { holds := x == y; }
      else if n.op == "<=" { holds := x <= y; }
      else if n.op == ">=" { holds := x >= y; }
      RunReturns(w, n, c, Now(), ScopeOf(scope));
      return BoolV(holds);
    }

    method EvalBoolean(n: Node, scope: Frame) returns (v: Value)
      requires Ready(n, scope) && n.kind == BooleanOp
      modifies this, global, scope
      ensures Valid() && old(steps) <= steps
      ensures At(old(Ahead(n, Begin(n.kind), scope)), scope, v)
      decreases Remaining(w, Now()) + Weight(n), n, 7
    {
      hide Run, Semantics.Eval, Closed, Indexable;
      ghost var r := Ahead(n, Begin(n.kind), scope);
      if n.op == "not" {
        var a := EvalOperand(n, scope, [], 0);
        if Stopping() { return NoneV; }
        RunReturns(w, n, Operands([] + [a]), Now(), ScopeOf(scope));
        return BoolV(!a.Truthy());
      }
      var isAnd := n.op == "and";
      ghost var vals: seq<Value> := [];
      for i := 0 to |n.args|
        invariant Ready(n, scope) && old(steps) <= steps
        invariant |vals| == i && Ahead(n, Operands(vals), scope) == r
      {
        var a := EvalOperand(n, scope, vals, i);
        if Stopping() { return NoneV; }
        if isAnd && !a.Truthy() {
          RunReturns(w, n, Finished(BoolV(false)), Now(), ScopeOf(scope));
          return BoolV(false);
        }
        if !isAnd && a.Truthy() {
          RunReturns(w, n, Finished(BoolV(true)), Now(), ScopeOf(scope));
          return BoolV(true);
        }
        vals := vals + [a];
      }
      RunReturns(w, n, Operands(vals), Now(), ScopeOf(scope));
      return BoolV(isAnd);
    }

    method EvalArithmetic(n: Node, scope: Frame) returns (v: Value)
      requires Ready(n, scope) && n.kind == Arithmetic
      modifies this, global, scope
      ensures Valid() && old(steps) <= steps
      ensures At(old(Ahead(n, Begin(n.kind), scope)), scope, v)
      decreases Remaining(w, Now()) + Weight(n), n, 7
    {
      hide Run, Semantics.Eval, Closed, Indexable, Plan, Finish, Accept, FoldArith, TruncDiv;
      ghost var r := Ahead(n, Begin(n.kind), scope);
      var acc := 0;
      ghost var vals: seq<Value> := [];
      NoFold(n.op);
      for i := 0 to |n.args|
        invariant Ready(n, scope) && old(steps) <= steps
        invariant |vals| == i && Ahead(n, Operands(vals), scope) == r
        invariant acc == FoldArith(n.op, vals)
      {
        var a := EvalOperand(n, scope, vals, i);
        if Stopping() { return NoneV; }
        ArithmeticSteps(n, vals, a);
        if !a.IntV? {
          RunFails(w, n, ArithmeticOperands, Now(), ScopeOf(scope));
          Fail(n, ArithmeticOperands);
          return NoneV;
        }
        if i == 0 { acc := a.i; }
        else if n.op == "+" { acc := acc + a.i; }
        else if n.op == "-" { acc := acc - a.i; }
        else if n.op == "*" { acc := acc * a.i; }
        else {
          if a.i == 0 {
            RunFails(w, n, DivisionByZero, Now(), ScopeOf(scope));
            Fail(n, DivisionByZero);
            return NoneV;
          }
          acc := TruncDiv(acc, a.i);
        }
        vals := vals + [a];
      }
      ArithmeticEnds(w, n, vals, Now(), ScopeOf(scope));
      return IntV(acc);
    }
  }

  /** The pre-scan that finds the program's functions. */
  method CollectFunctions(root: Node) returns (out: map<string, Node>)
    ensures out == Functions(root)
  {
    out := map[];
    if root.kind == DefineFunc { out := out[root.op := root]; }
    for i := 0 to |root.children|
      invariant out == FunctionsUpTo(root, i)
    {
      var c := root.children[i];
      if c.kind == DefineFunc { out := out[c.op := c]; }
    }
  }

  /** Runs a program whose arguments are all there: the result and the whole trace are
      those of the reference semantics, for every host, cancel flag and limits. */
  method Execute(root: Node, host: Host, limits: Limits) returns (o: Outcome)
    requires Indexable(Nodes(root))
    ensures o == Semantics.Execute(host, limits, root)
  {
    var fns := CollectFunctions(root);
    var w := World(host, limits, fns);
    ProgramIsClosed(w, root);
    NodesClosed(root, root);
    var st := new ExecState(w, Nodes(root));
    st.Report(ProgramStart);
    assert st.Now() == START;
    var v := st.Eval(root, st.global);
    if st.cancelled {
      st.Report(Act(StopMotors));
      st.Report(ProgramError(RunCancelled));
      return Outcome(false, Cancelled, st.trace);
    }
    if st.errored {
      st.Report(Act(StopMotors));
      st.Report(ProgramError(RunFailed(st.errorFault)));
      return Outcome(false, Errored(st.errorSpan, st.errorFault), st.trace);
    }
    st.Report(ProgramDone);
    return Outcome(true, Running, st.trace);
  }
}
