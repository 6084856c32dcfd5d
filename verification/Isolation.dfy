// Lexical isolation of variables (src/engine.cpp:12-28, 78-113, 190-210).

module Isolation {
  import opened Ast
  import opened Tree
  import opened Semantics
  import opened Programs

  // ---- a call sees nothing of its caller's locals ---------------------------------------------------

  /** Once the arguments are evaluated, a call's effect and value do not depend on the
      caller's frame, and the caller's frame is left as it was. */
  lemma {:induction false} CallIgnoresCaller(w: World, n: Node, vals: seq<Value>, m: Machine, sc: Scope, sc': Scope)
    requires n.kind == Call && |vals| == |n.args|
    ensures var r, s := Run(w, n, Operands(vals), m, sc), Run(w, n, Operands(vals), m, sc');
            r.v == s.v && r.m == s.m && r.sc == sc && s.sc == sc'
  {
    hide Eval;
    if n.op in w.fns && m.depth < w.limits.maxCallDepth {
      var fn := w.fns[n.op];
      var c := Callee(fn, 0, BindParams(fn.params, vals, |fn.params|), NoneV);
      CalleeIgnoresCaller(w, n, c, m.(depth := m.depth + 1), sc, sc');
    }
  }

  lemma {:induction false} CalleeIgnoresCaller(w: World, n: Node, c: Ctl, m: Machine, sc: Scope, sc': Scope)
    requires Fits(n, c) && c.Callee?
    ensures var r, s := Run(w, n, c, m, sc), Run(w, n, c, m, sc');
            r.v == s.v && r.m == s.m && r.sc == sc && s.sc == sc'
    decreases |c.fn.children| - c.i
  {
    hide Eval;
    if c.i < |c.fn.children| {
      var r := Eval(w, c.fn.children[c.i], m, Local(c.frame));
      if r.m.status.Running? {
        CalleeIgnoresCaller(w, n, Callee(c.fn, c.i + 1, r.sc.vars, r.v), r.m, sc, sc');
      }
    }
  }

  // ---- where names come from ---------------------------------------------------------------------------

  /** `names` contains every name that a define in the program can bind. */
  ghost predicate Binders(code: set<Node>, names: set<string>) {
    forall n :: n in code && n.kind == DefineVar ==> n.op in names
  }

  function Locals(sc: Scope): set<string> { if sc.Local? then sc.vars.Keys else {} }

  /** From (m, sc) to (m', sc'): no name disappears, every new name is bound by a define,
      and code running in a call's frame neither adds nor removes a global. */
  ghost predicate NamesKept(m: Machine, sc: Scope, m': Machine, sc': Scope, names: set<string>) {
    && m.globals.Keys <= m'.globals.Keys <= m.globals.Keys + names
    && Locals(sc) <= Locals(sc') <= Locals(sc) + names
    && (sc.Local? ==> m'.globals.Keys == m.globals.Keys)
  }

  lemma FinishNames(w: World, n: Node, vals: seq<Value>, m: Machine, sc: Scope)
    requires |vals| == Wanted(n)
    ensures var move := Finish(w, n, vals, m, sc);
            && (move.Perform? && move.e.Bind? ==> n.kind == DefineVar && move.e.name == n.op)
            && (move.Perform? && move.e.Assign? ==> Defined(move.e.name, m.globals, sc))
  {
    hide Reading, FoldArith, Lookup, Defined, BindParams, Holds;
  }

  lemma PlanNames(w: World, n: Node, c: Ctl, m: Machine, sc: Scope, names: set<string>)
    requires Fits(n, c) && (n.kind == DefineVar ==> n.op in names)
    ensures var move := Plan(w, n, c, m, sc);
            move.Perform? ==> NamesKept(m, sc, Applied(move.e, m, sc).0, Applied(move.e, m, sc).1, names)
  {
    hide Finish;
    if c.Operands? && |c.vals| == Wanted(n) { FinishNames(w, n, c.vals, m, sc); }
  }

  lemma {:induction false} EvalNames(w: World, n: Node, m: Machine, sc: Scope, code: set<Node>, names: set<string>)
    requires Closed(w, code) && Binders(code, names) && n in code
    ensures NamesKept(m, sc, Eval(w, n, m, sc).m, Eval(w, n, m, sc).sc, names)
    decreases Remaining(w, m), n, 9, 0, 0
  {
    hide Run, Closed, Binders, Highlightable;
    var polled := m.(polls := m.polls + 1);
    if !m.status.Running? || w.host.cancel(m.polls, m.trace) {
    } else if !Highlightable(n.kind) {
      RunNames(w, n, Begin(n.kind), polled, sc, code, names);
    } else if m.steps < w.limits.maxTotalSteps {
      RunNames(w, n, Begin(n.kind), polled.(steps := m.steps + 1, trace := m.trace + [NodeStart(n)]), sc, code, names);
    }
  }

  lemma {:induction false} RunNames(w: World, n: Node, c: Ctl, m: Machine, sc: Scope, code: set<Node>, names: set<string>)
    requires Closed(w, code) && Binders(code, names) && n in code
    requires Fits(n, c) && (c.Callee? ==> c.fn in code)
    ensures NamesKept(m, sc, Run(w, n, c, m, sc).m, Run(w, n, c, m, sc).sc, names)
    decreases Remaining(w, m) + Weight(n), n, Stage(c), Left(c), Todo(n, c)
  {
    hide Plan, Feed, Fits, Eval, Applied, Stage, Left, Todo, Highlightable, Closed;
    PlanSensible(w, n, c, m, sc);
    PlanNames(w, n, c, m, sc, names);
    match Plan(w, n, c, m, sc)
    case Return(_) =>
    case Raise(_) =>
    case Wrong =>
    case Visit(child) =>
      MembersOf(w, code, n, child);
      EvalNames(w, child, m, sc, code, names);
      var r := Eval(w, child, m, sc);
      FeedSensible(n, c, r.v);
      if r.m.status.Running? { RunNames(w, n, Feed(n, c, r.v), r.m, r.sc, code, names); }
    case Body(child) =>
      BodySensible(n, c, c.frame, c.last);
      MembersOf(w, code, c.fn, child);
      EvalNames(w, child, m, Local(c.frame), code, names);
      var r := Eval(w, child, m, Local(c.frame));
      BodySensible(n, c, r.sc.vars, r.v);
      if r.m.status.Running? { RunNames(w, n, Callee(c.fn, c.i + 1, r.sc.vars, r.v), r.m, sc, code, names); }
    case Perform(e, next) =>
      AppliedGrows(e, m, sc);
      PlanEnters(w, n, c, m, sc);
      FunctionsAreCode(w, code);
      RunNames(w, n, next, Applied(e, m, sc).0, Applied(e, m, sc).1, code, names);
  }

  /** set! never adds a name: at the end of a run every global was bound by a define. */
  lemma {:induction false} GlobalsAreDefined(host: Host, limits: Limits, root: Node, name: string)
    requires name in Eval(World(host, limits, Functions(root)), root, START, Top).m.globals
    ensures exists n :: n in Nodes(root) && n.kind == DefineVar && n.op == name
  {
    hide Eval, Functions;
    var w := World(host, limits, Functions(root));
    var names := set n | n in Nodes(root) && n.kind == DefineVar :: n.op;
    ProgramIsClosed(w, root);
    EvalNames(w, root, START, Top, Nodes(root), names);
  }
}
