/** Fuel only bounds the depth of a run: once a run has an answer, more fuel gives the same
    one. So there is a well-defined result of a program, and the engine computes it. */
module Fuel {
  import opened Common
  import opened Language
  import opened Scopes
  import opened Structured
  import FM = FlagMachine
  import Simulation

  lemma {:induction false} EvalMore(p: Prims, e: Expr, ks: seq<Kind>, st: State, fuel: nat, more: nat)
    requires Rooted(ks) && |st| == |ks| && fuel <= more
    requires !Eval(p, e, ks, st, fuel).out.NoFuel?
    ensures Eval(p, e, ks, st, more) == Eval(p, e, ks, st, fuel)
    decreases fuel, e, 2
  {
    match e
    case Const(_) =>
    case ReadVar(_) =>
    case Unary(_, a) => EvalMore(p, a, ks, st, fuel, more);
    case Binary(_, a, b) =>
      EvalMore(p, a, ks, st, fuel, more);
      var r := Eval(p, a, ks, st, fuel);
      if r.out.Ok? { EvalMore(p, b, ks, r.st, fuel, more); }
    case And(a, b) =>
      EvalMore(p, a, ks, st, fuel, more);
      var r := Eval(p, a, ks, st, fuel);
      if r.out.Ok? && p.truthy(r.out.v) { EvalMore(p, b, ks, r.st, fuel, more); }
    case Or(a, b) =>
      EvalMore(p, a, ks, st, fuel, more);
      var r := Eval(p, a, ks, st, fuel);
      if r.out.Ok? && !p.truthy(r.out.v) { EvalMore(p, b, ks, r.st, fuel, more); }
    case Add(a, b) =>
      EvalMore(p, b, ks, st, fuel, more);
      var r := Eval(p, b, ks, st, fuel);
      if r.out.Ok? { EvalMore(p, a, ks, r.st, fuel, more); }
    case Update(_, _, operand) =>
      if operand.Some? { EvalMore(p, operand.value, ks, st, fuel, more); }
    case Call(name, args) =>
      var f := GetFunction(st, name);
      if f.Some? {
        InvokeMore(p, e, f.value, ks, st, fuel, more);
      } else if p.isMethod(name) {
        match args
        case Positional(values) => EvalListMore(p, values, ks, st, fuel, more);
        case Named(named) => EvalNamedMore(p, named, ks, st, fuel, more);
      }
  }

  lemma {:induction false} EvalListMore(p: Prims, es: List<Expr>, ks: seq<Kind>, st: State, fuel: nat, more: nat)
    requires Rooted(ks) && |st| == |ks| && fuel <= more
    requires !EvalList(p, es, ks, st, fuel).out.NoFuel?
    ensures EvalList(p, es, ks, st, more) == EvalList(p, es, ks, st, fuel)
    decreases fuel, es, 0
  {
    if es.Cons? {
      EvalMore(p, es.head, ks, st, fuel, more);
      var r := Eval(p, es.head, ks, st, fuel);
      if r.out.Ok? { EvalListMore(p, es.tail, ks, r.st, fuel, more); }
    }
  }

  lemma {:induction false} EvalNamedMore(p: Prims, named: List<NamedArg>, ks: seq<Kind>, st: State, fuel: nat,
                                         more: nat)
    requires Rooted(ks) && |st| == |ks| && fuel <= more
    requires !EvalNamed(p, named, ks, st, fuel).out.NoFuel?
    ensures EvalNamed(p, named, ks, st, more) == EvalNamed(p, named, ks, st, fuel)
    decreases fuel, named, 0
  {
    if named.Cons? {
      RunInitMore(p, named.head.name, named.head.e, ks, st, fuel, more);
      var r := RunInit(p, named.head.name, named.head.e, ks, st, fuel);
      if r.out.Ok? { EvalNamedMore(p, named.tail, ks, r.st, fuel, more); }
    }
  }

  lemma {:induction false} RunInitMore(p: Prims, name: string, e: Expr, ks: seq<Kind>, st: State, fuel: nat, more: nat)
    requires Rooted(ks) && |st| == |ks| && fuel <= more
    requires !RunInit(p, name, e, ks, st, fuel).out.NoFuel?
    ensures RunInit(p, name, e, ks, st, more) == RunInit(p, name, e, ks, st, fuel)
    decreases fuel, e, 3
  {
    var a := AddVar(st, name);
    if a.Changed? { EvalMore(p, e, ks, a.st, fuel, more); }
  }

  lemma {:induction false} InvokeMore(p: Prims, e: Expr, f: Func, ks: seq<Kind>, st: State, fuel: nat, more: nat)
    requires Rooted(ks) && |st| == |ks| && e.Call? && fuel <= more
    requires !Invoke(p, e, f, ks, st, fuel).out.NoFuel?
    ensures Invoke(p, e, f, ks, st, more) == Invoke(p, e, f, ks, st, fuel)
    decreases fuel, e, 1
  {
    var inner, entry := [Function] + ks, [Fresh()] + st;
    RunActionsMore(p, Params(f.formals), inner, entry, fuel - 1, more - 1);
    var d := RunActions(p, Params(f.formals), inner, entry, fuel - 1);
    if d.out.Ok? {
      match e.args {
        case Positional(values) => EvalListMore(p, values, ks, d.st[1..], fuel, more);
        case Named(named) => BindNamedMore(p, named, ks, d.st, fuel, more);
      }
      var b := BindActuals(p, e, f.formals, ks, d.st, fuel);
      if b.out.Ok? { ExecMore(p, f.body, inner, b.st, fuel - 1, more - 1); }
    }
  }

  lemma {:induction false} BindNamedMore(p: Prims, named: List<NamedArg>, ks: seq<Kind>, st: State, fuel: nat,
                                         more: nat)
    requires Rooted(ks) && |st| == |ks| + 1 && fuel <= more
    requires !BindNamed(p, named, ks, st, fuel).out.NoFuel?
    ensures BindNamed(p, named, ks, st, more) == BindNamed(p, named, ks, st, fuel)
    decreases fuel, named, 0
  {
    if named.Cons? {
      EvalMore(p, named.head.e, ks, st[1..], fuel, more);
      var r := Eval(p, named.head.e, ks, st[1..], fuel);
      if r.out.Ok? {
        var c := SetVar([Function] + ks, [st[0]] + r.st, named.head.name, r.out.v, true);
        if c.Changed? { BindNamedMore(p, named.tail, ks, c.st, fuel, more); }
      }
    }
  }

  lemma {:induction false} RunActionsMore(p: Prims, actions: List<Action>, ks: seq<Kind>, st: State, fuel: nat,
                                          more: nat)
    requires Rooted(ks) && |st| == |ks| && fuel <= more
    requires !RunActions(p, actions, ks, st, fuel).out.NoFuel?
    ensures RunActions(p, actions, ks, st, more) == RunActions(p, actions, ks, st, fuel)
    decreases fuel, actions, 0
  {
    if actions.Cons? {
      match actions.head {
        case Evaluate(e) => EvalMore(p, e, ks, st, fuel, more);
        case Declare(Decl(_, None)) =>
        case Declare(Decl(name, Some(e))) => RunInitMore(p, name, e, ks, st, fuel, more);
      }
      var r := RunAction(p, actions.head, ks, st, fuel);
      if r.out.Ok? { RunActionsMore(p, actions.tail, ks, r.st, fuel, more); }
    }
  }

  lemma {:induction false} ExecMore(p: Prims, s: Stmt, ks: seq<Kind>, st: State, fuel: nat, more: nat)
    requires Rooted(ks) && |st| == |ks| && fuel <= more
    requires !Exec(p, s, ks, st, fuel).c.Exhausted?
    ensures Exec(p, s, ks, st, more) == Exec(p, s, ks, st, fuel)
    decreases fuel, s, 1
  {
    match s
    case Nop =>
    case Simple(actions) => RunActionsMore(p, actions, ks, st, fuel, more);
    case Group(items) => ExecListMore(p, items, ks, st, fuel, more);
    case Conditional(b) =>
      EvalMore(p, b.cond, ks, st, fuel, more);
      var r := Eval(p, b.cond, ks, st, fuel);
      if r.out.Ok? && p.truthy(r.out.v) { ExecMore(p, b.body, ks, r.st, fuel, more); }
    case If(b, elifs, otherwise) =>
      EvalMore(p, b.cond, ks, st, fuel, more);
      var r := Eval(p, b.cond, ks, st, fuel);
      if r.out.Ok? {
        if p.truthy(r.out.v) {
          ExecMore(p, b.body, ks, r.st, fuel, more);
        } else {
          ExecBranchesMore(p, elifs, otherwise, s, ks, r.st, fuel, more);
        }
      }
    case While(_, _) => ExecWhileMore(p, s, [Loop] + ks, [Fresh()] + st, fuel, more);
    case DoWhile(_, _) => ExecDoWhileMore(p, s, [Loop] + ks, [Fresh()] + st, fuel, more);
    case For(init, _, _, _) =>
      RunActionsMore(p, init, [Loop] + ks, [Fresh()] + st, fuel, more);
      var r := RunActions(p, init, [Loop] + ks, [Fresh()] + st, fuel);
      if r.out.Ok? { ExecForMore(p, s, [Loop] + ks, r.st, fuel, more); }
    case SwitchCase(subject, cases, _) =>
      EvalMore(p, subject, [Switch] + ks, [Fresh()] + st, fuel, more);
      var r := Eval(p, subject, [Switch] + ks, [Fresh()] + st, fuel);
      if r.out.Ok? { ExecCasesMore(p, cases, r.out.v, false, s, [Switch] + ks, r.st, fuel, more); }
    case Break =>
    case Continue =>
    case Return(result) =>
      if result.Some? { EvalMore(p, result.value, ks, st, fuel, more); }
    case Declaration(_) =>
  }

  lemma {:induction false} ExecListMore(p: Prims, items: List<Stmt>, ks: seq<Kind>, st: State, fuel: nat, more: nat)
    requires Rooted(ks) && |st| == |ks| && fuel <= more
    requires !ExecList(p, items, ks, st, fuel).c.Exhausted?
    ensures ExecList(p, items, ks, st, more) == ExecList(p, items, ks, st, fuel)
    decreases fuel, items, 0
  {
    if items.Cons? {
      ExecMore(p, items.head, ks, st, fuel, more);
      var r := Exec(p, items.head, ks, st, fuel);
      if r.c.Normal? { ExecListMore(p, items.tail, ks, r.st, fuel, more); }
    }
  }

  lemma {:induction false} ExecBranchesMore(p: Prims, branches: List<Branch>, otherwise: Stmt, within: Stmt,
                                            ks: seq<Kind>, st: State, fuel: nat, more: nat)
    requires Rooted(ks) && |st| == |ks| && fuel <= more
    requires branches < within && otherwise < within
    requires !ExecBranches(p, branches, otherwise, within, ks, st, fuel).c.Exhausted?
    ensures ExecBranches(p, branches, otherwise, within, ks, st, more)
      == ExecBranches(p, branches, otherwise, within, ks, st, fuel)
    decreases fuel, within, 0, branches, 1
  {
    if branches.Nil? {
      ExecMore(p, otherwise, ks, st, fuel, more);
    } else {
      ExecBranchMore(p, branches, otherwise, within, ks, st, fuel, more);
    }
  }

  /** How the first branch decides. */
  lemma FirstBranch(p: Prims, branches: List<Branch>, otherwise: Stmt, within: Stmt, ks: seq<Kind>, st: State,
                    fuel: nat)
    requires Rooted(ks) && |st| == |ks|
    requires branches < within && otherwise < within && branches.Cons?
    ensures var r := Eval(p, branches.head.cond, ks, st, fuel);
      ExecBranches(p, branches, otherwise, within, ks, st, fuel)
      == if !r.out.Ok? then X(Complete(r.out), r.st)
         else if p.truthy(r.out.v) then Exec(p, branches.head.body, ks, r.st, fuel)
         else ExecBranches(p, branches.tail, otherwise, within, ks, r.st, fuel)
  {
  }

  /** The first branch is taken, or the others decide. */
  lemma {:induction false} ExecBranchMore(p: Prims, branches: List<Branch>, otherwise: Stmt, within: Stmt,
                                          ks: seq<Kind>, st: State, fuel: nat, more: nat)
    requires Rooted(ks) && |st| == |ks| && fuel <= more
    requires branches < within && otherwise < within && branches.Cons?
    requires !ExecBranches(p, branches, otherwise, within, ks, st, fuel).c.Exhausted?
    ensures ExecBranches(p, branches, otherwise, within, ks, st, more)
      == ExecBranches(p, branches, otherwise, within, ks, st, fuel)
    decreases fuel, within, 0, branches, 0
  {
    var b := branches.head;
    FirstBranch(p, branches, otherwise, within, ks, st, fuel);
    FirstBranch(p, branches, otherwise, within, ks, st, more);
    EvalMore(p, b.cond, ks, st, fuel, more);
    var r := Eval(p, b.cond, ks, st, fuel);
    if r.out.Ok? {
      if p.truthy(r.out.v) {
        ExecMore(p, b.body, ks, r.st, fuel, more);
      } else {
        ExecBranchesMore(p, branches.tail, otherwise, within, ks, r.st, fuel, more);
      }
    }
  }

  lemma {:induction false} ExecWhileMore(p: Prims, s: Stmt, ks: seq<Kind>, st: State, fuel: nat, more: nat)
    requires Rooted(ks) && |st| == |ks| && s.While? && fuel <= more
    requires !ExecWhile(p, s, ks, st, fuel).c.Exhausted?
    ensures ExecWhile(p, s, ks, st, more) == ExecWhile(p, s, ks, st, fuel)
    decreases fuel, s, 0
  {
    EvalMore(p, s.cond, ks, st, fuel, more);
    var r := Eval(p, s.cond, ks, st, fuel);
    if r.out.Ok? && p.truthy(r.out.v) {
      ExecMore(p, s.body, ks, r.st, fuel, more);
      var b := Exec(p, s.body, ks, r.st, fuel);
      if b.c.Normal? || b.c.Continued? { ExecWhileMore(p, s, ks, b.st, fuel - 1, more - 1); }
    }
  }

  lemma {:induction false} ExecDoWhileMore(p: Prims, s: Stmt, ks: seq<Kind>, st: State, fuel: nat, more: nat)
    requires Rooted(ks) && |st| == |ks| && s.DoWhile? && fuel <= more
    requires !ExecDoWhile(p, s, ks, st, fuel).c.Exhausted?
    ensures ExecDoWhile(p, s, ks, st, more) == ExecDoWhile(p, s, ks, st, fuel)
    decreases fuel, s, 0
  {
    ExecMore(p, s.body, ks, st, fuel, more);
    var b := Exec(p, s.body, ks, st, fuel);
    if b.c.Normal? || b.c.Continued? {
      EvalMore(p, s.cond, ks, b.st, fuel, more);
      var r := Eval(p, s.cond, ks, b.st, fuel);
      if r.out.Ok? && p.truthy(r.out.v) { ExecDoWhileMore(p, s, ks, r.st, fuel - 1, more - 1); }
    }
  }

  lemma {:induction false} ExecForMore(p: Prims, s: Stmt, ks: seq<Kind>, st: State, fuel: nat, more: nat)
    requires Rooted(ks) && |st| == |ks| && s.For? && fuel <= more
    requires !ExecFor(p, s, ks, st, fuel).c.Exhausted?
    ensures ExecFor(p, s, ks, st, more) == ExecFor(p, s, ks, st, fuel)
    decreases fuel, s, 0
  {
    if s.test.Some? { EvalMore(p, s.test.value, ks, st, fuel, more); }
    var r := if s.test.None? then E(Ok(Integer(1)), st) else Eval(p, s.test.value, ks, st, fuel);
    if r.out.Ok? && p.truthy(r.out.v) {
      ExecMore(p, s.body, ks, r.st, fuel, more);
      var b := Exec(p, s.body, ks, r.st, fuel);
      if b.c.Normal? || b.c.Continued? {
        RunActionsMore(p, s.after, ks, b.st, fuel, more);
        var a := RunActions(p, s.after, ks, b.st, fuel);
        if a.out.Ok? { ExecForMore(p, s, ks, a.st, fuel - 1, more - 1); }
      }
    }
  }

  lemma {:induction false} ExecCasesMore(p: Prims, cases: List<Case>, subject: Value, hit: bool, s: Stmt,
                                         ks: seq<Kind>, st: State, fuel: nat, more: nat)
    requires Rooted(ks) && |st| == |ks| && s.SwitchCase? && cases < s && fuel <= more
    requires !ExecCases(p, cases, subject, hit, s, ks, st, fuel).c.Exhausted?
    ensures ExecCases(p, cases, subject, hit, s, ks, st, more) == ExecCases(p, cases, subject, hit, s, ks, st, fuel)
    decreases fuel, s, 0, cases
  {
    match cases
    case Nil =>
      if !hit { ExecMore(p, s.otherwise, ks, st, fuel, more); }
    case Cons(c, rest) =>
      EvalListMore(p, c.tests, ks, st, fuel, more);
      var t := EvalList(p, c.tests, ks, st, fuel);
      if t.out.Ok? {
        if Hits(p, subject, t.values) {
          ExecMore(p, c.body, ks, t.st, fuel, more);
          var b := Exec(p, c.body, ks, t.st, fuel);
          if b.c.Normal? { ExecCasesMore(p, rest, subject, true, s, ks, b.st, fuel, more); }
        } else {
          ExecCasesMore(p, rest, subject, hit, s, ks, t.st, fuel, more);
        }
      }
  }

  // ----- results without fuel -----

  /** `s` run from `st` ends with `x`. */
  ghost predicate Ends(p: Prims, s: Stmt, ks: seq<Kind>, st: State, x: ExecResult)
    requires Rooted(ks) && |st| == |ks|
  {
    !x.c.Exhausted? && exists fuel: nat :: Exec(p, s, ks, st, fuel) == x
  }

  /** The engine, started on unflagged contexts, ends with `f`. */
  ghost predicate EngineEnds(p: Prims, s: Stmt, ks: seq<Kind>, st: State, f: FM.Result)
    requires Rooted(ks) && |st| == |ks|
  {
    !f.out.NoFuel? && exists fuel: nat :: FM.RunStmt(p, s, ks, Simulation.Clean(st), fuel) == f
  }

  lemma {:induction false} OneResult(p: Prims, s: Stmt, ks: seq<Kind>, st: State, x: ExecResult, y: ExecResult)
    requires Rooted(ks) && |st| == |ks|
    requires Ends(p, s, ks, st, x) && Ends(p, s, ks, st, y)
    ensures x == y
  {
    var m: nat :| Exec(p, s, ks, st, m) == x;
    var n: nat :| Exec(p, s, ks, st, n) == y;
    if m <= n {
      ExecMore(p, s, ks, st, m, n);
    } else {
      ExecMore(p, s, ks, st, n, m);
    }
  }

  /** The flag-based engine terminates on a program exactly when the structured semantics
      does, and then with the corresponding outcome. */
  lemma {:induction false} EngineComputesSemantics(p: Prims, s: Stmt, ks: seq<Kind>, st: State)
    requires Rooted(ks) && |st| == |ks|
    ensures forall x :: Ends(p, s, ks, st, x) ==>
      exists f :: EngineEnds(p, s, ks, st, f) && Simulation.SameExec(f, x, ks)
    ensures forall f :: EngineEnds(p, s, ks, st, f) ==>
      exists x :: Ends(p, s, ks, st, x) && |x.st| == |ks| && Simulation.SameExec(f, x, ks)
  {
    forall x | Ends(p, s, ks, st, x)
      ensures exists f :: EngineEnds(p, s, ks, st, f) && Simulation.SameExec(f, x, ks)
    {
      var n: nat :| Exec(p, s, ks, st, n) == x;
      Simulation.StmtAgrees(p, s, ks, st, n);
      assert EngineEnds(p, s, ks, st, FM.RunStmt(p, s, ks, Simulation.Clean(st), n));
    }
    forall f | EngineEnds(p, s, ks, st, f)
      ensures exists x :: Ends(p, s, ks, st, x) && |x.st| == |ks| && Simulation.SameExec(f, x, ks)
    {
      var n: nat :| FM.RunStmt(p, s, ks, Simulation.Clean(st), n) == f;
      Simulation.StmtAgrees(p, s, ks, st, n);
      assert Ends(p, s, ks, st, Exec(p, s, ks, st, n));
    }
  }
}
