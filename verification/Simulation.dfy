/** The flag machine computes exactly what the structured semantics says. */
module Simulation {
  import opened Common
  import opened Language
  import opened Scopes
  import S = Structured
  import opened FlagMachine

  function CleanMarks(n: nat): (r: seq<Mark>)
    ensures |r| == n
  {
    seq(n, _ => Mark(0, Null))
  }

  /** No context of the chain is flagged: the machine as it is whenever code runs. */
  function Clean(st: State): Machine {
    M(st, CleanMarks(|st|))
  }

  /** The flags by which each completion travels. */
  function MarksOf(ks: seq<Kind>, c: S.Completion): (r: seq<Mark>)
    ensures |r| == |ks|
  {
    var clean := CleanMarks(|ks|);
    if ks == [] then clean else
    match c
    case Broke => clean[0 := Mark(BREAK_FLAG, Null)]
    case Continued => clean[0 := Mark(CONTINUE_FLAG, Null)]
    case Returned(v) => RaiseReturn(ks, clean, v)
    case _ => clean
  }

  /** An expression leaves no flags and the same value, state and exception. */
  ghost predicate SameEval(f: Result, r: S.EvalResult) {
    f.out == r.out && f.m == Clean(r.st)
  }

  ghost predicate SameList(f: ListResult, r: S.ListResult) {
    f.out == r.out && f.m == Clean(r.st) && (r.out.Ok? ==> f.values == r.values)
  }

  /** Actions and bindings: values are not used, everything else agrees. */
  ghost predicate SameRun(f: Result, r: S.EvalResult) {
    && f.m == Clean(r.st)
    && (f.out.Ok? <==> r.out.Ok?)
    && (!r.out.Ok? ==> f.out == r.out)
  }

  ghost predicate SameExec(f: Result, x: S.ExecResult, ks: seq<Kind>) {
    && f.m == M(x.st, MarksOf(ks, x.c))
    && match x.c
       case Failed(e) => f.out == Thrown(e)
       case Exhausted => f.out == NoFuel
       case _ => f.out.Ok?
  }

  lemma CleanFacts(ks: seq<Kind>, st: State)
    requires |ks| == |st| > 0
    ensures !Interrupted(Clean(st))
    ensures Push(Clean(st)) == Clean([Fresh()] + st)
    ensures Pop(Clean(st)) == Clean(st[1..])
    ensures CleanContinue(Clean(st)) == Clean(st)
    ensures ([Fresh()] + st)[1..] == st
  {
    assert (0 as bv32) & 0xFF == 0 && (0 as bv32) & 0xFE == 0;
    assert [Mark(0, Null)] + CleanMarks(|st|) == CleanMarks(|st| + 1);
    assert CleanMarks(|st|)[1..] == CleanMarks(|st| - 1);
    assert CleanContinue(Clean(st)).marks == CleanMarks(|st|);
  }

  lemma UnderClean(st: State, outer: State)
    requires |st| == |outer| + 1
    ensures Under(Clean(st), Clean(outer)) == Clean([st[0]] + outer)
  {
    assert [Mark(0, Null)] + CleanMarks(|outer|) == CleanMarks(|outer| + 1);
  }

  /** What the checks of a loop see after its body ended with completion `c`. */
  lemma FlagFacts(ks: seq<Kind>, st: State, c: S.Completion)
    requires |ks| == |st| > 0 && S.Scoped(c, ks)
    ensures var m := M(st, MarksOf(ks, c));
      && (Interrupted(m) <==> c.Broke? || c.Continued? || c.Returned?)
      && CleanContinue(m) == (if c.Continued? then Clean(st) else m)
  {
    var m := M(st, MarksOf(ks, c));
    assert (0 as bv32) & 0xFF == 0 && (0 as bv32) & 0xFE == 0;
    assert (1 as bv32) & 0xFF != 0 && (1 as bv32) & 0xFE == 0;
    assert (2 as bv32) & 0xFF != 0 && (2 as bv32) & 0xFE == 2;
    assert (0 as bv32) | 4 == 4 && (4 as bv32) & 0xFF != 0 && (4 as bv32) & 0xFE == 4;
    assert CleanContinue(m).marks == (if c.Continued? then CleanMarks(|st|) else m.marks);
  }

  /** Releasing a loop or switch context drops break and continue and keeps a return. */
  lemma LeaveFacts(ks: seq<Kind>, inner: seq<Kind>, f: Result, x: S.ExecResult)
    requires |ks| > 0 && (inner == [Loop] + ks || inner == [Switch] + ks)
    requires |x.st| == |inner| && S.Scoped(x.c, inner) && SameExec(f, x, inner)
    ensures SameExec(Drop(f), S.Leave(x, ks), ks)
  {
    assert inner[1..] == ks;
    assert NearestFunction(inner) == 1 + NearestFunction(ks);
    var c := S.Leave(x, ks).c;
    assert MarksOf(inner, x.c)[1..] == MarksOf(ks, c);
  }

  /** A call returns what the callee's context holds and leaves the caller unflagged. */
  lemma ReturnFacts(ks: seq<Kind>, c: S.Completion)
    requires |ks| > 0 && S.Scoped(c, [Function] + ks)
    ensures var marks := MarksOf([Function] + ks, c);
      && marks[1..] == CleanMarks(|ks|)
      && marks[0].ret == (if c.Returned? then c.v else Null)
  {
    assert NearestFunction([Function] + ks) == 0;
    assert MarksOf([Function] + ks, c)[1..] == CleanMarks(|ks|);
  }

  // ----- expressions -----

  lemma {:induction false} ExprAgrees(p: Prims, e: Expr, ks: seq<Kind>, st: State, fuel: nat)
    requires Rooted(ks) && |st| == |ks|
    ensures SameEval(RunExpr(p, e, ks, Clean(st), fuel), S.Eval(p, e, ks, st, fuel))
    decreases fuel, e, 2
  {
    CleanFacts(ks, st);
    match e
    case Const(_) =>
    case ReadVar(_) =>
    case Unary(_, a) => ExprAgrees(p, a, ks, st, fuel);
    case Binary(_, a, b) =>
      ExprAgrees(p, a, ks, st, fuel);
      ExprAgrees(p, b, ks, S.Eval(p, a, ks, st, fuel).st, fuel);
    case And(a, b) =>
      ExprAgrees(p, a, ks, st, fuel);
      ExprAgrees(p, b, ks, S.Eval(p, a, ks, st, fuel).st, fuel);
    case Or(a, b) =>
      ExprAgrees(p, a, ks, st, fuel);
      ExprAgrees(p, b, ks, S.Eval(p, a, ks, st, fuel).st, fuel);
    case Add(a, b) =>
      ExprAgrees(p, b, ks, st, fuel);
      var s := S.Eval(p, b, ks, st, fuel);
      if s.out.Ok? {
        SpineAgrees(p, e, Cons(s.out.v, Nil), ks, s.st, fuel);
      }
    case Update(_, _, operand) =>
      if operand.Some? {
        ExprAgrees(p, operand.value, ks, st, fuel);
      }
    case Call(name, args) =>
      var f := GetFunction(st, name);
      if f.Some? {
        CallAgrees(p, e, f.value, ks, st, fuel);
      } else if p.isMethod(name) {
        match args
        case Positional(values) =>
          ArgsAgree(p, values, ks, st, fuel);
          CleanFacts(ks, S.EvalList(p, values, ks, st, fuel).st);
        case Named(named) =>
          NamedArgsAgree(p, named, ks, st, fuel);
          CleanFacts(ks, S.EvalNamed(p, named, ks, st, fuel).st);
      }
  }

  /** BatchAddOperation against plain recursion: the value of the remaining spine, then the
      pending operands added from the left. */
  lemma {:induction false} SpineAgrees(p: Prims, seek: Expr, pending: List<Value>, ks: seq<Kind>, st: State, fuel: nat)
    requires Rooted(ks) && |st| == |ks| && seek.Add?
    ensures var r := S.Eval(p, seek.left, ks, st, fuel);
      RunSpine(p, seek, pending, ks, Clean(st), fuel)
      == F(if r.out.Ok? then FoldAdd(p, r.out.v, pending) else r.out, Clean(r.st))
    decreases fuel, seek, 1
  {
    if seek.left.Add? {
      ExprAgrees(p, seek.left.right, ks, st, fuel);
      var s := S.Eval(p, seek.left.right, ks, st, fuel);
      if s.out.Ok? {
        SpineAgrees(p, seek.left, Cons(s.out.v, pending), ks, s.st, fuel);
      }
    } else {
      ExprAgrees(p, seek.left, ks, st, fuel);
    }
  }

  lemma {:induction false} ArgsAgree(p: Prims, es: List<Expr>, ks: seq<Kind>, st: State, fuel: nat)
    requires Rooted(ks) && |st| == |ks|
    ensures SameList(RunArgs(p, es, ks, Clean(st), fuel), S.EvalList(p, es, ks, st, fuel))
    decreases fuel, es, 0
  {
    if es.Cons? {
      ExprAgrees(p, es.head, ks, st, fuel);
      var r := S.Eval(p, es.head, ks, st, fuel);
      CleanFacts(ks, r.st);
      ArgsAgree(p, es.tail, ks, r.st, fuel);
    }
  }

  lemma {:induction false} NamedArgsAgree(p: Prims, named: List<NamedArg>, ks: seq<Kind>, st: State, fuel: nat)
    requires Rooted(ks) && |st| == |ks|
    ensures SameList(RunNamedArgs(p, named, ks, Clean(st), fuel), S.EvalNamed(p, named, ks, st, fuel))
    decreases fuel, named, 0
  {
    if named.Cons? {
      InitAgrees(p, named.head.name, named.head.e, ks, st, fuel);
      var r := S.RunInit(p, named.head.name, named.head.e, ks, st, fuel);
      CleanFacts(ks, r.st);
      NamedArgsAgree(p, named.tail, ks, r.st, fuel);
    }
  }

  lemma {:induction false} InitAgrees(p: Prims, name: string, e: Expr, ks: seq<Kind>, st: State, fuel: nat)
    requires Rooted(ks) && |st| == |ks|
    ensures SameEval(RunInit(p, name, e, ks, Clean(st), fuel), S.RunInit(p, name, e, ks, st, fuel))
    decreases fuel, e, 3
  {
    CleanFacts(ks, st);
    var a := AddVar(st, name);
    if a.Changed? {
      ExprAgrees(p, e, ks, a.st, fuel);
    }
  }

  /** What a call is, from the bound arguments on. */
  lemma InvokeIs(p: Prims, e: Expr, f: Func, ks: seq<Kind>, st: State, fuel: nat)
    requires Rooted(ks) && |st| == |ks| && e.Call? && fuel > 0
    ensures var d := S.RunActions(p, S.Params(f.formals), [Function] + ks, [Fresh()] + st, fuel - 1);
      S.Invoke(p, e, f, ks, st, fuel) ==
      if !d.out.Ok? then S.E(d.out, d.st[1..]) else
      var b := S.BindActuals(p, e, f.formals, ks, d.st, fuel);
      if !b.out.Ok? then S.E(b.out, b.st[1..]) else
      var y := S.Exec(p, f.body, [Function] + ks, b.st, fuel - 1);
      S.E(CallResult(y.c), y.st[1..])
  {
  }

  function CallResult(c: S.Completion): Out {
    match c
    case Returned(v) => Ok(v)
    case Failed(error) => Thrown(error)
    case Exhausted => NoFuel
    case _ => Ok(Null)
  }

  lemma {:induction false} CallAgrees(p: Prims, e: Expr, f: Func, ks: seq<Kind>, st: State, fuel: nat)
    requires Rooted(ks) && |st| == |ks| && e.Call?
    ensures SameEval(RunCall(p, e, f, ks, Clean(st), fuel), S.Invoke(p, e, f, ks, st, fuel))
    decreases fuel, e, 1
  {
    if fuel > 0 {
      var inner := [Function] + ks;
      InvokeIs(p, e, f, ks, st, fuel);
      CleanFacts(ks, st);
      FormalsAgree(p, Params(f.formals), inner, [Fresh()] + st, fuel - 1);
      var d := S.RunActions(p, S.Params(f.formals), inner, [Fresh()] + st, fuel - 1);
      CleanFacts(inner, d.st);
      if d.out.Ok? {
        FillAgrees(p, e, f.formals, ks, d.st, fuel);
        var b := S.BindActuals(p, e, f.formals, ks, d.st, fuel);
        CleanFacts(inner, b.st);
        if b.out.Ok? {
          BodyAgrees(p, f.body, ks, b.st, fuel - 1);
        }
      }
    }
  }

  /** A body run as a call: both semantics take the same value from it. */
  lemma {:induction false} BodyAgrees(p: Prims, body: Stmt, ks: seq<Kind>, st: State, fuel: nat)
    requires Rooted(ks) && |st| == |ks| + 1
    ensures var x, y := RunStmt(p, body, [Function] + ks, Clean(st), fuel), S.Exec(p, body, [Function] + ks, st, fuel);
      && Pop(x.m) == Clean(y.st[1..])
      && (if x.out.Ok? then Ok(x.m.marks[0].ret) else x.out) == CallResult(y.c)
    decreases fuel, body, 3
  {
    var inner := [Function] + ks;
    StmtAgrees(p, body, inner, st, fuel);
    ReturnFacts(ks, S.Exec(p, body, inner, st, fuel).c);
  }

  lemma {:induction false} FormalsAgree(p: Prims, params: List<Decl>, ks: seq<Kind>, st: State, fuel: nat)
    requires Rooted(ks) && |st| == |ks|
    ensures SameRun(RunFormals(p, params, ks, Clean(st), fuel), S.RunActions(p, S.Declarations(params), ks, st, fuel))
    decreases fuel, params, 0
  {
    if params.Cons? {
      DeclAgrees(p, params.head, ks, st, fuel);
      FormalsAgree(p, params.tail, ks, S.RunAction(p, Declare(params.head), ks, st, fuel).st, fuel);
    }
  }

  lemma {:induction false} DeclAgrees(p: Prims, d: Decl, ks: seq<Kind>, st: State, fuel: nat)
    requires Rooted(ks) && |st| == |ks|
    ensures SameEval(RunDecl(p, d, ks, Clean(st), fuel), S.RunAction(p, Declare(d), ks, st, fuel))
    decreases fuel, d, 0
  {
    CleanFacts(ks, st);
    if d.init.Some? {
      InitAgrees(p, d.name, d.init.value, ks, st, fuel);
    }
  }

  lemma {:induction false} FillAgrees(p: Prims, e: Expr, formals: Formals, ks: seq<Kind>, st: State, fuel: nat)
    requires Rooted(ks) && |st| == |ks| + 1 && e.Call?
    ensures SameRun(Fill(p, e, formals, ks, Clean(st), fuel), S.BindActuals(p, e, formals, ks, st, fuel))
    decreases fuel, e, 0
  {
    CleanFacts([Function] + ks, st);
    match e.args
    case Named(named) => FillNamedAgrees(p, named, ks, st, fuel);
    case Positional(values) =>
      ArgsAgree(p, values, ks, st[1..], fuel);
      var a := S.EvalList(p, values, ks, st[1..], fuel);
      UnderClean(st, a.st);
      if a.out.Ok? {
        var own := Put(st[0], ANON_ARGS, Array(a.values));
        assert ([st[0]] + a.st)[0 := own] == [own] + a.st;
        FillPositionalAgrees(formals, a.values, [Function] + ks, [own] + a.st);
      }
  }

  lemma {:induction false} FillNamedAgrees(p: Prims, named: List<NamedArg>, ks: seq<Kind>, st: State, fuel: nat)
    requires Rooted(ks) && |st| == |ks| + 1
    ensures SameRun(FillNamed(p, named, ks, Clean(st), fuel), S.BindNamed(p, named, ks, st, fuel))
    decreases fuel, named, 0
  {
    if named.Cons? {
      CleanFacts([Function] + ks, st);
      ExprAgrees(p, named.head.e, ks, st[1..], fuel);
      var r := S.Eval(p, named.head.e, ks, st[1..], fuel);
      UnderClean(st, r.st);
      if r.out.Ok? {
        var c := SetVar([Function] + ks, [st[0]] + r.st, named.head.name, r.out.v, true);
        if c.Changed? {
          FillNamedAgrees(p, named.tail, ks, c.st, fuel);
        }
      }
    }
  }

  lemma FillPositionalAgrees(formals: Formals, values: List<Value>, ks: seq<Kind>, st: State)
    requires Rooted(ks) && |st| == |ks|
    ensures SameRun(FillPositional(formals, values, ks, Clean(st)), S.BindPositional(formals, values, ks, st))
  {
    if formals.Formals? && !formals.variadic {
      FillEachAgrees(formals.params, values, ks, st);
    }
  }

  lemma {:induction false} FillEachAgrees(params: List<Decl>, values: List<Value>, ks: seq<Kind>, st: State)
    requires Rooted(ks) && |st| == |ks|
    ensures SameRun(FillEach(params, values, ks, Clean(st)), S.BindEach(params, values, ks, st))
  {
    if params.Cons? && values.Cons? {
      var c := SetVar(ks, st, params.head.name, values.head, true);
      if c.Changed? {
        FillEachAgrees(params.tail, values.tail, ks, c.st);
      }
    }
  }

  // ----- statements -----

  lemma {:induction false} ActionsAgree(p: Prims, actions: List<Action>, ks: seq<Kind>, st: State, fuel: nat)
    requires Rooted(ks) && |st| == |ks|
    ensures SameRun(RunActions(p, actions, ks, Clean(st), fuel), S.RunActions(p, actions, ks, st, fuel))
    decreases fuel, actions, 0
  {
    if actions.Cons? {
      match actions.head {
        case Evaluate(e) => ExprAgrees(p, e, ks, st, fuel);
        case Declare(d) => DeclAgrees(p, d, ks, st, fuel);
      }
      var r := S.RunAction(p, actions.head, ks, st, fuel);
      CleanFacts(ks, r.st);
      ActionsAgree(p, actions.tail, ks, r.st, fuel);
    }
  }

  /** The main theorem. From unflagged contexts the engine ends a statement with the same
      state as the structured semantics, the same exception, and exactly the flags that
      encode the completion. */
  lemma {:induction false} StmtAgrees(p: Prims, s: Stmt, ks: seq<Kind>, st: State, fuel: nat)
    requires Rooted(ks) && |st| == |ks|
    ensures SameExec(RunStmt(p, s, ks, Clean(st), fuel), S.Exec(p, s, ks, st, fuel), ks)
    decreases fuel, s, 2
  {
    CleanFacts(ks, st);
    match s
    case Nop =>
    case Simple(actions) => ActionsAgree(p, actions, ks, st, fuel);
    case Group(items) => ListAgrees(p, items, ks, st, fuel);
    case Conditional(b) => BranchAgrees(p, b, ks, st, fuel);
    case If(first, elifs, otherwise) =>
      BranchAgrees(p, first, ks, st, fuel);
      var r := S.Eval(p, first.cond, ks, st, fuel);
      if r.out.Ok? && !p.truthy(r.out.v) {
        CleanFacts(ks, r.st);
        ElifsAgree(p, elifs, s, ks, r.st, fuel);
      }
    case While(_, _) => WhileStmtAgrees(p, s, ks, st, fuel);
    case DoWhile(_, _) => DoWhileStmtAgrees(p, s, ks, st, fuel);
    case For(_, _, _, _) => ForStmtAgrees(p, s, ks, st, fuel);
    case SwitchCase(_, _, _) => SwitchAgrees(p, s, ks, st, fuel);
    case Break =>
      assert (0 as bv32) | 2 == 2;
    case Continue =>
      assert (0 as bv32) | 1 == 1;
    case Return(result) =>
      if result.Some? {
        ExprAgrees(p, result.value, ks, st, fuel);
      }
    case Declaration(_) =>
  }

  lemma {:induction false} WhileStmtAgrees(p: Prims, s: Stmt, ks: seq<Kind>, st: State, fuel: nat)
    requires Rooted(ks) && |st| == |ks| && s.While?
    ensures SameExec(RunStmt(p, s, ks, Clean(st), fuel), S.Exec(p, s, ks, st, fuel), ks)
    decreases fuel, s, 1
  {
    CleanFacts(ks, st);
    WhileAgrees(p, s, [Loop] + ks, [Fresh()] + st, fuel);
    LeaveFacts(ks, [Loop] + ks, RunWhile(p, s, [Loop] + ks, Push(Clean(st)), fuel),
      S.ExecWhile(p, s, [Loop] + ks, [Fresh()] + st, fuel));
  }

  lemma {:induction false} DoWhileStmtAgrees(p: Prims, s: Stmt, ks: seq<Kind>, st: State, fuel: nat)
    requires Rooted(ks) && |st| == |ks| && s.DoWhile?
    ensures SameExec(RunStmt(p, s, ks, Clean(st), fuel), S.Exec(p, s, ks, st, fuel), ks)
    decreases fuel, s, 1
  {
    CleanFacts(ks, st);
    DoWhileAgrees(p, s, [Loop] + ks, [Fresh()] + st, fuel);
    LeaveFacts(ks, [Loop] + ks, RunDoWhile(p, s, [Loop] + ks, Push(Clean(st)), fuel),
      S.ExecDoWhile(p, s, [Loop] + ks, [Fresh()] + st, fuel));
  }

  lemma {:induction false} ForStmtAgrees(p: Prims, s: Stmt, ks: seq<Kind>, st: State, fuel: nat)
    requires Rooted(ks) && |st| == |ks| && s.For?
    ensures SameExec(RunStmt(p, s, ks, Clean(st), fuel), S.Exec(p, s, ks, st, fuel), ks)
    decreases fuel, s, 1
  {
    CleanFacts(ks, st);
    var inner := [Loop] + ks;
    ActionsAgree(p, s.init, inner, [Fresh()] + st, fuel);
    var r := S.RunActions(p, s.init, inner, [Fresh()] + st, fuel);
    CleanFacts(inner, r.st);
    if r.out.Ok? {
      ForAgrees(p, s, inner, r.st, fuel);
      LeaveFacts(ks, inner, RunFor(p, s, inner, Clean(r.st), fuel), S.ExecFor(p, s, inner, r.st, fuel));
    }
  }

  lemma {:induction false} SwitchAgrees(p: Prims, s: Stmt, ks: seq<Kind>, st: State, fuel: nat)
    requires Rooted(ks) && |st| == |ks| && s.SwitchCase?
    ensures SameExec(RunStmt(p, s, ks, Clean(st), fuel), S.Exec(p, s, ks, st, fuel), ks)
    decreases fuel, s, 1
  {
    CleanFacts(ks, st);
    var inner := [Switch] + ks;
    ExprAgrees(p, s.subject, inner, [Fresh()] + st, fuel);
    var r := S.Eval(p, s.subject, inner, [Fresh()] + st, fuel);
    CleanFacts(inner, r.st);
    if r.out.Ok? {
      CasesAgree(p, s.cases, r.out.v, false, s, inner, r.st, fuel);
      LeaveFacts(ks, inner, RunCases(p, s.cases, r.out.v, false, s, inner, Clean(r.st), fuel),
        S.ExecCases(p, s.cases, r.out.v, false, s, inner, r.st, fuel));
    }
  }

  lemma {:induction false} ListAgrees(p: Prims, items: List<Stmt>, ks: seq<Kind>, st: State, fuel: nat)
    requires Rooted(ks) && |st| == |ks|
    ensures SameExec(RunList(p, items, ks, Clean(st), fuel), S.ExecList(p, items, ks, st, fuel), ks)
    decreases fuel, items, 0
  {
    if items.Cons? {
      StmtAgrees(p, items.head, ks, st, fuel);
      var r := S.Exec(p, items.head, ks, st, fuel);
      FlagFacts(ks, r.st, r.c);
      if r.c.Normal? {
        ListAgrees(p, items.tail, ks, r.st, fuel);
      }
    }
  }

  /** Executing a condition yields its value; a block that ran is accounted for in full. */
  lemma {:induction false} BranchAgrees(p: Prims, b: Branch, ks: seq<Kind>, st: State, fuel: nat)
    requires Rooted(ks) && |st| == |ks|
    ensures var r := S.Eval(p, b.cond, ks, st, fuel);
      var f := RunBranch(p, b, ks, Clean(st), fuel);
      if r.out.Ok? && p.truthy(r.out.v) then
        && SameExec(f, S.Exec(p, b.body, ks, r.st, fuel), ks)
        && (f.out.Ok? ==> f.out == r.out)
      else SameEval(f, r)
    decreases fuel, b, 0
  {
    CleanFacts(ks, st);
    ExprAgrees(p, b.cond, ks, st, fuel);
    StmtAgrees(p, b.body, ks, S.Eval(p, b.cond, ks, st, fuel).st, fuel);
  }

  lemma {:induction false} ElifsAgree(p: Prims, branches: List<Branch>, s: Stmt, ks: seq<Kind>, st: State, fuel: nat)
    requires Rooted(ks) && |st| == |ks| && s.If? && branches < s
    ensures SameExec(RunElifs(p, branches, s, ks, Clean(st), fuel),
                     S.ExecBranches(p, branches, s.otherwise, s, ks, st, fuel), ks)
    decreases fuel, s, 0, branches
  {
    match branches
    case Nil => StmtAgrees(p, s.otherwise, ks, st, fuel);
    case Cons(b, rest) =>
      BranchAgrees(p, b, ks, st, fuel);
      var r := S.Eval(p, b.cond, ks, st, fuel);
      if r.out.Ok? && !p.truthy(r.out.v) {
        CleanFacts(ks, r.st);
        ElifsAgree(p, rest, s, ks, r.st, fuel);
      }
  }

  lemma {:induction false} WhileAgrees(p: Prims, s: Stmt, ks: seq<Kind>, st: State, fuel: nat)
    requires Rooted(ks) && |st| == |ks| && s.While?
    ensures SameExec(RunWhile(p, s, ks, Clean(st), fuel), S.ExecWhile(p, s, ks, st, fuel), ks)
    decreases fuel, s, 0
  {
    if fuel > 0 {
      ExprAgrees(p, s.cond, ks, st, fuel);
      var r := S.Eval(p, s.cond, ks, st, fuel);
      if r.out.Ok? && p.truthy(r.out.v) {
        StmtAgrees(p, s.body, ks, r.st, fuel);
        var b := S.Exec(p, s.body, ks, r.st, fuel);
        FlagFacts(ks, b.st, b.c);
        WhileAgrees(p, s, ks, b.st, fuel - 1);
      }
    }
  }

  lemma {:induction false} DoWhileAgrees(p: Prims, s: Stmt, ks: seq<Kind>, st: State, fuel: nat)
    requires Rooted(ks) && |st| == |ks| && s.DoWhile?
    ensures SameExec(RunDoWhile(p, s, ks, Clean(st), fuel), S.ExecDoWhile(p, s, ks, st, fuel), ks)
    decreases fuel, s, 0
  {
    if fuel > 0 {
      StmtAgrees(p, s.body, ks, st, fuel);
      var b := S.Exec(p, s.body, ks, st, fuel);
      FlagFacts(ks, b.st, b.c);
      ExprAgrees(p, s.cond, ks, b.st, fuel);
      DoWhileAgrees(p, s, ks, S.Eval(p, s.cond, ks, b.st, fuel).st, fuel - 1);
    }
  }

  lemma {:induction false} ForAgrees(p: Prims, s: Stmt, ks: seq<Kind>, st: State, fuel: nat)
    requires Rooted(ks) && |st| == |ks| && s.For?
    ensures SameExec(RunFor(p, s, ks, Clean(st), fuel), S.ExecFor(p, s, ks, st, fuel), ks)
    decreases fuel, s, 0
  {
    if fuel > 0 {
      if s.test.Some? {
        ExprAgrees(p, s.test.value, ks, st, fuel);
      }
      var r := if s.test.None? then S.E(Ok(Integer(1)), st) else S.Eval(p, s.test.value, ks, st, fuel);
      if r.out.Ok? && p.truthy(r.out.v) {
        StmtAgrees(p, s.body, ks, r.st, fuel);
        var b := S.Exec(p, s.body, ks, r.st, fuel);
        FlagFacts(ks, b.st, b.c);
        if b.c.Normal? || b.c.Continued? {
          ActionsAgree(p, s.after, ks, b.st, fuel);
          ForAgrees(p, s, ks, S.RunActions(p, s.after, ks, b.st, fuel).st, fuel - 1);
        }
      }
    }
  }

  lemma {:induction false} CasesAgree(p: Prims, cases: List<Case>, subject: Value, hit: bool, s: Stmt, ks: seq<Kind>,
                                      st: State, fuel: nat)
    requires Rooted(ks) && |st| == |ks| && s.SwitchCase? && cases < s
    ensures SameExec(RunCases(p, cases, subject, hit, s, ks, Clean(st), fuel),
                     S.ExecCases(p, cases, subject, hit, s, ks, st, fuel), ks)
    decreases fuel, s, 0, cases
  {
    match cases
    case Nil =>
      if !hit {
        StmtAgrees(p, s.otherwise, ks, st, fuel);
      }
    case Cons(c, rest) =>
      ArgsAgree(p, c.tests, ks, st, fuel);
      var t := S.EvalList(p, c.tests, ks, st, fuel);
      if t.out.Ok? {
        if Hits(p, subject, t.values) {
          StmtAgrees(p, c.body, ks, t.st, fuel);
          var b := S.Exec(p, c.body, ks, t.st, fuel);
          FlagFacts(ks, b.st, b.c);
          if b.c.Normal? {
            CasesAgree(p, rest, subject, true, s, ks, b.st, fuel);
          }
        } else {
          CasesAgree(p, rest, subject, hit, s, ks, t.st, fuel);
        }
      }
  }

  // ----- sums of operands that do not care about the order -----

  /** The value of a sum by plain recursion, left operand first. */
  function LeftToRight(p: Prims, e: Expr, ks: seq<Kind>, st: State, fuel: nat): Out
    requires Rooted(ks) && |st| == |ks|
    decreases e
  {
    if !e.Add? then S.Eval(p, e, ks, st, fuel).out
    else
      match LeftToRight(p, e.left, ks, st, fuel)
      case Ok(x) =>
        (match LeftToRight(p, e.right, ks, st, fuel)
         case Ok(y) => Lift(p.add(x, y))
         case o => o)
      case o => o
  }

  /** Every operand has a value and leaves the state alone. */
  ghost predicate QuietSum(p: Prims, e: Expr, ks: seq<Kind>, st: State, fuel: nat)
    requires Rooted(ks) && |st| == |ks|
    decreases e
  {
    if e.Add? then QuietSum(p, e.left, ks, st, fuel) && QuietSum(p, e.right, ks, st, fuel)
    else S.Eval(p, e, ks, st, fuel).out.Ok? && S.Eval(p, e, ks, st, fuel).st == st
  }

  lemma {:induction false} QuietEval(p: Prims, e: Expr, ks: seq<Kind>, st: State, fuel: nat)
    requires Rooted(ks) && |st| == |ks| && QuietSum(p, e, ks, st, fuel)
    ensures S.Eval(p, e, ks, st, fuel) == S.E(LeftToRight(p, e, ks, st, fuel), st)
    ensures e.Add? && !LeftToRight(p, e, ks, st, fuel).Ok? ==> LeftToRight(p, e, ks, st, fuel) == Thrown(OperatorFailed)
    decreases e
  {
    if e.Add? {
      QuietEval(p, e.left, ks, st, fuel);
      QuietEval(p, e.right, ks, st, fuel);
    }
  }

  /** The engine walks down the left spine and evaluates the operands from the right; for
      quiet operands, whatever they are and however + behaves, the sum is the one of plain
      left-to-right recursion. */
  lemma {:induction false} SpineIsLeftToRight(p: Prims, e: Expr, ks: seq<Kind>, st: State, fuel: nat)
    requires Rooted(ks) && |st| == |ks| && QuietSum(p, e, ks, st, fuel)
    ensures RunExpr(p, e, ks, Clean(st), fuel) == F(LeftToRight(p, e, ks, st, fuel), Clean(st))
  {
    QuietEval(p, e, ks, st, fuel);
    ExprAgrees(p, e, ks, st, fuel);
  }
}
