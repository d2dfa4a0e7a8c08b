/** What the constructs of the language mean to somebody who writes scripts, on the structured
    semantics and, for expressions, on the engine's machine. */
module Laws {
  import opened Common
  import opened Language
  import opened Scopes
  import opened Structured
  import FM = FlagMachine
  import Simulation

  // ----- and, or -----

  /** The two integers a comparison yields count as true and false. */
  ghost predicate Truths(p: Prims) {
    p.truthy(Integer(1)) && !p.truthy(Integer(0))
  }

  /** The value is 0 or 1, and it is true exactly when `holds`. */
  ghost predicate IsTruth(p: Prims, v: Value, holds: bool) {
    (v == Integer(0) || v == Integer(1)) && (p.truthy(v) <==> holds)
  }

  /** `&&`: the right operand is evaluated only if the left one holds, in the state that leaves. */
  lemma {:induction false} AndMeans(p: Prims, a: Expr, b: Expr, ks: seq<Kind>, st: State, fuel: nat)
    requires Rooted(ks) && |st| == |ks| && Truths(p)
    ensures var r, x := Eval(p, And(a, b), ks, st, fuel), Eval(p, a, ks, st, fuel);
      && (!x.out.Ok? ==> r == x)
      && (x.out.Ok? && !p.truthy(x.out.v) ==> r.st == x.st && r.out.Ok? && IsTruth(p, r.out.v, false))
      && (x.out.Ok? && p.truthy(x.out.v) ==>
            var y := Eval(p, b, ks, x.st, fuel);
            && r.st == y.st && (!y.out.Ok? ==> r.out == y.out)
            && (y.out.Ok? ==> r.out.Ok? && IsTruth(p, r.out.v, p.truthy(y.out.v))))
  {
  }

  /** `||`: the right operand is evaluated only if the left one does not hold. */
  lemma {:induction false} OrMeans(p: Prims, a: Expr, b: Expr, ks: seq<Kind>, st: State, fuel: nat)
    requires Rooted(ks) && |st| == |ks| && Truths(p)
    ensures var r, x := Eval(p, Or(a, b), ks, st, fuel), Eval(p, a, ks, st, fuel);
      && (!x.out.Ok? ==> r == x)
      && (x.out.Ok? && p.truthy(x.out.v) ==> r.st == x.st && r.out.Ok? && IsTruth(p, r.out.v, true))
      && (x.out.Ok? && !p.truthy(x.out.v) ==>
            var y := Eval(p, b, ks, x.st, fuel);
            && r.st == y.st && (!y.out.Ok? ==> r.out == y.out)
            && (y.out.Ok? ==> r.out.Ok? && IsTruth(p, r.out.v, p.truthy(y.out.v))))
  {
  }

  /** The engine on `&&`: its value is true exactly when both operands hold, and its contexts
      are those that the last operand it evaluated leaves. */
  lemma {:induction false} EngineAnd(p: Prims, a: Expr, b: Expr, ks: seq<Kind>, st: State, fuel: nat)
    requires Rooted(ks) && |st| == |ks| && Truths(p)
    ensures var r, x := FM.RunExpr(p, And(a, b), ks, Simulation.Clean(st), fuel),
                        FM.RunExpr(p, a, ks, Simulation.Clean(st), fuel);
      && (!x.out.Ok? ==> r == x)
      && (x.out.Ok? && !p.truthy(x.out.v) ==> r.m == x.m && r.out.Ok? && IsTruth(p, r.out.v, false))
      && (x.out.Ok? && p.truthy(x.out.v) ==>
            var y := FM.RunExpr(p, b, ks, x.m, fuel);
            && r.m == y.m && (!y.out.Ok? ==> r.out == y.out)
            && (y.out.Ok? ==> r.out.Ok? && IsTruth(p, r.out.v, p.truthy(y.out.v))))
  {
    AndMeans(p, a, b, ks, st, fuel);
    Simulation.ExprAgrees(p, And(a, b), ks, st, fuel);
    Simulation.ExprAgrees(p, a, ks, st, fuel);
    Simulation.ExprAgrees(p, b, ks, Eval(p, a, ks, st, fuel).st, fuel);
  }

  lemma {:induction false} EngineOr(p: Prims, a: Expr, b: Expr, ks: seq<Kind>, st: State, fuel: nat)
    requires Rooted(ks) && |st| == |ks| && Truths(p)
    ensures var r, x := FM.RunExpr(p, Or(a, b), ks, Simulation.Clean(st), fuel),
                        FM.RunExpr(p, a, ks, Simulation.Clean(st), fuel);
      && (!x.out.Ok? ==> r == x)
      && (x.out.Ok? && p.truthy(x.out.v) ==> r.m == x.m && r.out.Ok? && IsTruth(p, r.out.v, true))
      && (x.out.Ok? && !p.truthy(x.out.v) ==>
            var y := FM.RunExpr(p, b, ks, x.m, fuel);
            && r.m == y.m && (!y.out.Ok? ==> r.out == y.out)
            && (y.out.Ok? ==> r.out.Ok? && IsTruth(p, r.out.v, p.truthy(y.out.v))))
  {
    OrMeans(p, a, b, ks, st, fuel);
    Simulation.ExprAgrees(p, Or(a, b), ks, st, fuel);
    Simulation.ExprAgrees(p, a, ks, st, fuel);
    Simulation.ExprAgrees(p, b, ks, Eval(p, a, ks, st, fuel).st, fuel);
  }

  // ----- operators -----

  /** The outcome of an operator: its value, or an exception exactly when it has none. */
  ghost predicate Yields(out: Out, v: Option<Value>) {
    if v.Some? then out == Ok(v.value) else out == Thrown(OperatorFailed)
  }

  /** Other binary operators evaluate from left to right, a sum from right to left, and both
      combine the left value with the right one. */
  lemma {:induction false} OperatorsMean(p: Prims, op: int, a: Expr, b: Expr, ks: seq<Kind>, st: State, fuel: nat)
    requires Rooted(ks) && |st| == |ks|
    ensures var x := Eval(p, a, ks, st, fuel);
      var y := Eval(p, b, ks, x.st, fuel);
      var r := Eval(p, Binary(op, a, b), ks, st, fuel);
      x.out.Ok? && y.out.Ok? ==> r.st == y.st && Yields(r.out, p.binary(op, x.out.v, y.out.v))
    ensures var y := Eval(p, b, ks, st, fuel);
      var x := Eval(p, a, ks, y.st, fuel);
      var r := Eval(p, Add(a, b), ks, st, fuel);
      x.out.Ok? && y.out.Ok? ==> r.st == x.st && Yields(r.out, p.add(x.out.v, y.out.v))
    ensures var x := Eval(p, a, ks, st, fuel);
      var r := Eval(p, Unary(op, a), ks, st, fuel);
      x.out.Ok? ==> r.st == x.st && Yields(r.out, p.unary(op, x.out.v))
  {
  }

  /** An assignment yields the assigned value, and reading the variable then gives it too. */
  lemma {:induction false} AssignMeans(p: Prims, name: string, e: Expr, ks: seq<Kind>, st: State, fuel: nat)
    requires Rooted(ks) && |st| == |ks| && name != "nil" && name != "true" && name != "false"
    ensures var x := Eval(p, e, ks, st, fuel);
      var r := Eval(p, Update(name, WRITE, Some(e)), ks, st, fuel);
      x.out.Ok? ==> r.out == x.out && Eval(p, ReadVar(name), ks, r.st, fuel).out == x.out
  {
    var x := Eval(p, e, ks, st, fuel);
    if x.out.Ok? {
      SetThenGet(ks, x.st, name, x.out.v, false);
    }
  }

  /** A compound assignment hands the operator the old value of the variable and the operand;
      what it stores is what the variable then reads, and it may yield another value. */
  lemma {:induction false} UpdateMeans(p: Prims, name: string, op: int, e: Expr, ks: seq<Kind>, st: State, fuel: nat)
    requires Rooted(ks) && |st| == |ks| && op != WRITE && name != "nil" && name != "true" && name != "false"
    ensures var x := Eval(p, e, ks, st, fuel);
      var r := Eval(p, Update(name, op, Some(e)), ks, st, fuel);
      x.out.Ok? ==>
        var u := p.update(op, Eval(p, ReadVar(name), ks, x.st, fuel).out.v, x.out.v);
        if u.None? then r == E(Thrown(OperatorFailed), x.st)
        else r.out == Ok(u.value.1) && Eval(p, ReadVar(name), ks, r.st, fuel).out == Ok(u.value.0)
  {
    var x := Eval(p, e, ks, st, fuel);
    if x.out.Ok? {
      var u := p.update(op, GetVar(ks, x.st, name), x.out.v);
      if u.Some? {
        SetThenGet(ks, x.st, name, u.value.0, false);
      }
    }
  }

  // ----- parameters -----

  function At<T>(items: List<T>, i: nat): Option<T> {
    if items.Nil? then None else if i == 0 then Some(items.head) else At(items.tail, i - 1)
  }

  /** Later positions bind other names, and none of them is a constant. */
  ghost predicate Distinct(params: List<Decl>) {
    params.Cons? ==>
      && params.head.name != "nil" && params.head.name != "true" && params.head.name != "false"
      && (forall i: nat :: At(params.tail, i).Some? ==> At(params.tail, i).value.name != params.head.name)
      && Distinct(params.tail)
  }

  /** The i-th positional argument is what the i-th parameter reads; a parameter without one
      keeps its value. */
  lemma {:induction false} ArgumentsBound(params: List<Decl>, values: List<Value>, ks: seq<Kind>, st: State, i: nat)
    requires Rooted(ks) && |st| == |ks| && Distinct(params) && At(params, i).Some?
    ensures var r := BindPositional(Formals(false, params), values, ks, st);
      && r.out == Ok(Null)
      && GetVar(ks, r.st, At(params, i).value.name) ==
         if At(values, i).Some? then At(values, i).value else GetVar(ks, st, At(params, i).value.name)
    decreases params
  {
    assert BindPositional(Formals(false, params), values, ks, st) == BindEach(params, values, ks, st);
    if values.Cons? {
      var name, v := params.head.name, values.head;
      SetThenGet(ks, st, name, v, true);
      var c := SetVar(ks, st, name, v, true);
      assert BindEach(params, values, ks, st) == BindEach(params.tail, values.tail, ks, c.st);
      if i == 0 {
        OthersKept(params.tail, values.tail, ks, c.st, name);
      } else {
        WritesOneName(ks, st, name, v, true, At(params, i).value.name, 0);
        ArgumentsBound(params.tail, values.tail, ks, c.st, i - 1);
        assert ks[0..] == ks && c.st[0..] == c.st && st[0..] == st;
      }
    }
  }

  lemma {:induction false} OthersKept(params: List<Decl>, values: List<Value>, ks: seq<Kind>, st: State, name: string)
    requires Rooted(ks) && |st| == |ks| && Distinct(params)
    requires forall i: nat :: At(params, i).Some? ==> At(params, i).value.name != name
    ensures var r := BindEach(params, values, ks, st);
      r.out == Ok(Null) && GetVar(ks, r.st, name) == GetVar(ks, st, name)
    decreases params
  {
    if params.Cons? && values.Cons? {
      assert At(params, 0).value.name != name;
      SetThenGet(ks, st, params.head.name, values.head, true);
      WritesOneName(ks, st, params.head.name, values.head, true, name, 0);
      var c := SetVar(ks, st, params.head.name, values.head, true);
      assert ks[0..] == ks && c.st[0..] == c.st && st[0..] == st;
      forall i: nat | At(params.tail, i).Some? ensures At(params.tail, i).value.name != name {
        assert At(params, i + 1) == At(params.tail, i);
      }
      OthersKept(params.tail, values.tail, ks, c.st, name);
    }
  }

  // ----- conditions -----

  lemma {:induction false} BranchesAlike(p: Prims, branches: List<Branch>, otherwise: Stmt, s: Stmt, t: Stmt,
                                         ks: seq<Kind>, st: State, fuel: nat)
    requires Rooted(ks) && |st| == |ks|
    requires branches < s && otherwise < s && branches < t && otherwise < t
    ensures ExecBranches(p, branches, otherwise, s, ks, st, fuel)
         == ExecBranches(p, branches, otherwise, t, ks, st, fuel)
    decreases branches
  {
    if branches.Cons? {
      BranchesAlike(p, branches.tail, otherwise, s, t, ks, Eval(p, branches.head.cond, ks, st, fuel).st, fuel);
    }
  }

  /** An if statement runs the body of its condition, or else the else part. */
  lemma {:induction false} IfMeans(p: Prims, b: Branch, otherwise: Stmt, ks: seq<Kind>, st: State, fuel: nat)
    requires Rooted(ks) && |st| == |ks|
    ensures var c, r := Eval(p, b.cond, ks, st, fuel), Exec(p, If(b, Nil, otherwise), ks, st, fuel);
      c.out.Ok? ==> r == Exec(p, if p.truthy(c.out.v) then b.body else otherwise, ks, c.st, fuel)
  {
  }

  /** An else-if is an if statement in the else part. */
  lemma {:induction false} ElseIfMeans(p: Prims, b: Branch, next: Branch, rest: List<Branch>, otherwise: Stmt,
                                       ks: seq<Kind>, st: State, fuel: nat)
    requires Rooted(ks) && |st| == |ks|
    ensures Exec(p, If(b, Cons(next, rest), otherwise), ks, st, fuel)
         == Exec(p, If(b, Nil, If(next, rest, otherwise)), ks, st, fuel)
  {
    var c := Eval(p, b.cond, ks, st, fuel);
    if c.out.Ok? && !p.truthy(c.out.v) {
      var flat, nested := If(b, Cons(next, rest), otherwise), If(next, rest, otherwise);
      IfMeans(p, b, nested, ks, st, fuel);
      assert Exec(p, flat, ks, st, fuel) == ExecBranches(p, Cons(next, rest), otherwise, flat, ks, c.st, fuel);
      NextBranch(p, next, rest, otherwise, flat, ks, c.st, fuel);
    }
  }

  lemma NextBranch(p: Prims, next: Branch, rest: List<Branch>, otherwise: Stmt, s: Stmt, ks: seq<Kind>, st: State,
                   fuel: nat)
    requires Rooted(ks) && |st| == |ks| && Cons(next, rest) < s && otherwise < s
    ensures ExecBranches(p, Cons(next, rest), otherwise, s, ks, st, fuel)
         == Exec(p, If(next, rest, otherwise), ks, st, fuel)
  {
    var d := Eval(p, next.cond, ks, st, fuel);
    BranchesAlike(p, rest, otherwise, s, If(next, rest, otherwise), ks, d.st, fuel);
  }

  // ----- switch -----

  ghost predicate Listed(v: Value, values: List<Value>) {
    exists i: nat :: At(values, i) == Some(v)
  }

  lemma {:induction false} HitsListed(p: Prims, subject: Value, values: List<Value>)
    ensures Hits(p, subject, values) <==> exists v :: Listed(v, values) && p.same(subject, v)
    decreases values
  {
    if values.Cons? {
      HitsListed(p, subject, values.tail);
      assert At(values, 0) == Some(values.head);
      forall v ensures Listed(v, values) <==> v == values.head || Listed(v, values.tail) {
        if Listed(v, values) {
          var i: nat :| At(values, i) == Some(v);
          assert i > 0 ==> At(values.tail, i - 1) == Some(v);
        }
        if Listed(v, values.tail) {
          var i: nat :| At(values.tail, i) == Some(v);
          assert At(values, i + 1) == Some(v);
        }
      }
    }
  }

  /** A case of a switch runs exactly when the subject is the same as a value it lists; the
      cases behind it are tried as well unless it ends otherwise than normally. */
  lemma {:induction false} CaseMeans(p: Prims, c: Case, rest: List<Case>, subject: Value, hit: bool, s: Stmt,
                                     ks: seq<Kind>, st: State, fuel: nat)
    requires Rooted(ks) && |st| == |ks| && s.SwitchCase? && Cons(c, rest) < s
    requires EvalList(p, c.tests, ks, st, fuel).out.Ok?
    ensures var t := EvalList(p, c.tests, ks, st, fuel);
      var r := ExecCases(p, Cons(c, rest), subject, hit, s, ks, st, fuel);
      if exists v :: Listed(v, t.values) && p.same(subject, v) then
        var x := Exec(p, c.body, ks, t.st, fuel);
        r == if x.c.Normal? then ExecCases(p, rest, subject, true, s, ks, x.st, fuel) else x
      else r == ExecCases(p, rest, subject, hit, s, ks, t.st, fuel)
  {
    HitsListed(p, subject, EvalList(p, c.tests, ks, st, fuel).values);
  }

  // ----- loops -----

  /** Evaluated in `st`, within some bound, the condition is false and leaves `after`. */
  ghost predicate FalseAt(p: Prims, cond: Expr, ks: seq<Kind>, st: State, after: State)
    requires Rooted(ks) && |st| == |ks|
  {
    exists g: nat, v :: Eval(p, cond, ks, st, g) == E(Ok(v), after) && !p.truthy(v)
  }

  /** One turn of the body, entered where the condition holds, keeps the property. */
  ghost predicate TurnKeeps(p: Prims, cond: Expr, body: Stmt, ks: seq<Kind>, inv: State -> bool)
    requires Rooted(ks)
  {
    forall st: State, g: nat :: |st| == |ks| && inv(st) ==>
      var c := Eval(p, cond, ks, st, g);
      c.out.Ok? && p.truthy(c.out.v) ==>
        var b := Exec(p, body, ks, c.st, g);
        b.c.Normal? || b.c.Continued? ==> inv(b.st)
  }

  /** A while loop that ends without break or return ends on its condition being false, in a
      state with every property that its turns keep. */
  lemma {:induction false} WhileRule(p: Prims, s: Stmt, ks: seq<Kind>, st: State, fuel: nat, inv: State -> bool)
    requires Rooted(ks) && |st| == |ks| && s.While? && inv(st)
    requires TurnKeeps(p, s.cond, s.body, ks, inv)
    ensures var r := ExecWhile(p, s, ks, st, fuel);
      r.c.Normal? ==> exists last: State :: |last| == |ks| && inv(last) && FalseAt(p, s.cond, ks, last, r.st)
    decreases fuel
  {
    var r := ExecWhile(p, s, ks, st, fuel);
    if r.c.Normal? {
      var c := Eval(p, s.cond, ks, st, fuel);
      if p.truthy(c.out.v) {
        var b := Exec(p, s.body, ks, c.st, fuel);
        if b.c.Normal? || b.c.Continued? {
          WhileRule(p, s, ks, b.st, fuel - 1, inv);
        }
      } else {
        assert FalseAt(p, s.cond, ks, st, r.st);
      }
    }
  }

  /** The body, run in `st`, lets the loop go on and leaves `after`. */
  ghost predicate RunsOn(p: Prims, body: Stmt, ks: seq<Kind>, st: State, after: State)
    requires Rooted(ks) && |st| == |ks|
  {
    exists g: nat :: var b := Exec(p, body, ks, st, g); (b.c.Normal? || b.c.Continued?) && b.st == after
  }

  ghost predicate PassKeeps(p: Prims, cond: Expr, body: Stmt, ks: seq<Kind>, inv: State -> bool)
    requires Rooted(ks)
  {
    forall st: State, g: nat :: |st| == |ks| && inv(st) ==>
      var b := Exec(p, body, ks, st, g);
      b.c.Normal? || b.c.Continued? ==>
        var c := Eval(p, cond, ks, b.st, g);
        c.out.Ok? && p.truthy(c.out.v) ==> inv(c.st)
  }

  /** A do-while loop runs its body at least once, and ends as a while loop does. */
  lemma {:induction false} DoWhileRule(p: Prims, s: Stmt, ks: seq<Kind>, st: State, fuel: nat, inv: State -> bool)
    requires Rooted(ks) && |st| == |ks| && s.DoWhile? && inv(st)
    requires PassKeeps(p, s.cond, s.body, ks, inv)
    ensures var r := ExecDoWhile(p, s, ks, st, fuel);
      r.c.Normal? ==> exists last: State, mid: State ::
        |last| == |mid| == |ks| && inv(last) && RunsOn(p, s.body, ks, last, mid) && FalseAt(p, s.cond, ks, mid, r.st)
    decreases fuel
  {
    var r := ExecDoWhile(p, s, ks, st, fuel);
    if r.c.Normal? {
      var b := Exec(p, s.body, ks, st, fuel);
      var c := Eval(p, s.cond, ks, b.st, fuel);
      if p.truthy(c.out.v) {
        DoWhileRule(p, s, ks, c.st, fuel - 1, inv);
      } else {
        assert RunsOn(p, s.body, ks, st, b.st) && FalseAt(p, s.cond, ks, b.st, r.st);
      }
    }
  }

  ghost predicate StepKeeps(p: Prims, s: Stmt, ks: seq<Kind>, inv: State -> bool)
    requires Rooted(ks) && s.For? && s.test.Some?
  {
    forall st: State, g: nat :: |st| == |ks| && inv(st) ==>
      var c := Eval(p, s.test.value, ks, st, g);
      c.out.Ok? && p.truthy(c.out.v) ==>
        var b := Exec(p, s.body, ks, c.st, g);
        b.c.Normal? || b.c.Continued? ==>
          var a := RunActions(p, s.after, ks, b.st, g);
          a.out.Ok? ==> inv(a.st)
  }

  /** A for loop with a condition runs its step after every turn that goes on, and ends as a
      while loop does. */
  lemma {:induction false} ForRule(p: Prims, s: Stmt, ks: seq<Kind>, st: State, fuel: nat, inv: State -> bool)
    requires Rooted(ks) && |st| == |ks| && s.For? && s.test.Some? && inv(st)
    requires StepKeeps(p, s, ks, inv)
    ensures var r := ExecFor(p, s, ks, st, fuel);
      r.c.Normal? ==> exists last: State :: |last| == |ks| && inv(last) && FalseAt(p, s.test.value, ks, last, r.st)
    decreases fuel
  {
    var r := ExecFor(p, s, ks, st, fuel);
    if r.c.Normal? {
      var c := Eval(p, s.test.value, ks, st, fuel);
      if p.truthy(c.out.v) {
        var b := Exec(p, s.body, ks, c.st, fuel);
        if b.c.Normal? || b.c.Continued? {
          ForRule(p, s, ks, RunActions(p, s.after, ks, b.st, fuel).st, fuel - 1, inv);
        }
      } else {
        assert FalseAt(p, s.test.value, ks, st, r.st);
      }
    }
  }
}
