/** Scope isolation over whole runs: whatever a piece of code executes, it leaves the locals
    of all callers alone and the constants nil, true and false as they are. */
module Isolation {
  import opened Common
  import opened Language
  import opened Scopes
  import opened Structured

  lemma Transitive(ks: seq<Kind>, a: State, b: State, c: State)
    requires Confined(ks, a, b) && Confined(ks, b, c)
    ensures Confined(ks, a, c)
  {
  }

  lemma AssignConfined(ks: seq<Kind>, st: State, name: string, v: Value, current: bool, result: Value)
    requires Rooted(ks) && |st| == |ks|
    ensures Confined(ks, st, AfterChange(SetVar(ks, st, name, v, current), result, st).st)
  {
    SetThenGet(ks, st, name, v, current);
  }

  /** Entering and leaving a scope. */
  lemma Within(kind: Kind, ks: seq<Kind>, st: State, st': State)
    requires Rooted(ks) && |st| == |ks|
    requires Confined([kind] + ks, [Fresh()] + st, st')
    ensures Confined(ks, st, st'[1..])
    ensures kind == Function ==> forall i :: 0 <= i < |ks| - 1 ==> st'[1..][i] == st[i]
  {
    var inner, entry, out := [kind] + ks, [Fresh()] + st, st'[1..];
    assert inner[1..] == ks;
    forall i | 0 <= i < |ks| - 1 && NearestFunction(inner) < i + 1
      ensures out[i] == st[i]
    {
      assert st'[i + 1] == entry[i + 1];
    }
    if ConstantsKept(st) {
      assert ConstantsKept(entry);
      forall i | 0 <= i < |out| ensures HasConstants(out[i]) { assert HasConstants(st'[i + 1]); }
    }
  }

  /** Executing in the caller's chain while the callee's scope already exists. */
  lemma Beneath(ks: seq<Kind>, st: State, outer: State)
    requires Rooted(ks) && |st| == |ks| + 1
    requires Confined(ks, st[1..], outer)
    ensures ConstantsKept(st) ==> ConstantsKept([st[0]] + outer)
  {
    if ConstantsKept(st) {
      assert ConstantsKept(st[1..]) by {
        forall i | 0 <= i < |st[1..]| ensures HasConstants(st[1..][i]) { assert HasConstants(st[i + 1]); }
      }
    }
  }

  lemma {:induction false} EvalConfined(p: Prims, e: Expr, ks: seq<Kind>, st: State, fuel: nat)
    requires Rooted(ks) && |st| == |ks|
    ensures Confined(ks, st, Eval(p, e, ks, st, fuel).st)
    decreases fuel, e, 2
  {
    match e
    case Const(_) =>
    case ReadVar(_) =>
    case Unary(_, a) => EvalConfined(p, a, ks, st, fuel);
    case Binary(_, a, b) =>
      EvalConfined(p, a, ks, st, fuel);
      EvalConfined(p, b, ks, Eval(p, a, ks, st, fuel).st, fuel);
    case And(a, b) =>
      EvalConfined(p, a, ks, st, fuel);
      EvalConfined(p, b, ks, Eval(p, a, ks, st, fuel).st, fuel);
    case Or(a, b) =>
      EvalConfined(p, a, ks, st, fuel);
      EvalConfined(p, b, ks, Eval(p, a, ks, st, fuel).st, fuel);
    case Add(a, b) =>
      EvalConfined(p, b, ks, st, fuel);
      EvalConfined(p, a, ks, Eval(p, b, ks, st, fuel).st, fuel);
    case Update(_, _, _) => UpdateConfined(p, e, ks, st, fuel);
    case Call(_, _) => CallConfined(p, e, ks, st, fuel);
  }

  lemma {:induction false} UpdateConfined(p: Prims, e: Expr, ks: seq<Kind>, st: State, fuel: nat)
    requires Rooted(ks) && |st| == |ks| && e.Update?
    ensures Confined(ks, st, Eval(p, e, ks, st, fuel).st)
    decreases fuel, e, 2, 0
  {
    if e.operand.Some? { EvalConfined(p, e.operand.value, ks, st, fuel); }
    var r := if e.operand.None? then E(Ok(Null), st) else Eval(p, e.operand.value, ks, st, fuel);
    if r.out.Ok? { StoreConfined(p, e.name, e.op, r.out.v, ks, r.st); }
  }

  lemma {:induction false} CallConfined(p: Prims, e: Expr, ks: seq<Kind>, st: State, fuel: nat)
    requires Rooted(ks) && |st| == |ks| && e.Call?
    ensures Confined(ks, st, Eval(p, e, ks, st, fuel).st)
    decreases fuel, e, 2, 0
  {
    var f := GetFunction(st, e.name);
    if f.Some? {
      InvokeConfined(p, e, f.value, ks, st, fuel);
    } else {
      match e.args
      case Positional(values) => EvalListConfined(p, values, ks, st, fuel);
      case Named(named) => EvalNamedConfined(p, named, ks, st, fuel);
    }
  }

  lemma StoreConfined(p: Prims, name: string, op: int, v: Value, ks: seq<Kind>, st: State)
    requires Rooted(ks) && |st| == |ks|
    ensures Confined(ks, st, Store(p, name, op, v, ks, st).st)
  {
    AssignConfined(ks, st, name, v, false, v);
    var u := p.update(op, GetVar(ks, st, name), v);
    if u.Some? { AssignConfined(ks, st, name, u.value.0, false, u.value.1); }
  }

  lemma {:induction false} EvalListConfined(p: Prims, es: List<Expr>, ks: seq<Kind>, st: State, fuel: nat)
    requires Rooted(ks) && |st| == |ks|
    ensures Confined(ks, st, EvalList(p, es, ks, st, fuel).st)
    decreases fuel, es, 0
  {
    if es.Cons? {
      EvalConfined(p, es.head, ks, st, fuel);
      EvalListConfined(p, es.tail, ks, Eval(p, es.head, ks, st, fuel).st, fuel);
    }
  }

  lemma {:induction false} EvalNamedConfined(p: Prims, named: List<NamedArg>, ks: seq<Kind>, st: State, fuel: nat)
    requires Rooted(ks) && |st| == |ks|
    ensures Confined(ks, st, EvalNamed(p, named, ks, st, fuel).st)
    decreases fuel, named, 0
  {
    if named.Cons? {
      InitConfined(p, named.head.name, named.head.e, ks, st, fuel);
      EvalNamedConfined(p, named.tail, ks, RunInit(p, named.head.name, named.head.e, ks, st, fuel).st, fuel);
    }
  }

  lemma {:induction false} InitConfined(p: Prims, name: string, e: Expr, ks: seq<Kind>, st: State, fuel: nat)
    requires Rooted(ks) && |st| == |ks|
    ensures Confined(ks, st, RunInit(p, name, e, ks, st, fuel).st)
    decreases fuel, e, 3
  {
    var a := AddVar(st, name);
    AddConfined(ks, st, name);
    if a.Changed? {
      EvalConfined(p, e, ks, a.st, fuel);
      var r := Eval(p, e, ks, a.st, fuel);
      Transitive(ks, st, a.st, r.st);
      if r.out.Ok? {
        AssignConfined(ks, r.st, name, r.out.v, false, r.out.v);
        Transitive(ks, st, r.st, RunInit(p, name, e, ks, st, fuel).st);
      }
    }
  }

  lemma AddConfined(ks: seq<Kind>, st: State, name: string)
    requires Rooted(ks) && |st| == |ks|
    ensures AddVar(st, name).Changed? ==> Confined(ks, st, AddVar(st, name).st)
    ensures Confined(ks, st, st)
  {
  }

  lemma ConstantsApart(st: State)
    requires |st| > 0
    ensures ConstantsKept(st) ==> HasConstants(st[0]) && ConstantsKept(st[1..])
  {
    if ConstantsKept(st) {
      forall i | 0 <= i < |st| - 1 ensures HasConstants(st[1..][i]) {
        assert HasConstants(st[i + 1]);
      }
    }
  }

  lemma {:induction false} InvokeConfined(p: Prims, e: Expr, f: Func, ks: seq<Kind>, st: State, fuel: nat)
    requires Rooted(ks) && |st| == |ks| && e.Call?
    ensures Confined(ks, st, Invoke(p, e, f, ks, st, fuel).st)
    decreases fuel, e, 1
  {
    if fuel > 0 {
      var inner, entry := [Function] + ks, [Fresh()] + st;
      ActionsConfined(p, Params(f.formals), inner, entry, fuel - 1);
      var d := RunActions(p, Params(f.formals), inner, entry, fuel - 1);
      Within(Function, ks, st, d.st);
      if d.out.Ok? { EnteredConfined(p, e, f, ks, st, d.st, fuel); }
    }
  }

  /** A call from the point where the callee's context exists: binding, then the body. */
  lemma {:induction false} EnteredConfined(p: Prims, e: Expr, f: Func, ks: seq<Kind>, st: State, entered: State,
                                           fuel: nat)
    requires Rooted(ks) && |st| == |ks| && |entered| == |ks| + 1 && e.Call? && fuel > 0
    requires Confined(ks, st, entered[1..]) && (ConstantsKept(st) ==> ConstantsKept(entered))
    ensures var b := BindActuals(p, e, f.formals, ks, entered, fuel);
      && Confined(ks, st, b.st[1..])
      && (b.out.Ok? ==> Confined(ks, st, Exec(p, f.body, [Function] + ks, b.st, fuel - 1).st[1..]))
    decreases fuel, e, 0, 1
  {
    BoundConfined(p, e, f.formals, ks, st, entered, fuel);
    var b := BindActuals(p, e, f.formals, ks, entered, fuel);
    if b.out.Ok? {
      BodyAfter(p, f.body, ks, st, b.st, fuel - 1);
    }
  }

  lemma {:induction false} BoundConfined(p: Prims, e: Expr, formals: Formals, ks: seq<Kind>, st: State,
                                         entered: State, fuel: nat)
    requires Rooted(ks) && |st| == |ks| && |entered| == |ks| + 1 && e.Call?
    requires Confined(ks, st, entered[1..]) && (ConstantsKept(st) ==> ConstantsKept(entered))
    ensures var b := BindActuals(p, e, formals, ks, entered, fuel);
      Confined(ks, st, b.st[1..]) && (ConstantsKept(st) ==> HasConstants(b.st[0]))
    decreases fuel, e, 0, 0, 0
  {
    BindConfined(p, e, formals, ks, entered, fuel);
    ConstantsApart(BindActuals(p, e, formals, ks, entered, fuel).st);
  }

  /** The body, from where the arguments are bound. */
  lemma {:induction false} BodyAfter(p: Prims, body: Stmt, ks: seq<Kind>, st: State, bound: State, fuel: nat)
    requires Rooted(ks) && |st| == |ks| && |bound| == |ks| + 1
    requires Confined(ks, st, bound[1..]) && (ConstantsKept(st) ==> HasConstants(bound[0]))
    ensures Confined(ks, st, Exec(p, body, [Function] + ks, bound, fuel).st[1..])
    decreases fuel, body, 3
  {
    BodyConfined(p, body, bound[0], ks, bound[1..], fuel);
    assert [bound[0]] + bound[1..] == bound;
  }

  /** The body of a function changes no context of its caller except the file. */
  lemma {:induction false} BodyConfined(p: Prims, body: Stmt, own: Locals, ks: seq<Kind>, st: State, fuel: nat)
    requires Rooted(ks) && |st| == |ks|
    ensures var after := Exec(p, body, [Function] + ks, [own] + st, fuel).st[1..];
      && |after| == |st|
      && (forall i :: 0 <= i < |ks| - 1 ==> after[i] == st[i])
      && (ConstantsKept(st) && HasConstants(own) ==> ConstantsKept(after))
      && FunctionsKept(st[|ks| - 1], after[|ks| - 1])
    decreases fuel, body, 2
  {
    var inner, whole := [Function] + ks, [own] + st;
    ExecConfined(p, body, inner, whole, fuel);
    InFunction(own, ks, st, Exec(p, body, inner, whole, fuel).st);
  }

  lemma InFunction(own: Locals, ks: seq<Kind>, st: State, st': State)
    requires Rooted(ks) && |st| == |ks| && Confined([Function] + ks, [own] + st, st')
    ensures |st'[1..]| == |st| && forall i :: 0 <= i < |ks| - 1 ==> st'[1..][i] == st[i]
    ensures ConstantsKept(st) && HasConstants(own) ==> ConstantsKept(st'[1..])
    ensures FunctionsKept(st[|ks| - 1], st'[1..][|ks| - 1])
  {
    var inner, whole := [Function] + ks, [own] + st;
    assert NearestFunction(inner) == 0;
    forall i | 0 <= i < |ks| - 1 ensures st'[1..][i] == st[i] {
      assert st'[i + 1] == whole[i + 1];
    }
    if ConstantsKept(st) && HasConstants(own) {
      assert ConstantsKept(whole);
      forall i | 0 <= i < |ks| ensures HasConstants(st'[1..][i]) { assert HasConstants(st'[i + 1]); }
    }
  }

  /** Binding actuals touches the callee's scope and, through the argument expressions, what
      the caller itself may touch. */
  lemma {:induction false} BindConfined(p: Prims, e: Expr, formals: Formals, ks: seq<Kind>, st: State, fuel: nat)
    requires Rooted(ks) && |st| == |ks| + 1 && e.Call?
    ensures var r := BindActuals(p, e, formals, ks, st, fuel);
      && (forall i :: NearestFunction(ks) < i < |ks| - 1 ==> r.st[1..][i] == st[1..][i])
      && (ConstantsKept(st) ==> ConstantsKept(r.st)) && FunctionsKept(st[|ks|], r.st[|ks|])
    decreases fuel, e, 0, 0, 0, 0
  {
    match e.args
    case Named(named) => BindNamedConfined(p, named, ks, st, fuel);
    case Positional(values) => BindValuesConfined(p, values, formals, ks, st, fuel);
  }

  /** The values are computed first, in the caller's chain, and then bound above it. */
  lemma {:induction false} BindValuesConfined(p: Prims, values: List<Expr>, formals: Formals, ks: seq<Kind>,
                                              st: State, fuel: nat)
    requires Rooted(ks) && |st| == |ks| + 1
    ensures var a := EvalList(p, values, ks, st[1..], fuel);
      && |a.st| == |ks|
      && (forall i :: NearestFunction(ks) < i < |ks| - 1 ==> a.st[i] == st[1..][i])
      && (ConstantsKept(st) ==> ConstantsKept([st[0]] + a.st)) && FunctionsKept(st[|ks|], a.st[|ks| - 1])
      && (a.out.Ok? ==>
            var whole := [Put(st[0], ANON_ARGS, Array(a.values))] + a.st;
            var r := BindPositional(formals, a.values, [Function] + ks, whole);
            && (forall i :: NearestFunction(ks) < i < |ks| - 1 ==> r.st[1..][i] == st[1..][i])
            && (ConstantsKept(st) ==> ConstantsKept(r.st)) && FunctionsKept(st[|ks|], r.st[|ks|]))
    decreases fuel, values, 1
  {
    EvalListConfined(p, values, ks, st[1..], fuel);
    var a := EvalList(p, values, ks, st[1..], fuel);
    Beneath(ks, st, a.st);
    if a.out.Ok? {
      BoundAbove(formals, a.values, ks, st, a.st);
    }
  }

  /** Binding values to formals leaves the contexts under the callee's as the values left them. */
  lemma {:induction false} BoundAbove(formals: Formals, values: List<Value>, ks: seq<Kind>, st: State, under: State)
    requires Rooted(ks) && |st| == |ks| + 1 && |under| == |ks|
    requires ConstantsKept(st) ==> ConstantsKept([st[0]] + under)
    ensures var r := BindPositional(formals, values, [Function] + ks, [Put(st[0], ANON_ARGS, Array(values))] + under);
      && |r.st| == |st|
      && (forall i :: NearestFunction(ks) < i < |ks| - 1 ==> r.st[1..][i] == under[i])
      && (ConstantsKept(st) ==> ConstantsKept(r.st)) && FunctionsKept(under[|ks| - 1], r.st[|ks|])
  {
    var whole := [Put(st[0], ANON_ARGS, Array(values))] + under;
    if ConstantsKept(st) {
      assert HasConstants(st[0]);
      forall i | 0 <= i < |whole| ensures HasConstants(whole[i]) { assert HasConstants(([st[0]] + under)[i]); }
    }
    BindPositionalConfined(formals, values, [Function] + ks, whole);
    var r := BindPositional(formals, values, [Function] + ks, whole);
    forall i | NearestFunction(ks) < i < |ks| - 1 ensures r.st[1..][i] == under[i] {
      assert r.st[i + 1] == whole[i + 1];
    }
  }

  lemma {:induction false} BindNamedConfined(p: Prims, named: List<NamedArg>, ks: seq<Kind>, st: State, fuel: nat)
    requires Rooted(ks) && |st| == |ks| + 1
    ensures var r := BindNamed(p, named, ks, st, fuel);
      && (forall i :: NearestFunction(ks) < i < |ks| - 1 ==> r.st[1..][i] == st[1..][i])
      && (ConstantsKept(st) ==> ConstantsKept(r.st)) && FunctionsKept(st[|ks|], r.st[|ks|])
    decreases fuel, named, 0
  {
    if named.Cons? {
      EvalConfined(p, named.head.e, ks, st[1..], fuel);
      var r := Eval(p, named.head.e, ks, st[1..], fuel);
      Beneath(ks, st, r.st);
      if r.out.Ok? {
        var whole := [st[0]] + r.st;
        SetThenGet([Function] + ks, whole, named.head.name, r.out.v, true);
        var c := SetVar([Function] + ks, whole, named.head.name, r.out.v, true);
        if c.Changed? {
          BindNamedConfined(p, named.tail, ks, c.st, fuel);
          assert c.st[1..] == r.st;
        }
      }
    }
  }

  lemma {:induction false} BindPositionalConfined(formals: Formals, values: List<Value>, ks: seq<Kind>, st: State)
    requires Rooted(ks) && |st| == |ks|
    ensures Confined(ks, st, BindPositional(formals, values, ks, st).st)
  {
    if formals.Formals? {
      if !formals.variadic {
        BindEachConfined(formals.params, values, ks, st);
      } else if formals.params.Cons? {
        AssignConfined(ks, st, formals.params.head.name, Array(values), false, Null);
      }
    }
  }

  lemma {:induction false} BindEachConfined(params: List<Decl>, values: List<Value>, ks: seq<Kind>, st: State)
    requires Rooted(ks) && |st| == |ks|
    ensures Confined(ks, st, BindEach(params, values, ks, st).st)
  {
    if params.Cons? && values.Cons? {
      SetThenGet(ks, st, params.head.name, values.head, true);
      var c := SetVar(ks, st, params.head.name, values.head, true);
      if c.Changed? { BindEachConfined(params.tail, values.tail, ks, c.st); }
    }
  }

  lemma {:induction false} ActionsConfined(p: Prims, actions: List<Action>, ks: seq<Kind>, st: State, fuel: nat)
    requires Rooted(ks) && |st| == |ks|
    ensures Confined(ks, st, RunActions(p, actions, ks, st, fuel).st)
    decreases fuel, actions, 0
  {
    if actions.Cons? {
      match actions.head {
        case Evaluate(e) => EvalConfined(p, e, ks, st, fuel);
        case Declare(Decl(_, None)) =>
        case Declare(Decl(name, Some(e))) => InitConfined(p, name, e, ks, st, fuel);
      }
      var r := RunAction(p, actions.head, ks, st, fuel);
      if r.out.Ok? { ActionsConfined(p, actions.tail, ks, r.st, fuel); }
    }
  }

  /** The main theorem of this module, for every statement and every chain of contexts. */
  lemma {:induction false} ExecConfined(p: Prims, s: Stmt, ks: seq<Kind>, st: State, fuel: nat)
    requires Rooted(ks) && |st| == |ks|
    ensures Confined(ks, st, Exec(p, s, ks, st, fuel).st)
    decreases fuel, s, 1
  {
    match s
    case Nop =>
    case Simple(actions) => ActionsConfined(p, actions, ks, st, fuel);
    case Group(items) => ListConfined(p, items, ks, st, fuel);
    case Conditional(b) =>
      EvalConfined(p, b.cond, ks, st, fuel);
      ExecConfined(p, b.body, ks, Eval(p, b.cond, ks, st, fuel).st, fuel);
    case If(_, _, _) => IfConfined(p, s, ks, st, fuel);
    case While(_, _) => WhileAllConfined(p, s, ks, st, fuel);
    case DoWhile(_, _) => DoWhileAllConfined(p, s, ks, st, fuel);
    case For(_, _, _, _) => ForAllConfined(p, s, ks, st, fuel);
    case SwitchCase(_, _, _) => SwitchConfined(p, s, ks, st, fuel);
    case Break =>
    case Continue =>
    case Return(result) =>
      if result.Some? { EvalConfined(p, result.value, ks, st, fuel); }
    case Declaration(_) =>
  }

  lemma {:induction false} IfConfined(p: Prims, s: Stmt, ks: seq<Kind>, st: State, fuel: nat)
    requires Rooted(ks) && |st| == |ks| && s.If?
    ensures Confined(ks, st, Exec(p, s, ks, st, fuel).st)
    decreases fuel, s, 1, 0
  {
    EvalConfined(p, s.first.cond, ks, st, fuel);
    var r := Eval(p, s.first.cond, ks, st, fuel);
    ExecConfined(p, s.first.body, ks, r.st, fuel);
    BranchesConfined(p, s.elifs, s.otherwise, s, ks, r.st, fuel);
  }

  lemma {:induction false} WhileAllConfined(p: Prims, s: Stmt, ks: seq<Kind>, st: State, fuel: nat)
    requires Rooted(ks) && |st| == |ks| && s.While?
    ensures Confined(ks, st, Exec(p, s, ks, st, fuel).st)
    decreases fuel, s, 1, 0
  {
    WhileConfined(p, s, [Loop] + ks, [Fresh()] + st, fuel);
    Within(Loop, ks, st, ExecWhile(p, s, [Loop] + ks, [Fresh()] + st, fuel).st);
  }

  lemma {:induction false} DoWhileAllConfined(p: Prims, s: Stmt, ks: seq<Kind>, st: State, fuel: nat)
    requires Rooted(ks) && |st| == |ks| && s.DoWhile?
    ensures Confined(ks, st, Exec(p, s, ks, st, fuel).st)
    decreases fuel, s, 1, 0
  {
    DoWhileConfined(p, s, [Loop] + ks, [Fresh()] + st, fuel);
    Within(Loop, ks, st, ExecDoWhile(p, s, [Loop] + ks, [Fresh()] + st, fuel).st);
  }

  /** A for statement, from its first action on. */
  lemma {:induction false} ForAllConfined(p: Prims, s: Stmt, ks: seq<Kind>, st: State, fuel: nat)
    requires Rooted(ks) && |st| == |ks| && s.For?
    ensures Confined(ks, st, Exec(p, s, ks, st, fuel).st)
    decreases fuel, s, 1, 0
  {
    var inner := [Loop] + ks;
    ActionsConfined(p, s.init, inner, [Fresh()] + st, fuel);
    var r := RunActions(p, s.init, inner, [Fresh()] + st, fuel);
    ForIs(p, s, ks, st, fuel);
    Within(Loop, ks, st, r.st);
    if r.out.Ok? {
      ForConfined(p, s, inner, r.st, fuel);
      Transitive(inner, [Fresh()] + st, r.st, ExecFor(p, s, inner, r.st, fuel).st);
      Within(Loop, ks, st, ExecFor(p, s, inner, r.st, fuel).st);
    }
  }

  lemma ForIs(p: Prims, s: Stmt, ks: seq<Kind>, st: State, fuel: nat)
    requires Rooted(ks) && |st| == |ks| && s.For?
    ensures var inner := [Loop] + ks;
      var r := RunActions(p, s.init, inner, [Fresh()] + st, fuel);
      Exec(p, s, ks, st, fuel).st == (if r.out.Ok? then ExecFor(p, s, inner, r.st, fuel).st else r.st)[1..]
  {
  }

  lemma SwitchIs(p: Prims, s: Stmt, ks: seq<Kind>, st: State, fuel: nat)
    requires Rooted(ks) && |st| == |ks| && s.SwitchCase?
    ensures var inner := [Switch] + ks;
      var r := Eval(p, s.subject, inner, [Fresh()] + st, fuel);
      Exec(p, s, ks, st, fuel).st ==
      (if r.out.Ok? then ExecCases(p, s.cases, r.out.v, false, s, inner, r.st, fuel).st else r.st)[1..]
  {
  }

  lemma {:induction false} SwitchConfined(p: Prims, s: Stmt, ks: seq<Kind>, st: State, fuel: nat)
    requires Rooted(ks) && |st| == |ks| && s.SwitchCase?
    ensures Confined(ks, st, Exec(p, s, ks, st, fuel).st)
    decreases fuel, s, 1, 0
  {
    SwitchIs(p, s, ks, st, fuel);
    var inner := [Switch] + ks;
    EvalConfined(p, s.subject, inner, [Fresh()] + st, fuel);
    var r := Eval(p, s.subject, inner, [Fresh()] + st, fuel);
    Within(Switch, ks, st, r.st);
    if r.out.Ok? {
      CasesConfined(p, s.cases, r.out.v, false, s, inner, r.st, fuel);
      Within(Switch, ks, st, ExecCases(p, s.cases, r.out.v, false, s, inner, r.st, fuel).st);
    }
  }

  lemma {:induction false} ListConfined(p: Prims, items: List<Stmt>, ks: seq<Kind>, st: State, fuel: nat)
    requires Rooted(ks) && |st| == |ks|
    ensures Confined(ks, st, ExecList(p, items, ks, st, fuel).st)
    decreases fuel, items, 0
  {
    if items.Cons? {
      ExecConfined(p, items.head, ks, st, fuel);
      ListConfined(p, items.tail, ks, Exec(p, items.head, ks, st, fuel).st, fuel);
    }
  }

  lemma {:induction false} BranchesConfined(p: Prims, branches: List<Branch>, otherwise: Stmt, within: Stmt,
                                            ks: seq<Kind>, st: State, fuel: nat)
    requires Rooted(ks) && |st| == |ks|
    requires branches < within && otherwise < within
    ensures Confined(ks, st, ExecBranches(p, branches, otherwise, within, ks, st, fuel).st)
    decreases fuel, within, 0, branches
  {
    match branches
    case Nil => ExecConfined(p, otherwise, ks, st, fuel);
    case Cons(b, rest) =>
      EvalConfined(p, b.cond, ks, st, fuel);
      var r := Eval(p, b.cond, ks, st, fuel);
      if r.out.Ok? {
        if p.truthy(r.out.v) {
          ExecConfined(p, b.body, ks, r.st, fuel);
        } else {
          BranchesConfined(p, rest, otherwise, within, ks, r.st, fuel);
        }
      }
  }

  lemma {:induction false} WhileConfined(p: Prims, s: Stmt, ks: seq<Kind>, st: State, fuel: nat)
    requires Rooted(ks) && |st| == |ks| && s.While?
    ensures Confined(ks, st, ExecWhile(p, s, ks, st, fuel).st)
    decreases fuel, s, 0
  {
    if fuel > 0 {
      EvalConfined(p, s.cond, ks, st, fuel);
      var r := Eval(p, s.cond, ks, st, fuel);
      if r.out.Ok? && p.truthy(r.out.v) {
        ExecConfined(p, s.body, ks, r.st, fuel);
        WhileConfined(p, s, ks, Exec(p, s.body, ks, r.st, fuel).st, fuel - 1);
      }
    }
  }

  lemma {:induction false} DoWhileConfined(p: Prims, s: Stmt, ks: seq<Kind>, st: State, fuel: nat)
    requires Rooted(ks) && |st| == |ks| && s.DoWhile?
    ensures Confined(ks, st, ExecDoWhile(p, s, ks, st, fuel).st)
    decreases fuel, s, 0
  {
    if fuel > 0 {
      ExecConfined(p, s.body, ks, st, fuel);
      var b := Exec(p, s.body, ks, st, fuel);
      EvalConfined(p, s.cond, ks, b.st, fuel);
      DoWhileConfined(p, s, ks, Eval(p, s.cond, ks, b.st, fuel).st, fuel - 1);
    }
  }

  lemma {:induction false} ForConfined(p: Prims, s: Stmt, ks: seq<Kind>, st: State, fuel: nat)
    requires Rooted(ks) && |st| == |ks| && s.For?
    ensures Confined(ks, st, ExecFor(p, s, ks, st, fuel).st)
    decreases fuel, s, 0
  {
    if fuel > 0 {
      if s.test.Some? { EvalConfined(p, s.test.value, ks, st, fuel); }
      var r := if s.test.None? then E(Ok(Integer(1)), st) else Eval(p, s.test.value, ks, st, fuel);
      if r.out.Ok? && p.truthy(r.out.v) {
        ExecConfined(p, s.body, ks, r.st, fuel);
        var b := Exec(p, s.body, ks, r.st, fuel);
        ActionsConfined(p, s.after, ks, b.st, fuel);
        var a := RunActions(p, s.after, ks, b.st, fuel);
        Transitive(ks, st, r.st, b.st);
        Transitive(ks, st, b.st, a.st);
        ForConfined(p, s, ks, a.st, fuel - 1);
        Transitive(ks, st, a.st, ExecFor(p, s, ks, a.st, fuel - 1).st);
      }
    }
  }

  lemma {:induction false} CasesConfined(p: Prims, cases: List<Case>, subject: Value, hit: bool, s: Stmt,
                                         ks: seq<Kind>, st: State, fuel: nat)
    requires Rooted(ks) && |st| == |ks| && s.SwitchCase? && cases < s
    ensures Confined(ks, st, ExecCases(p, cases, subject, hit, s, ks, st, fuel).st)
    decreases fuel, s, 0, cases
  {
    match cases
    case Nil =>
      if !hit { ExecConfined(p, s.otherwise, ks, st, fuel); }
    case Cons(c, rest) =>
      EvalListConfined(p, c.tests, ks, st, fuel);
      var t := EvalList(p, c.tests, ks, st, fuel);
      if t.out.Ok? {
        if Hits(p, subject, t.values) {
          ExecConfined(p, c.body, ks, t.st, fuel);
          var b := Exec(p, c.body, ks, t.st, fuel);
          if b.c.Normal? { CasesConfined(p, rest, subject, true, s, ks, b.st, fuel); }
        } else {
          CasesConfined(p, rest, subject, hit, s, ks, t.st, fuel);
        }
      }
  }

  /** A function that is found by its name is found by it, unchanged, after any statement. */
  lemma {:induction false} FunctionStays(p: Prims, s: Stmt, ks: seq<Kind>, st: State, fuel: nat, name: string)
    requires Rooted(ks) && |st| == |ks| && GetFunction(st, name).Some?
    ensures GetFunction(Exec(p, s, ks, st, fuel).st, name) == GetFunction(st, name)
  {
    ExecConfined(p, s, ks, st, fuel);
  }
}
