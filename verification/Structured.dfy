/** The direct semantics of the language: every statement ends in a completion, there are
    no flags. Operands of a sum are evaluated right to left, as the engine does. */
module Structured {
  import opened Common
  import opened Language
  import opened Scopes

  datatype Completion =
    | Normal
    | Broke
    | Continued
    | Returned(v: Value)
    | Failed(error: Error)
    | Exhausted

  datatype EvalResult = E(out: Out, st: State)
  datatype ListResult = L(out: Out, values: List<Value>, st: State)
  datatype ExecResult = X(c: Completion, st: State)

  function Complete(out: Out): Completion {
    match out
    case Ok(_) => Normal
    case Thrown(e) => Failed(e)
    case NoFuel => Exhausted
  }

  function AfterChange(change: Change, v: Value, st: State): (r: EvalResult)
    ensures |st| > 0 && (change.Changed? ==> |change.st| == |st|) ==> |r.st| == |st|
  {
    match change
    case Refused(e) => E(Thrown(e), st)
    case Changed(st') => E(Ok(v), st')
  }

  // ----- expressions -----

  function Eval(p: Prims, e: Expr, ks: seq<Kind>, st: State, fuel: nat): (r: EvalResult)
    requires Rooted(ks) && |st| == |ks|
    ensures |r.st| == |ks|
    decreases fuel, e, 2
  {
    match e
    case Const(v) => E(Ok(v), st)
    case ReadVar(name) => E(Ok(GetVar(ks, st, name)), st)
    case Unary(op, a) =>
      var r := Eval(p, a, ks, st, fuel);
      if r.out.Ok? then E(Lift(p.unary(op, r.out.v)), r.st) else r
    case Binary(op, a, b) =>
      var r := Eval(p, a, ks, st, fuel);
      if !r.out.Ok? then r else
      var s := Eval(p, b, ks, r.st, fuel);
      if s.out.Ok? then E(Lift(p.binary(op, r.out.v, s.out.v)), s.st) else s
    case And(a, b) =>
      var r := Eval(p, a, ks, st, fuel);
      if !r.out.Ok? then r
      else if !p.truthy(r.out.v) then E(Ok(ToBool(false)), r.st)
      else
        var s := Eval(p, b, ks, r.st, fuel);
        if s.out.Ok? then E(Ok(ToBool(p.truthy(s.out.v))), s.st) else s
    case Or(a, b) =>
      var r := Eval(p, a, ks, st, fuel);
      if !r.out.Ok? then r
      else if p.truthy(r.out.v) then E(Ok(ToBool(true)), r.st)
      else
        var s := Eval(p, b, ks, r.st, fuel);
        if s.out.Ok? then E(Ok(ToBool(p.truthy(s.out.v))), s.st) else s
    case Add(a, b) =>
      var s := Eval(p, b, ks, st, fuel);
      if !s.out.Ok? then s else
      var r := Eval(p, a, ks, s.st, fuel);
      if r.out.Ok? then E(Lift(p.add(r.out.v, s.out.v)), r.st) else r
    case Update(name, op, operand) =>
      var r := if operand.None? then E(Ok(Null), st) else Eval(p, operand.value, ks, st, fuel);
      if r.out.Ok? then Store(p, name, op, r.out.v, ks, r.st) else r
    case Call(name, args) =>
      var f := GetFunction(st, name);
      if f.Some? then Invoke(p, e, f.value, ks, st, fuel)
      else if !p.isMethod(name) then E(Thrown(NotCallable(name)), st)
      else
        var r := match args
          case Positional(values) => EvalList(p, values, ks, st, fuel)
          case Named(named) => EvalNamed(p, named, ks, st, fuel);
        if r.out.Ok? then E(Lift(p.callMethod(name, r.values)), r.st) else E(r.out, r.st)
  }

  function Store(p: Prims, name: string, op: int, v: Value, ks: seq<Kind>, st: State): (r: EvalResult)
    requires Rooted(ks) && |st| == |ks|
    ensures |r.st| == |ks|
  {
    if op == WRITE then AfterChange(SetVar(ks, st, name, v, false), v, st)
    else
      match p.update(op, GetVar(ks, st, name), v)
      case None => E(Thrown(OperatorFailed), st)
      case Some((stored, result)) => AfterChange(SetVar(ks, st, name, stored, false), result, st)
  }

  function EvalList(p: Prims, es: List<Expr>, ks: seq<Kind>, st: State, fuel: nat): (r: ListResult)
    requires Rooted(ks) && |st| == |ks|
    ensures |r.st| == |ks|
    decreases fuel, es, 0
  {
    match es
    case Nil => L(Ok(Null), Nil, st)
    case Cons(e, rest) =>
      var r := Eval(p, e, ks, st, fuel);
      if !r.out.Ok? then L(r.out, Nil, r.st) else
      var s := EvalList(p, rest, ks, r.st, fuel);
      L(s.out, Cons(r.out.v, s.values), s.st)
  }

  /** Named arguments of a builtin method are declarations, run in the caller's scope. */
  function EvalNamed(p: Prims, named: List<NamedArg>, ks: seq<Kind>, st: State, fuel: nat): (r: ListResult)
    requires Rooted(ks) && |st| == |ks|
    ensures |r.st| == |ks|
    decreases fuel, named, 0
  {
    match named
    case Nil => L(Ok(Null), Nil, st)
    case Cons(a, rest) =>
      var r := RunInit(p, a.name, a.e, ks, st, fuel);
      if !r.out.Ok? then L(r.out, Nil, r.st) else
      var s := EvalNamed(p, rest, ks, r.st, fuel);
      L(s.out, Cons(r.out.v, s.values), s.st)
  }

  /** A call of a script function: formals and their defaults in the new scope, actuals in
      the caller's, then the body. The callee's scope is gone afterwards. */
  function Invoke(p: Prims, e: Expr, f: Func, ks: seq<Kind>, st: State, fuel: nat): (r: EvalResult)
    requires Rooted(ks) && |st| == |ks| && e.Call?
    ensures |r.st| == |ks|
    decreases fuel, e, 1
  {
    if fuel == 0 then E(NoFuel, st) else
    var inner := [Function] + ks;
    var d := RunActions(p, Params(f.formals), inner, [Fresh()] + st, fuel - 1);
    if !d.out.Ok? then E(d.out, d.st[1..]) else
    var b := BindActuals(p, e, f.formals, ks, d.st, fuel);
    if !b.out.Ok? then E(b.out, b.st[1..]) else
    var x := Exec(p, f.body, inner, b.st, fuel - 1);
    var out := match x.c
      case Returned(v) => Ok(v)
      case Failed(error) => Thrown(error)
      case Exhausted => NoFuel
      case _ => Ok(Null);
    E(out, x.st[1..])
  }

  /** A formal list is run as declarations. */
  function Params(formals: Formals): List<Action> {
    match formals
    case NoFormals => Nil
    case Formals(_, params) => Declarations(params)
  }

  function Declarations(params: List<Decl>): List<Action> {
    match params
    case Nil => Nil
    case Cons(d, rest) => Cons(Declare(d), Declarations(rest))
  }

  /** `st` is the callee's scope followed by the caller's chain `ks`; the actuals are
      evaluated in the latter and stored in the former. */
  function BindActuals(p: Prims, e: Expr, formals: Formals, ks: seq<Kind>, st: State, fuel: nat): (r: EvalResult)
    requires Rooted(ks) && |st| == |ks| + 1 && e.Call?
    ensures |r.st| == |ks| + 1
    decreases fuel, e, 0
  {
    match e.args
    case Named(named) => BindNamed(p, named, ks, st, fuel)
    case Positional(values) =>
      var a := EvalList(p, values, ks, st[1..], fuel);
      if !a.out.Ok? then E(a.out, [st[0]] + a.st) else
      BindPositional(formals, a.values, [Function] + ks, [Put(st[0], ANON_ARGS, Array(a.values))] + a.st)
  }

  function BindNamed(p: Prims, named: List<NamedArg>, ks: seq<Kind>, st: State, fuel: nat): (r: EvalResult)
    requires Rooted(ks) && |st| == |ks| + 1
    ensures |r.st| == |ks| + 1
    decreases fuel, named, 0
  {
    match named
    case Nil => E(Ok(Null), st)
    case Cons(a, rest) =>
      var r := Eval(p, a.e, ks, st[1..], fuel);
      if !r.out.Ok? then E(r.out, [st[0]] + r.st) else
      match SetVar([Function] + ks, [st[0]] + r.st, a.name, r.out.v, true)
      case Refused(error) => E(Thrown(error), [st[0]] + r.st)
      case Changed(st') => BindNamed(p, rest, ks, st', fuel)
  }

  function BindPositional(formals: Formals, values: List<Value>, ks: seq<Kind>, st: State): (r: EvalResult)
    requires Rooted(ks) && |st| == |ks|
    ensures |r.st| == |ks|
  {
    match formals
    case NoFormals => E(Ok(Null), st)
    case Formals(true, Nil) => E(Ok(Null), st)
    case Formals(true, Cons(d, _)) =>
      AfterChange(SetVar(ks, st, d.name, Array(values), false), Null, st)
    case Formals(false, params) => BindEach(params, values, ks, st)
  }

  function BindEach(params: List<Decl>, values: List<Value>, ks: seq<Kind>, st: State): (r: EvalResult)
    requires Rooted(ks) && |st| == |ks|
    ensures |r.st| == |ks|
  {
    if params.Nil? || values.Nil? then E(Ok(Null), st) else
    match SetVar(ks, st, params.head.name, values.head, true)
    case Refused(error) => E(Thrown(error), st)
    case Changed(st') => BindEach(params.tail, values.tail, ks, st')
  }

  // ----- statements -----

  function RunActions(p: Prims, actions: List<Action>, ks: seq<Kind>, st: State, fuel: nat): (r: EvalResult)
    requires Rooted(ks) && |st| == |ks|
    ensures |r.st| == |ks|
    decreases fuel, actions, 0
  {
    match actions
    case Nil => E(Ok(Null), st)
    case Cons(a, rest) =>
      var r := RunAction(p, a, ks, st, fuel);
      if r.out.Ok? then RunActions(p, rest, ks, r.st, fuel) else r
  }

  function RunAction(p: Prims, a: Action, ks: seq<Kind>, st: State, fuel: nat): (r: EvalResult)
    requires Rooted(ks) && |st| == |ks|
    ensures |r.st| == |ks|
    decreases fuel, a, 0
  {
    match a
    case Evaluate(e) => Eval(p, e, ks, st, fuel)
    case Declare(Decl(name, None)) => AfterChange(AddVar(st, name), Null, st)
    case Declare(Decl(name, Some(e))) => RunInit(p, name, e, ks, st, fuel)
  }

  function RunInit(p: Prims, name: string, e: Expr, ks: seq<Kind>, st: State, fuel: nat): (r: EvalResult)
    requires Rooted(ks) && |st| == |ks|
    ensures |r.st| == |ks|
    decreases fuel, e, 3
  {
    match AddVar(st, name)
    case Refused(error) => E(Thrown(error), st)
    case Changed(added) =>
      var r := Eval(p, e, ks, added, fuel);
      if r.out.Ok? then AfterChange(SetVar(ks, r.st, name, r.out.v, false), r.out.v, r.st) else r
  }

  /** Where a completion may come from: break from a loop or switch scope, continue from a
      loop scope, return from below a function. */
  predicate Scoped(c: Completion, ks: seq<Kind>)
    requires |ks| > 0
  {
    match c
    case Broke => ks[0] == Loop || ks[0] == Switch
    case Continued => ks[0] == Loop
    case Returned(_) => NearestFunction(ks) < |ks|
    case _ => true
  }

  function Exec(p: Prims, s: Stmt, ks: seq<Kind>, st: State, fuel: nat): (r: ExecResult)
    requires Rooted(ks) && |st| == |ks|
    ensures |r.st| == |ks| && Scoped(r.c, ks)
    decreases fuel, s, 1
  {
    match s
    case Nop => X(Normal, st)
    case Simple(actions) =>
      var r := RunActions(p, actions, ks, st, fuel);
      X(Complete(r.out), r.st)
    case Group(items) => ExecList(p, items, ks, st, fuel)
    case Conditional(branch) =>
      var r := Eval(p, branch.cond, ks, st, fuel);
      if !r.out.Ok? then X(Complete(r.out), r.st)
      else if p.truthy(r.out.v) then Exec(p, branch.body, ks, r.st, fuel)
      else X(Normal, r.st)
    case If(first, elifs, otherwise) =>
      var r := Eval(p, first.cond, ks, st, fuel);
      if !r.out.Ok? then X(Complete(r.out), r.st)
      else if p.truthy(r.out.v) then Exec(p, first.body, ks, r.st, fuel)
      else ExecBranches(p, elifs, otherwise, s, ks, r.st, fuel)
    case While(_, _) => Leave(ExecWhile(p, s, [Loop] + ks, [Fresh()] + st, fuel), ks)
    case DoWhile(_, _) => Leave(ExecDoWhile(p, s, [Loop] + ks, [Fresh()] + st, fuel), ks)
    case For(init, _, _, _) =>
      var r := RunActions(p, init, [Loop] + ks, [Fresh()] + st, fuel);
      if r.out.Ok? then Leave(ExecFor(p, s, [Loop] + ks, r.st, fuel), ks)
      else X(Complete(r.out), r.st[1..])
    case SwitchCase(subject, cases, otherwise) =>
      var inner := [Switch] + ks;
      var r := Eval(p, subject, inner, [Fresh()] + st, fuel);
      if r.out.Ok? then Leave(ExecCases(p, cases, r.out.v, false, s, inner, r.st, fuel), ks)
      else X(Complete(r.out), r.st[1..])
    case Break =>
      if ks[0] == Loop || ks[0] == Switch then X(Broke, st) else X(Failed(BreakOutside), st)
    case Continue =>
      if ks[0] == Loop then X(Continued, st) else X(Failed(ContinueOutside), st)
    case Return(result) =>
      var r := if result.None? then E(Ok(Null), st) else Eval(p, result.value, ks, st, fuel);
      if !r.out.Ok? then X(Complete(r.out), r.st)
      else if NearestFunction(ks) < |ks| then X(Returned(r.out.v), r.st)
      else X(Failed(ReturnOutside), r.st)
    case Declaration(f) =>
      match AddFunction(p, ks, st, f)
      case Refused(e) => X(Failed(e), st)
      case Changed(st') => X(Normal, st')
  }

  /** Leaving the scope of a loop or a switch: its locals go, break has done its work. */
  function Leave(r: ExecResult, ks: seq<Kind>): (o: ExecResult)
    requires |r.st| == |ks| + 1 && |ks| > 0
    requires Scoped(r.c, [Loop] + ks) || Scoped(r.c, [Switch] + ks)
    ensures |o.st| == |ks| && Scoped(o.c, ks)
  {
    assert ([Loop] + ks)[1..] == ks && ([Switch] + ks)[1..] == ks;
    X(if r.c.Broke? || r.c.Continued? then Normal else r.c, r.st[1..])
  }

  function ExecList(p: Prims, items: List<Stmt>, ks: seq<Kind>, st: State, fuel: nat): (r: ExecResult)
    requires Rooted(ks) && |st| == |ks|
    ensures |r.st| == |ks| && Scoped(r.c, ks)
    decreases fuel, items, 0
  {
    match items
    case Nil => X(Normal, st)
    case Cons(s, rest) =>
      var r := Exec(p, s, ks, st, fuel);
      if r.c.Normal? then ExecList(p, rest, ks, r.st, fuel) else r
  }

  /** The first branch whose condition holds, else `otherwise`. */
  function ExecBranches(p: Prims, branches: List<Branch>, otherwise: Stmt, ghost within: Stmt, ks: seq<Kind>,
                        st: State, fuel: nat): (r: ExecResult)
    requires Rooted(ks) && |st| == |ks|
    requires branches < within && otherwise < within
    ensures |r.st| == |ks| && Scoped(r.c, ks)
    decreases fuel, within, 0, branches
  {
    match branches
    case Nil => Exec(p, otherwise, ks, st, fuel)
    case Cons(b, rest) =>
      var r := Eval(p, b.cond, ks, st, fuel);
      if !r.out.Ok? then X(Complete(r.out), r.st)
      else if p.truthy(r.out.v) then Exec(p, b.body, ks, r.st, fuel)
      else ExecBranches(p, rest, otherwise, within, ks, r.st, fuel)
  }

  function ExecWhile(p: Prims, s: Stmt, ks: seq<Kind>, st: State, fuel: nat): (r: ExecResult)
    requires Rooted(ks) && |st| == |ks| && s.While?
    ensures |r.st| == |ks| && Scoped(r.c, ks)
    decreases fuel, s, 0
  {
    if fuel == 0 then X(Exhausted, st) else
    var r := Eval(p, s.cond, ks, st, fuel);
    if !r.out.Ok? then X(Complete(r.out), r.st)
    else if !p.truthy(r.out.v) then X(Normal, r.st)
    else
      var b := Exec(p, s.body, ks, r.st, fuel);
      if b.c.Normal? || b.c.Continued? then ExecWhile(p, s, ks, b.st, fuel - 1) else b
  }

  function ExecDoWhile(p: Prims, s: Stmt, ks: seq<Kind>, st: State, fuel: nat): (r: ExecResult)
    requires Rooted(ks) && |st| == |ks| && s.DoWhile?
    ensures |r.st| == |ks| && Scoped(r.c, ks)
    decreases fuel, s, 0
  {
    if fuel == 0 then X(Exhausted, st) else
    var b := Exec(p, s.body, ks, st, fuel);
    if !b.c.Normal? && !b.c.Continued? then b else
    var r := Eval(p, s.cond, ks, b.st, fuel);
    if !r.out.Ok? then X(Complete(r.out), r.st)
    else if !p.truthy(r.out.v) then X(Normal, r.st)
    else ExecDoWhile(p, s, ks, r.st, fuel - 1)
  }

  function ExecFor(p: Prims, s: Stmt, ks: seq<Kind>, st: State, fuel: nat): (r: ExecResult)
    requires Rooted(ks) && |st| == |ks| && s.For?
    ensures |r.st| == |ks| && Scoped(r.c, ks)
    decreases fuel, s, 0
  {
    if fuel == 0 then X(Exhausted, st) else
    var r := if s.test.None? then E(Ok(Integer(1)), st) else Eval(p, s.test.value, ks, st, fuel);
    if !r.out.Ok? then X(Complete(r.out), r.st)
    else if !p.truthy(r.out.v) then X(Normal, r.st)
    else
      var b := Exec(p, s.body, ks, r.st, fuel);
      if !b.c.Normal? && !b.c.Continued? then b else
      var a := RunActions(p, s.after, ks, b.st, fuel);
      if !a.out.Ok? then X(Complete(a.out), a.st)
      else ExecFor(p, s, ks, a.st, fuel - 1)
  }

  /** Every case that lists the subject runs, in order, until one of them does not end
      normally; the default runs when none did. */
  function ExecCases(p: Prims, cases: List<Case>, subject: Value, hit: bool, s: Stmt, ks: seq<Kind>, st: State,
                     fuel: nat): (r: ExecResult)
    requires Rooted(ks) && |st| == |ks| && s.SwitchCase? && cases < s
    ensures |r.st| == |ks| && Scoped(r.c, ks)
    decreases fuel, s, 0, cases
  {
    match cases
    case Nil => if hit then X(Normal, st) else Exec(p, s.otherwise, ks, st, fuel)
    case Cons(c, rest) =>
      var t := EvalList(p, c.tests, ks, st, fuel);
      if !t.out.Ok? then X(Complete(t.out), t.st)
      else if !Hits(p, subject, t.values) then ExecCases(p, rest, subject, hit, s, ks, t.st, fuel)
      else
        var r := Exec(p, c.body, ks, t.st, fuel);
        if r.c.Normal? then ExecCases(p, rest, subject, true, s, ks, r.st, fuel) else r
  }
}
