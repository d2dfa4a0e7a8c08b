/** The engine's own semantics: control flow is carried by flag bits in the chain of
    contexts, and executing anything in a flagged context does nothing. */
module FlagMachine {
  import opened Common
  import opened Language
  import opened Scopes

  const CONTINUE_FLAG: bv32 := 1
  const BREAK_FLAG: bv32 := 2
  const RETURN_FLAG: bv32 := 4

  /** The fields of a context that steer control: mFlags and mReturnValue. */
  datatype Mark = Mark(flags: bv32, ret: Value)

  datatype Machine = M(st: State, marks: seq<Mark>)

  datatype Result = F(out: Out, m: Machine)
  datatype ListResult = L(out: Out, values: List<Value>, m: Machine)

  ghost predicate Fits(ks: seq<Kind>, m: Machine) {
    Rooted(ks) && |m.st| == |m.marks| == |ks|
  }

  predicate Interrupted(m: Machine)
    requires |m.marks| > 0
  {
    m.marks[0].flags & 0xFF != 0
  }

  function CleanContinue(m: Machine): (r: Machine)
    requires |m.marks| > 0
    ensures |r.marks| == |m.marks|
  {
    m.(marks := m.marks[0 := m.marks[0].(flags := m.marks[0].flags & 0xFE)])
  }

  function Raise(m: Machine, flag: bv32): (r: Machine)
    requires |m.marks| > 0
    ensures |r.marks| == |m.marks|
  {
    m.(marks := m.marks[0 := m.marks[0].(flags := m.marks[0].flags | flag)])
  }

  function Returning(mark: Mark, v: Value): Mark {
    Mark(mark.flags | RETURN_FLAG, v)
  }

  /** ReturnExecuted: every context up to and including the nearest function. */
  function RaiseReturn(ks: seq<Kind>, marks: seq<Mark>, v: Value): (r: seq<Mark>)
    requires |marks| == |ks|
    ensures |r| == |marks|
  {
    seq(|marks|, i requires 0 <= i < |marks| =>
      if i <= NearestFunction(ks) then Returning(marks[i], v) else marks[i])
  }

  function Push(m: Machine): Machine {
    M([Fresh()] + m.st, [Mark(0, Null)] + m.marks)
  }

  function Pop(m: Machine): Machine
    requires |m.st| > 0 && |m.marks| > 0
  {
    M(m.st[1..], m.marks[1..])
  }

  function Store(m: Machine, change: Change, v: Value): Result {
    match change
    case Refused(e) => F(Thrown(e), m)
    case Changed(st) => F(Ok(v), m.(st := st))
  }

  // ----- expressions -----

  function RunExpr(p: Prims, e: Expr, ks: seq<Kind>, m: Machine, fuel: nat): (r: Result)
    requires Fits(ks, m)
    ensures Fits(ks, r.m)
    decreases fuel, e, 2
  {
    if Interrupted(m) then F(Ok(m.marks[0].ret), m) else
    match e
    case Const(v) => F(Ok(v), m)
    case ReadVar(name) => F(Ok(GetVar(ks, m.st, name)), m)
    case Unary(op, a) =>
      var r := RunExpr(p, a, ks, m, fuel);
      if r.out.Ok? then F(Lift(p.unary(op, r.out.v)), r.m) else r
    case Binary(op, a, b) =>
      var r := RunExpr(p, a, ks, m, fuel);
      if !r.out.Ok? then r else
      var s := RunExpr(p, b, ks, r.m, fuel);
      if s.out.Ok? then F(Lift(p.binary(op, r.out.v, s.out.v)), s.m) else s
    case And(a, b) =>
      var r := RunExpr(p, a, ks, m, fuel);
      if !r.out.Ok? then r
      else if !p.truthy(r.out.v) then F(Ok(ToBool(false)), r.m)
      else
        var s := RunExpr(p, b, ks, r.m, fuel);
        if s.out.Ok? then F(Ok(ToBool(p.truthy(s.out.v))), s.m) else s
    case Or(a, b) =>
      var r := RunExpr(p, a, ks, m, fuel);
      if !r.out.Ok? then r
      else if p.truthy(r.out.v) then F(Ok(ToBool(true)), r.m)
      else
        var s := RunExpr(p, b, ks, r.m, fuel);
        if s.out.Ok? then F(Ok(ToBool(p.truthy(s.out.v))), s.m) else s
    case Add(_, b) =>
      var r := RunExpr(p, b, ks, m, fuel);
      if r.out.Ok? then RunSpine(p, e, Cons(r.out.v, Nil), ks, r.m, fuel) else r
    case Update(name, op, operand) =>
      var r := if operand.None? then F(Ok(Null), m) else RunExpr(p, operand.value, ks, m, fuel);
      if r.out.Ok? then Assign(p, name, op, r.out.v, ks, r.m) else r
    case Call(name, args) =>
      var f := GetFunction(m.st, name);
      if f.Some? then RunCall(p, e, f.value, ks, m, fuel)
      else if !p.isMethod(name) then F(Thrown(NotCallable(name)), m)
      else
        var r := match args
          case Positional(values) => RunArgs(p, values, ks, m, fuel)
          case Named(named) => RunNamedArgs(p, named, ks, m, fuel);
        if !r.out.Ok? then F(r.out, r.m)
        else if Interrupted(r.m) then F(Ok(r.m.marks[0].ret), r.m)
        else F(Lift(p.callMethod(name, r.values)), r.m)
  }

  /** BatchAddOperation: walk down the left spine, collecting right operands in front of
      the pending ones, then add from the left. */
  function RunSpine(p: Prims, seek: Expr, pending: List<Value>, ks: seq<Kind>, m: Machine, fuel: nat): (r: Result)
    requires Fits(ks, m) && seek.Add?
    ensures Fits(ks, r.m)
    decreases fuel, seek, 1
  {
    if seek.left.Add? then
      var r := RunExpr(p, seek.left.right, ks, m, fuel);
      if r.out.Ok? then RunSpine(p, seek.left, Cons(r.out.v, pending), ks, r.m, fuel) else r
    else
      var r := RunExpr(p, seek.left, ks, m, fuel);
      if r.out.Ok? then F(FoldAdd(p, r.out.v, pending), r.m) else r
  }

  function Assign(p: Prims, name: string, op: int, v: Value, ks: seq<Kind>, m: Machine): (r: Result)
    requires Fits(ks, m)
    ensures Fits(ks, r.m)
  {
    if op == WRITE then Store(m, SetVar(ks, m.st, name, v, false), v)
    else
      match p.update(op, GetVar(ks, m.st, name), v)
      case None => F(Thrown(OperatorFailed), m)
      case Some((stored, result)) => Store(m, SetVar(ks, m.st, name, stored, false), result)
  }

  function RunArgs(p: Prims, es: List<Expr>, ks: seq<Kind>, m: Machine, fuel: nat): (r: ListResult)
    requires Fits(ks, m)
    ensures Fits(ks, r.m)
    decreases fuel, es, 0
  {
    match es
    case Nil => L(Ok(Null), Nil, m)
    case Cons(e, rest) =>
      var r := RunExpr(p, e, ks, m, fuel);
      if !r.out.Ok? then L(r.out, Nil, r.m)
      else if Interrupted(r.m) then L(Ok(Null), Cons(r.out.v, Nil), r.m)
      else
        var s := RunArgs(p, rest, ks, r.m, fuel);
        L(s.out, Cons(r.out.v, s.values), s.m)
  }

  function RunNamedArgs(p: Prims, named: List<NamedArg>, ks: seq<Kind>, m: Machine, fuel: nat): (r: ListResult)
    requires Fits(ks, m)
    ensures Fits(ks, r.m)
    decreases fuel, named, 0
  {
    match named
    case Nil => L(Ok(Null), Nil, m)
    case Cons(a, rest) =>
      var r := RunInit(p, a.name, a.e, ks, m, fuel);
      if !r.out.Ok? then L(r.out, Nil, r.m)
      else if Interrupted(r.m) then L(Ok(Null), Cons(r.out.v, Nil), r.m)
      else
        var s := RunNamedArgs(p, rest, ks, r.m, fuel);
        L(s.out, Cons(r.out.v, s.values), s.m)
  }

  /** CallScriptFunction: the body's result is whatever the new context's return value is. */
  function RunCall(p: Prims, e: Expr, f: Func, ks: seq<Kind>, m: Machine, fuel: nat): (r: Result)
    requires Fits(ks, m) && e.Call?
    ensures Fits(ks, r.m)
    decreases fuel, e, 1
  {
    if fuel == 0 then F(NoFuel, m) else
    var inner := [Function] + ks;
    var d := RunFormals(p, Params(f.formals), inner, Push(m), fuel - 1);
    if !d.out.Ok? then F(d.out, Pop(d.m)) else
    var b := Fill(p, e, f.formals, ks, d.m, fuel);
    if !b.out.Ok? then F(b.out, Pop(b.m)) else
    var x := RunStmt(p, f.body, inner, b.m, fuel - 1);
    if !x.out.Ok? then F(x.out, Pop(x.m))
    else F(Ok(x.m.marks[0].ret), Pop(x.m))
  }

  function Params(formals: Formals): List<Decl> {
    match formals
    case NoFormals => Nil
    case Formals(_, params) => params
  }

  function RunFormals(p: Prims, params: List<Decl>, ks: seq<Kind>, m: Machine, fuel: nat): (r: Result)
    requires Fits(ks, m)
    ensures Fits(ks, r.m)
    decreases fuel, params, 0
  {
    match params
    case Nil => F(Ok(Null), m)
    case Cons(d, rest) =>
      var r := RunDecl(p, d, ks, m, fuel);
      if r.out.Ok? then RunFormals(p, rest, ks, r.m, fuel) else r
  }

  /** FillActualParameters after the formals were run: `m` is the new context followed by
      the caller's chain `ks`. */
  function Fill(p: Prims, e: Expr, formals: Formals, ks: seq<Kind>, m: Machine, fuel: nat): (r: Result)
    requires Fits([Function] + ks, m) && Rooted(ks) && e.Call?
    ensures Fits([Function] + ks, r.m)
    decreases fuel, e, 0
  {
    match e.args
    case Named(named) => FillNamed(p, named, ks, m, fuel)
    case Positional(values) =>
      var a := RunArgs(p, values, ks, Pop(m), fuel);
      var whole := Under(m, a.m);
      if !a.out.Ok? then F(a.out, whole) else
      FillPositional(formals, a.values, [Function] + ks,
        whole.(st := whole.st[0 := Put(whole.st[0], ANON_ARGS, Array(a.values))]))
  }

  /** The innermost context of `m` on top of the chain `outer`. */
  function Under(m: Machine, outer: Machine): Machine
    requires |m.st| > 0 && |m.marks| > 0
  {
    M([m.st[0]] + outer.st, [m.marks[0]] + outer.marks)
  }

  function FillNamed(p: Prims, named: List<NamedArg>, ks: seq<Kind>, m: Machine, fuel: nat): (r: Result)
    requires Fits([Function] + ks, m) && Rooted(ks)
    ensures Fits([Function] + ks, r.m)
    decreases fuel, named, 0
  {
    match named
    case Nil => F(Ok(Null), m)
    case Cons(a, rest) =>
      var r := RunExpr(p, a.e, ks, Pop(m), fuel);
      var whole := Under(m, r.m);
      if !r.out.Ok? then F(r.out, whole) else
      var s := Store(whole, SetVar([Function] + ks, whole.st, a.name, r.out.v, true), Null);
      if s.out.Ok? then FillNamed(p, rest, ks, s.m, fuel) else s
  }

  function FillPositional(formals: Formals, values: List<Value>, ks: seq<Kind>, m: Machine): (r: Result)
    requires Fits(ks, m)
    ensures Fits(ks, r.m)
  {
    match formals
    case NoFormals => F(Ok(Null), m)
    case Formals(true, Nil) => F(Ok(Null), m)
    case Formals(true, Cons(d, _)) => Store(m, SetVar(ks, m.st, d.name, Array(values), false), Null)
    case Formals(false, params) => FillEach(params, values, ks, m)
  }

  function FillEach(params: List<Decl>, values: List<Value>, ks: seq<Kind>, m: Machine): (r: Result)
    requires Fits(ks, m)
    ensures Fits(ks, r.m)
  {
    if params.Nil? || values.Nil? then F(Ok(Null), m) else
    var s := Store(m, SetVar(ks, m.st, params.head.name, values.head, true), Null);
    if s.out.Ok? then FillEach(params.tail, values.tail, ks, s.m) else s
  }

  // ----- statements: a result of Ok says nothing about the flags -----

  function RunAction(p: Prims, a: Action, ks: seq<Kind>, m: Machine, fuel: nat): (r: Result)
    requires Fits(ks, m)
    ensures Fits(ks, r.m)
    decreases fuel, a, 0
  {
    match a
    case Evaluate(e) => RunExpr(p, e, ks, m, fuel)
    case Declare(d) => RunDecl(p, d, ks, m, fuel)
  }

  function RunDecl(p: Prims, d: Decl, ks: seq<Kind>, m: Machine, fuel: nat): (r: Result)
    requires Fits(ks, m)
    ensures Fits(ks, r.m)
    decreases fuel, d, 0
  {
    match d.init
    case None => if Interrupted(m) then F(Ok(m.marks[0].ret), m) else Store(m, AddVar(m.st, d.name), Null)
    case Some(e) => RunInit(p, d.name, e, ks, m, fuel)
  }

  function RunInit(p: Prims, name: string, e: Expr, ks: seq<Kind>, m: Machine, fuel: nat): (r: Result)
    requires Fits(ks, m)
    ensures Fits(ks, r.m)
    decreases fuel, e, 3
  {
    if Interrupted(m) then F(Ok(m.marks[0].ret), m) else
    var a := Store(m, AddVar(m.st, name), Null);
    if !a.out.Ok? then a else
    var r := RunExpr(p, e, ks, a.m, fuel);
    if r.out.Ok? then Store(r.m, SetVar(ks, r.m.st, name, r.out.v, false), r.out.v) else r
  }

  function RunActions(p: Prims, actions: List<Action>, ks: seq<Kind>, m: Machine, fuel: nat): (r: Result)
    requires Fits(ks, m)
    ensures Fits(ks, r.m)
    decreases fuel, actions, 0
  {
    match actions
    case Nil => F(Ok(Null), m)
    case Cons(a, rest) =>
      var r := RunAction(p, a, ks, m, fuel);
      if !r.out.Ok? then r
      else if Interrupted(r.m) then F(Ok(Null), r.m)
      else RunActions(p, rest, ks, r.m, fuel)
  }

  function RunStmt(p: Prims, s: Stmt, ks: seq<Kind>, m: Machine, fuel: nat): (r: Result)
    requires Fits(ks, m)
    ensures Fits(ks, r.m)
    decreases fuel, s, 1
  {
    if Interrupted(m) then F(Ok(Null), m) else
    match s
    case Nop => F(Ok(Null), m)
    case Simple(actions) => RunActions(p, actions, ks, m, fuel)
    case Group(items) => RunList(p, items, ks, m, fuel)
    case Conditional(branch) => RunBranch(p, branch, ks, m, fuel)
    case If(first, elifs, otherwise) =>
      var r := RunBranch(p, first, ks, m, fuel);
      if !r.out.Ok? || p.truthy(r.out.v) || Interrupted(r.m) then r
      else RunElifs(p, elifs, s, ks, r.m, fuel)
    case While(_, _) => Drop(RunWhile(p, s, [Loop] + ks, Push(m), fuel))
    case DoWhile(_, _) => Drop(RunDoWhile(p, s, [Loop] + ks, Push(m), fuel))
    case For(init, _, _, _) =>
      var r := RunActions(p, init, [Loop] + ks, Push(m), fuel);
      if r.out.Ok? then Drop(RunFor(p, s, [Loop] + ks, r.m, fuel)) else Drop(r)
    case SwitchCase(subject, cases, _) =>
      var inner := [Switch] + ks;
      var r := RunExpr(p, subject, inner, Push(m), fuel);
      if r.out.Ok? then Drop(RunCases(p, cases, r.out.v, false, s, inner, r.m, fuel)) else Drop(r)
    case Break =>
      if ks[0] == Loop || ks[0] == Switch then F(Ok(Null), Raise(m, BREAK_FLAG))
      else F(Thrown(BreakOutside), m)
    case Continue =>
      if ks[0] == Loop then F(Ok(Null), Raise(m, CONTINUE_FLAG)) else F(Thrown(ContinueOutside), m)
    case Return(result) =>
      var r := if result.None? then F(Ok(Null), m) else RunExpr(p, result.value, ks, m, fuel);
      if !r.out.Ok? then r
      else if NearestFunction(ks) < |ks| then
        F(Ok(Null), r.m.(marks := RaiseReturn(ks, r.m.marks, r.out.v)))
      else F(Thrown(ReturnOutside), r.m)
    case Declaration(f) => Store(m, AddFunction(p, ks, m.st, f), Null)
  }

  /** Out of the scope of a loop or a switch: its context is released. */
  function Drop(r: Result): Result
    requires |r.m.st| > 0 && |r.m.marks| > 0
  {
    F(r.out, Pop(r.m))
  }

  function RunList(p: Prims, items: List<Stmt>, ks: seq<Kind>, m: Machine, fuel: nat): (r: Result)
    requires Fits(ks, m)
    ensures Fits(ks, r.m)
    decreases fuel, items, 0
  {
    match items
    case Nil => F(Ok(Null), m)
    case Cons(s, rest) =>
      var r := RunStmt(p, s, ks, m, fuel);
      if !r.out.Ok? then r
      else if Interrupted(r.m) then F(Ok(Null), r.m)
      else RunList(p, rest, ks, r.m, fuel)
  }

  /** A condition with its block; the value is the condition's. */
  function RunBranch(p: Prims, b: Branch, ks: seq<Kind>, m: Machine, fuel: nat): (r: Result)
    requires Fits(ks, m)
    ensures Fits(ks, r.m)
    decreases fuel, b, 0
  {
    if Interrupted(m) then F(Ok(m.marks[0].ret), m) else
    var r := RunExpr(p, b.cond, ks, m, fuel);
    if !r.out.Ok? || !p.truthy(r.out.v) then r else
    var x := RunStmt(p, b.body, ks, r.m, fuel);
    if x.out.Ok? then F(r.out, x.m) else x
  }

  function RunElifs(p: Prims, branches: List<Branch>, s: Stmt, ks: seq<Kind>, m: Machine, fuel: nat): (r: Result)
    requires Fits(ks, m) && s.If? && branches < s
    ensures Fits(ks, r.m)
    decreases fuel, s, 0, branches
  {
    match branches
    case Nil => RunStmt(p, s.otherwise, ks, m, fuel)
    case Cons(b, rest) =>
      var r := RunBranch(p, b, ks, m, fuel);
      if !r.out.Ok? || p.truthy(r.out.v) || Interrupted(r.m) then r
      else RunElifs(p, rest, s, ks, r.m, fuel)
  }

  function RunWhile(p: Prims, s: Stmt, ks: seq<Kind>, m: Machine, fuel: nat): (r: Result)
    requires Fits(ks, m) && s.While?
    ensures Fits(ks, r.m)
    decreases fuel, s, 0
  {
    if fuel == 0 then F(NoFuel, m) else
    var r := RunExpr(p, s.cond, ks, m, fuel);
    if !r.out.Ok? || !p.truthy(r.out.v) then r else
    var b := RunStmt(p, s.body, ks, r.m, fuel);
    if !b.out.Ok? then b else
    var c := CleanContinue(b.m);
    if Interrupted(c) then F(Ok(Null), c) else RunWhile(p, s, ks, c, fuel - 1)
  }

  function RunDoWhile(p: Prims, s: Stmt, ks: seq<Kind>, m: Machine, fuel: nat): (r: Result)
    requires Fits(ks, m) && s.DoWhile?
    ensures Fits(ks, r.m)
    decreases fuel, s, 0
  {
    if fuel == 0 then F(NoFuel, m) else
    var b := RunStmt(p, s.body, ks, m, fuel);
    if !b.out.Ok? then b else
    var c := CleanContinue(b.m);
    if Interrupted(c) then F(Ok(Null), c) else
    var r := RunExpr(p, s.cond, ks, c, fuel);
    if !r.out.Ok? || !p.truthy(r.out.v) then r else RunDoWhile(p, s, ks, r.m, fuel - 1)
  }

  function RunFor(p: Prims, s: Stmt, ks: seq<Kind>, m: Machine, fuel: nat): (r: Result)
    requires Fits(ks, m) && s.For?
    ensures Fits(ks, r.m)
    decreases fuel, s, 0
  {
    if fuel == 0 then F(NoFuel, m) else
    var r := if s.test.None? then F(Ok(Integer(1)), m) else RunExpr(p, s.test.value, ks, m, fuel);
    if !r.out.Ok? || !p.truthy(r.out.v) then r else
    var b := RunStmt(p, s.body, ks, r.m, fuel);
    if !b.out.Ok? then b else
    var c := CleanContinue(b.m);
    if Interrupted(c) then F(Ok(Null), c) else
    var a := RunActions(p, s.after, ks, c, fuel);
    if a.out.Ok? then RunFor(p, s, ks, a.m, fuel - 1) else a
  }

  function RunCases(p: Prims, cases: List<Case>, subject: Value, hit: bool, s: Stmt, ks: seq<Kind>, m: Machine,
                    fuel: nat): (r: Result)
    requires Fits(ks, m) && s.SwitchCase? && cases < s
    ensures Fits(ks, r.m)
    decreases fuel, s, 0, cases
  {
    match cases
    case Nil => if hit then F(Ok(Null), m) else RunStmt(p, s.otherwise, ks, m, fuel)
    case Cons(c, rest) =>
      var t := RunArgs(p, c.tests, ks, m, fuel);
      if !t.out.Ok? then F(t.out, t.m)
      else if !Hits(p, subject, t.values) then RunCases(p, rest, subject, hit, s, ks, t.m, fuel)
      else
        var r := RunStmt(p, c.body, ks, t.m, fuel);
        if !r.out.Ok? || Interrupted(r.m) then r
        else RunCases(p, rest, subject, true, s, ks, r.m, fuel)
  }
}
