/** The engine's interpreter, in its own imperative form, over context objects. Every method
    is proved to do to the objects what the flag machine says. An exception is returned as
    `Thrown`. */
module Executor {
  import opened Common
  import opened Language
  import opened Scopes
  import opened VmContext
  import FM = FlagMachine
  import Structured
  import Simulation

  function Raised(error: Option<Error>, v: Value): Out {
    match error
    case None => Ok(v)
    case Some(e) => Thrown(e)
  }

  function Append(xs: List<Value>, ys: List<Value>): List<Value> {
    match xs
    case Nil => ys
    case Cons(x, rest) => Cons(x, Append(rest, ys))
  }

  lemma {:induction false} AppendNil(xs: List<Value>)
    ensures Append(xs, Nil) == xs
  {
    if xs.Cons? {
      AppendNil(xs.tail);
    }
  }

  lemma {:induction false} AppendSnoc(xs: List<Value>, v: Value, ys: List<Value>)
    ensures Append(Append(xs, Cons(v, Nil)), ys) == Append(xs, Cons(v, ys))
  {
    if xs.Cons? {
      AppendSnoc(xs.tail, v, ys);
    }
  }

  class Executor {
    const p: Prims

    constructor (p: Prims)
      ensures this.p == p
    {
      this.p := p;
    }

    method ExecuteExpr(e: Expr, ctx: VMContext, fuel: nat) returns (out: Out)
      requires ctx.Valid()
      modifies ctx.chain
      ensures Rooted(ctx.Kinds()) && FM.F(out, ctx.Abs()) == FM.RunExpr(p, e, ctx.Kinds(), old(ctx.Abs()), fuel)
      decreases fuel, e, 3
    {
      ctx.Distinct();
      ctx.AbsAt(ctx.Abs());
      if ctx.IsExecutedInterupt() {
        return Ok(ctx.returnValue);
      }
      match e
      case Const(v) => out := Ok(v);
      case ReadVar(name) =>
        var v := ctx.GetVarValue(name);
        out := Ok(v);
      case Unary(op, a) =>
        out := ExecuteExpr(a, ctx, fuel);
        if out.Ok? {
          out := Lift(p.unary(op, out.v));
        }
      case Binary(op, a, b) =>
        out := ExecuteExpr(a, ctx, fuel);
        if out.Ok? {
          var first := out.v;
          out := ExecuteExpr(b, ctx, fuel);
          if out.Ok? {
            out := Lift(p.binary(op, first, out.v));
          }
        }
      case And(a, b) =>
        out := ExecuteExpr(a, ctx, fuel);
        if out.Ok? {
          if !p.truthy(out.v) {
            return Ok(ToBool(false));
          }
          out := ExecuteExpr(b, ctx, fuel);
          if out.Ok? {
            out := Ok(ToBool(p.truthy(out.v)));
          }
        }
      case Or(a, b) =>
        out := ExecuteExpr(a, ctx, fuel);
        if out.Ok? {
          if p.truthy(out.v) {
            return Ok(ToBool(true));
          }
          out := ExecuteExpr(b, ctx, fuel);
          if out.Ok? {
            out := Ok(ToBool(p.truthy(out.v)));
          }
        }
      case Add(_, _) => out := BatchAddOperation(e, ctx, fuel);
      case Update(name, op, operand) =>
        out := Ok(Null);
        if operand.Some? {
          out := ExecuteExpr(operand.value, ctx, fuel);
        }
        if out.Ok? {
          out := UpdateVar(name, op, out.v, ctx);
        }
      case Call(_, _) => out := CallFunction(e, ctx, fuel);
    }

    method BatchAddOperation(e: Expr, ctx: VMContext, fuel: nat) returns (out: Out)
      requires ctx.Valid() && e.Add?
      requires Rooted(ctx.Kinds())
      modifies ctx.chain
      ensures var ks, m := ctx.Kinds(), old(ctx.Abs());
        var r := FM.RunExpr(p, e.right, ks, m, fuel);
        FM.F(out, ctx.Abs()) == if r.out.Ok? then FM.RunSpine(p, e, Cons(r.out.v, Nil), ks, r.m, fuel) else r
      decreases fuel, e, 2
    {
      ghost var ks := ctx.Kinds();
      out := ExecuteExpr(e.right, ctx, fuel);
      if !out.Ok? {
        return;
      }
      var groups := Cons(out.v, Nil);
      ghost var start := ctx.Abs();
      var seek := e;
      while seek.left.Add?
        invariant seek.Add? && (seek == e || seek < e)
        invariant FM.RunSpine(p, e, Cons(out.v, Nil), ks, start, fuel)
          == FM.RunSpine(p, seek, groups, ks, ctx.Abs(), fuel)
        decreases seek
      {
        var next := ExecuteExpr(seek.left.right, ctx, fuel);
        if !next.Ok? {
          return next;
        }
        seek := seek.left;
        groups := Cons(next.v, groups);
      }
      ghost var first := out.v;
      out := ExecuteExpr(seek.left, ctx, fuel);
      if !out.Ok? {
        return;
      }
      ghost var left := out.v;
      var result, rest := out.v, groups;
      while rest.Cons?
        invariant FoldAdd(p, left, groups) == FoldAdd(p, result, rest)
        decreases rest
      {
        var sum := p.add(result, rest.head);
        if sum.None? {
          return Thrown(OperatorFailed);
        }
        result, rest := sum.value, rest.tail;
      }
      out := Ok(result);
    }

    method UpdateVar(name: string, op: int, v: Value, ctx: VMContext) returns (out: Out)
      requires ctx.Valid() && Rooted(ctx.Kinds())
      modifies ctx.chain
      ensures FM.F(out, ctx.Abs()) == FM.Assign(p, name, op, v, ctx.Kinds(), old(ctx.Abs()))
    {
      if op == WRITE {
        var error := ctx.SetVarValue(name, v, false);
        return Raised(error, v);
      }
      var oldVal := ctx.GetVarValue(name);
      var updated := p.update(op, oldVal, v);
      if updated.None? {
        return Thrown(OperatorFailed);
      }
      var error := ctx.SetVarValue(name, updated.value.0, false);
      out := Raised(error, updated.value.1);
    }

    method CallFunction(e: Expr, ctx: VMContext, fuel: nat) returns (out: Out)
      requires ctx.Valid() && Rooted(ctx.Kinds()) && e.Call? && !FM.Interrupted(ctx.Abs())
      modifies ctx.chain
      ensures FM.F(out, ctx.Abs()) == FM.RunExpr(p, e, ctx.Kinds(), old(ctx.Abs()), fuel)
      decreases fuel, e, 2
    {
      var func := ctx.GetFunction(e.name);
      if func.Some? {
        out := CallScriptFunction(e, func.value, ctx, fuel);
        return;
      }
      if !p.isMethod(e.name) {
        return Thrown(NotCallable(e.name));
      }
      var values;
      match e.args {
        case Positional(es) => out, values := InstructionToValue(es, ctx, fuel);
        case Named(named) => out, values := NamedToValue(named, ctx, fuel);
      }
      if !out.Ok? {
        return;
      }
      ctx.AbsAt(ctx.Abs());
      if ctx.IsExecutedInterupt() {
        return Ok(ctx.returnValue);
      }
      out := Lift(p.callMethod(e.name, values));
    }

    method InstructionToValue(es: List<Expr>, ctx: VMContext, fuel: nat) returns (out: Out, values: List<Value>)
      requires ctx.Valid() && Rooted(ctx.Kinds())
      modifies ctx.chain
      ensures FM.L(out, values, ctx.Abs()) == FM.RunArgs(p, es, ctx.Kinds(), old(ctx.Abs()), fuel)
      decreases fuel, es, 0
    {
      ghost var ks, m0 := ctx.Kinds(), ctx.Abs();
      values := Nil;
      var rest := es;
      while rest.Cons?
        invariant rest == es || rest < es
        invariant var r, s := FM.RunArgs(p, es, ks, m0, fuel), FM.RunArgs(p, rest, ks, ctx.Abs(), fuel);
          r == FM.L(s.out, Append(values, s.values), s.m)
        decreases rest
      {
        out := ExecuteExpr(rest.head, ctx, fuel);
        AppendNil(values);
        if !out.Ok? {
          return;
        }
        ctx.AbsAt(ctx.Abs());
        AppendSnoc(values, out.v, FM.RunArgs(p, rest.tail, ks, ctx.Abs(), fuel).values);
        values := Append(values, Cons(out.v, Nil));
        if ctx.IsExecutedInterupt() {
          out := Ok(Null);
          return;
        }
        rest := rest.tail;
      }
      AppendNil(values);
      out := Ok(Null);
    }

    method NamedToValue(named: List<NamedArg>, ctx: VMContext, fuel: nat) returns (out: Out, values: List<Value>)
      requires ctx.Valid() && Rooted(ctx.Kinds())
      modifies ctx.chain
      ensures FM.L(out, values, ctx.Abs()) == FM.RunNamedArgs(p, named, ctx.Kinds(), old(ctx.Abs()), fuel)
      decreases fuel, named, 0
    {
      ghost var ks, m0 := ctx.Kinds(), ctx.Abs();
      values := Nil;
      var rest := named;
      while rest.Cons?
        invariant rest == named || rest < named
        invariant var r, s := FM.RunNamedArgs(p, named, ks, m0, fuel), FM.RunNamedArgs(p, rest, ks, ctx.Abs(), fuel);
          r == FM.L(s.out, Append(values, s.values), s.m)
        decreases rest
      {
        out := NewVar(rest.head.name, rest.head.e, ctx, fuel);
        AppendNil(values);
        if !out.Ok? {
          return;
        }
        ctx.AbsAt(ctx.Abs());
        AppendSnoc(values, out.v, FM.RunNamedArgs(p, rest.tail, ks, ctx.Abs(), fuel).values);
        values := Append(values, Cons(out.v, Nil));
        if ctx.IsExecutedInterupt() {
          out := Ok(Null);
          return;
        }
        rest := rest.tail;
      }
      AppendNil(values);
      out := Ok(Null);
    }

    /** A declaration with an initial value. */
    method NewVar(name: string, e: Expr, ctx: VMContext, fuel: nat) returns (out: Out)
      requires ctx.Valid() && Rooted(ctx.Kinds())
      modifies ctx.chain
      ensures FM.F(out, ctx.Abs()) == FM.RunInit(p, name, e, ctx.Kinds(), old(ctx.Abs()), fuel)
      decreases fuel, e, 4
    {
      ctx.AbsAt(ctx.Abs());
      if ctx.IsExecutedInterupt() {
        return Ok(ctx.returnValue);
      }
      var error := ctx.AddVar(name);
      if error.Some? {
        return Thrown(error.value);
      }
      out := ExecuteExpr(e, ctx, fuel);
      if out.Ok? {
        error := ctx.SetVarValue(name, out.v, false);
        out := Raised(error, out.v);
      }
    }

    method Declare(d: Decl, ctx: VMContext, fuel: nat) returns (out: Out)
      requires ctx.Valid() && Rooted(ctx.Kinds())
      modifies ctx.chain
      ensures FM.F(out, ctx.Abs()) == FM.RunDecl(p, d, ctx.Kinds(), old(ctx.Abs()), fuel)
      decreases fuel, d, 0
    {
      if d.init.Some? {
        out := NewVar(d.name, d.init.value, ctx, fuel);
        return;
      }
      ctx.AbsAt(ctx.Abs());
      if ctx.IsExecutedInterupt() {
        return Ok(ctx.returnValue);
      }
      var error := ctx.AddVar(d.name);
      out := Raised(error, Null);
    }

    method CallScriptFunction(e: Expr, func: Func, ctx: VMContext, fuel: nat) returns (out: Out)
      requires ctx.Valid() && Rooted(ctx.Kinds()) && e.Call?
      modifies ctx.chain
      ensures FM.F(out, ctx.Abs()) == FM.RunCall(p, e, func, ctx.Kinds(), old(ctx.Abs()), fuel)
      decreases fuel, e, 1
    {
      if fuel == 0 {
        return NoFuel;
      }
      var newCtx := new VMContext(Function, ctx);
      newCtx.Distinct();
      out := ExecuteFormals(FM.Params(func.formals), newCtx, fuel - 1);
      newCtx.ParentFacts();
      if !out.Ok? {
        return;
      }
      out := CallEntered(e, func, newCtx, ctx, fuel);
    }

    /** The call from the point where the formals exist in the new context. */
    method CallEntered(e: Expr, func: Func, newCtx: VMContext, ctx: VMContext, fuel: nat) returns (out: Out)
      requires newCtx.Valid() && newCtx.parent == ctx && newCtx.kind == Function
      requires ctx.Valid() && Rooted(ctx.Kinds()) && newCtx.Kinds() == [Function] + ctx.Kinds() && e.Call? && fuel > 0
      modifies newCtx.chain
      ensures var b := FM.Fill(p, e, func.formals, ctx.Kinds(), old(newCtx.Abs()), fuel);
        FM.F(out, ctx.Abs()) ==
        if !b.out.Ok? then FM.F(b.out, FM.Pop(b.m)) else
        var x := FM.RunStmt(p, func.body, newCtx.Kinds(), b.m, fuel - 1);
        FM.F(if x.out.Ok? then Ok(x.m.marks[0].ret) else x.out, FM.Pop(x.m))
      decreases fuel, e, 0, 1
    {
      out := FillActualParameters(e, func.formals, newCtx, ctx, fuel);
      newCtx.ParentFacts();
      if !out.Ok? {
        return;
      }
      out := ExecuteBody(func.body, newCtx, fuel - 1);
      newCtx.ParentFacts();
    }

    /** The body in the function's own context, and the value it returned. */
    method ExecuteBody(body: Stmt, newCtx: VMContext, fuel: nat) returns (out: Out)
      requires newCtx.Valid() && Rooted(newCtx.Kinds())
      modifies newCtx.chain
      ensures var r := FM.RunStmt(p, body, newCtx.Kinds(), old(newCtx.Abs()), fuel);
        newCtx.Abs() == r.m && out == if r.out.Ok? then Ok(r.m.marks[0].ret) else r.out
      decreases fuel, body, 4
    {
      out := ExecuteStmt(body, newCtx, fuel);
      newCtx.AbsAt(newCtx.Abs());
      if out.Ok? {
        out := Ok(newCtx.returnValue);
      }
    }

    method ExecuteFormals(params: List<Decl>, ctx: VMContext, fuel: nat) returns (out: Out)
      requires ctx.Valid() && Rooted(ctx.Kinds())
      modifies ctx.chain
      ensures FM.F(out, ctx.Abs()) == FM.RunFormals(p, params, ctx.Kinds(), old(ctx.Abs()), fuel)
      decreases fuel, params, 0
    {
      ghost var ks, m0 := ctx.Kinds(), ctx.Abs();
      var rest := params;
      while rest.Cons?
        invariant rest == params || rest < params
        invariant FM.RunFormals(p, params, ks, m0, fuel) == FM.RunFormals(p, rest, ks, ctx.Abs(), fuel)
        decreases rest
      {
        out := Declare(rest.head, ctx, fuel);
        if !out.Ok? {
          return;
        }
        rest := rest.tail;
      }
      out := Ok(Null);
    }

    method FillActualParameters(e: Expr, formals: Formals, newCtx: VMContext, ctx: VMContext, fuel: nat)
      returns (out: Out)
      requires newCtx.Valid() && newCtx.parent == ctx && newCtx.kind == Function
      requires ctx.Valid() && Rooted(ctx.Kinds()) && newCtx.Kinds() == [Function] + ctx.Kinds() && e.Call?
      modifies newCtx.chain
      ensures FM.F(out, newCtx.Abs()) == FM.Fill(p, e, formals, ctx.Kinds(), old(newCtx.Abs()), fuel)
      decreases fuel, e, 0, 0
    {
      ghost var ks, m0 := ctx.Kinds(), newCtx.Abs();
      newCtx.ParentFacts();
      match e.args
      case Named(named) =>
        var rest := named;
        while rest.Cons?
          invariant rest == named || rest < named
          invariant FM.FillNamed(p, named, ks, m0, fuel) == FM.FillNamed(p, rest, ks, newCtx.Abs(), fuel)
          decreases rest
        {
          ghost var m := newCtx.Abs();
          newCtx.ParentFacts();
          newCtx.OwnPart();
          out := ExecuteExpr(rest.head.e, ctx, fuel);
          newCtx.OwnPart();
          assert newCtx.Abs() == FM.Under(m, ctx.Abs());
          if !out.Ok? {
            return;
          }
          var error := newCtx.SetVarValue(rest.head.name, out.v, true);
          if error.Some? {
            return Thrown(error.value);
          }
          rest := rest.tail;
        }
        out := Ok(Null);
      case Positional(es) =>
        newCtx.OwnPart();
        var values;
        out, values := InstructionToValue(es, ctx, fuel);
        newCtx.OwnPart();
        assert newCtx.Abs() == FM.Under(m0, ctx.Abs());
        if !out.Ok? {
          return;
        }
        var error := newCtx.SetVarValue(ANON_ARGS, Array(values), true);
        out := BindPositional(formals, values, newCtx);
    }

    method BindPositional(formals: Formals, values: List<Value>, ctx: VMContext) returns (out: Out)
      requires ctx.Valid() && Rooted(ctx.Kinds())
      modifies ctx.chain
      ensures FM.F(out, ctx.Abs()) == FM.FillPositional(formals, values, ctx.Kinds(), old(ctx.Abs()))
    {
      if formals.NoFormals? {
        return Ok(Null);
      }
      if formals.variadic {
        if formals.params.Nil? {
          return Ok(Null);
        }
        var error := ctx.SetVarValue(formals.params.head.name, Array(values), false);
        return Raised(error, Null);
      }
      ghost var ks, m0 := ctx.Kinds(), ctx.Abs();
      var params, rest := formals.params, values;
      while params.Cons? && rest.Cons?
        invariant FM.FillEach(formals.params, values, ks, m0) == FM.FillEach(params, rest, ks, ctx.Abs())
        decreases params
      {
        var error := ctx.SetVarValue(params.head.name, rest.head, true);
        if error.Some? {
          return Thrown(error.value);
        }
        params, rest := params.tail, rest.tail;
      }
      out := Ok(Null);
    }

    // ----- statements -----

    method ExecuteActions(actions: List<Action>, ctx: VMContext, fuel: nat) returns (out: Out)
      requires ctx.Valid() && Rooted(ctx.Kinds())
      modifies ctx.chain
      ensures FM.F(out, ctx.Abs()) == FM.RunActions(p, actions, ctx.Kinds(), old(ctx.Abs()), fuel)
      decreases fuel, actions, 0
    {
      ghost var ks, m0 := ctx.Kinds(), ctx.Abs();
      var rest := actions;
      while rest.Cons?
        invariant rest == actions || rest < actions
        invariant FM.RunActions(p, actions, ks, m0, fuel) == FM.RunActions(p, rest, ks, ctx.Abs(), fuel)
        decreases rest
      {
        match rest.head {
          case Evaluate(e) => out := ExecuteExpr(e, ctx, fuel);
          case Declare(d) => out := this.Declare(d, ctx, fuel);
        }
        if !out.Ok? {
          return;
        }
        ctx.AbsAt(ctx.Abs());
        if ctx.IsExecutedInterupt() {
          return Ok(Null);
        }
        rest := rest.tail;
      }
      out := Ok(Null);
    }

    /** The statement cases of Execute. */
    method ExecuteStmt(s: Stmt, ctx: VMContext, fuel: nat) returns (out: Out)
      requires ctx.Valid() && Rooted(ctx.Kinds())
      modifies ctx.chain
      ensures FM.F(out, ctx.Abs()) == FM.RunStmt(p, s, ctx.Kinds(), old(ctx.Abs()), fuel)
      decreases fuel, s, 3
    {
      ctx.AbsAt(ctx.Abs());
      if ctx.IsExecutedInterupt() {
        return Ok(Null);
      }
      match s
      case Nop => out := Ok(Null);
      case Simple(actions) => out := ExecuteActions(actions, ctx, fuel);
      case Group(items) => out := ExecuteList(items, ctx, fuel);
      case Conditional(branch) => out := ExecuteCondition(branch, ctx, fuel);
      case If(_, _, _) => out := ExecuteIfStatement(s, ctx, fuel);
      case While(_, _) => out := ExecuteLoop(s, ctx, fuel);
      case DoWhile(_, _) => out := ExecuteLoop(s, ctx, fuel);
      case For(_, _, _, _) => out := ExecuteLoop(s, ctx, fuel);
      case SwitchCase(_, _, _) => out := ExecuteSwitch(s, ctx, fuel);
      case Break => out := ExecuteJump(s, ctx, fuel);
      case Continue => out := ExecuteJump(s, ctx, fuel);
      case Return(_) => out := ExecuteJump(s, ctx, fuel);
      case Declaration(f) =>
        var error := ctx.AddFunction(p, f);
        out := Raised(error, Null);
    }

    method ExecuteJump(s: Stmt, ctx: VMContext, fuel: nat) returns (out: Out)
      requires ctx.Valid() && Rooted(ctx.Kinds()) && !FM.Interrupted(ctx.Abs())
      requires s.Break? || s.Continue? || s.Return?
      modifies ctx.chain
      ensures FM.F(out, ctx.Abs()) == FM.RunStmt(p, s, ctx.Kinds(), old(ctx.Abs()), fuel)
      decreases fuel, s, 1
    {
      if s.Break? {
        var error := ctx.BreakExecuted();
        return Raised(error, Null);
      }
      if s.Continue? {
        var error := ctx.ContinueExecuted();
        return Raised(error, Null);
      }
      out := Ok(Null);
      if s.result.Some? {
        out := ExecuteExpr(s.result.value, ctx, fuel);
      }
      if out.Ok? {
        var error := ctx.ReturnExecuted(out.v);
        out := Raised(error, Null);
      }
    }

    method ExecuteSwitch(s: Stmt, ctx: VMContext, fuel: nat) returns (out: Out)
      requires ctx.Valid() && Rooted(ctx.Kinds()) && s.SwitchCase? && !FM.Interrupted(ctx.Abs())
      modifies ctx.chain
      ensures FM.F(out, ctx.Abs()) == FM.RunStmt(p, s, ctx.Kinds(), old(ctx.Abs()), fuel)
      decreases fuel, s, 1
    {
      var newCtx := new VMContext(Switch, ctx);
      newCtx.Distinct();
      out := ExecuteSwitchStatement(s, newCtx, fuel);
      newCtx.ParentFacts();
    }

    method ExecuteLoop(s: Stmt, ctx: VMContext, fuel: nat) returns (out: Out)
      requires ctx.Valid() && Rooted(ctx.Kinds()) && !FM.Interrupted(ctx.Abs())
      requires s.While? || s.DoWhile? || s.For?
      modifies ctx.chain
      ensures FM.F(out, ctx.Abs()) == FM.RunStmt(p, s, ctx.Kinds(), old(ctx.Abs()), fuel)
      decreases fuel, s, 2
    {
      var newCtx := new VMContext(Loop, ctx);
      newCtx.Distinct();
      match s {
        case While(_, _) => out := ExecuteWhileStatement(s, newCtx, fuel);
        case DoWhile(_, _) => out := ExecuteDoWhileStatement(s, newCtx, fuel);
        case For(_, _, _, _) => out := ExecuteForStatement(s, newCtx, fuel);
      }
      newCtx.ParentFacts();
    }

    method ExecuteList(items: List<Stmt>, ctx: VMContext, fuel: nat) returns (out: Out)
      requires ctx.Valid() && Rooted(ctx.Kinds())
      modifies ctx.chain
      ensures FM.F(out, ctx.Abs()) == FM.RunList(p, items, ctx.Kinds(), old(ctx.Abs()), fuel)
      decreases fuel, items, 0
    {
      ghost var ks, m0 := ctx.Kinds(), ctx.Abs();
      var rest := items;
      while rest.Cons?
        invariant rest == items || rest < items
        invariant FM.RunList(p, items, ks, m0, fuel) == FM.RunList(p, rest, ks, ctx.Abs(), fuel)
        decreases rest
      {
        out := ExecuteStmt(rest.head, ctx, fuel);
        if !out.Ok? {
          return;
        }
        ctx.AbsAt(ctx.Abs());
        if ctx.IsExecutedInterupt() {
          return Ok(Null);
        }
        rest := rest.tail;
      }
      out := Ok(Null);
    }

    method ExecuteCondition(b: Branch, ctx: VMContext, fuel: nat) returns (out: Out)
      requires ctx.Valid() && Rooted(ctx.Kinds())
      modifies ctx.chain
      ensures FM.F(out, ctx.Abs()) == FM.RunBranch(p, b, ctx.Kinds(), old(ctx.Abs()), fuel)
      decreases fuel, b, 0
    {
      ctx.AbsAt(ctx.Abs());
      if ctx.IsExecutedInterupt() {
        return Ok(ctx.returnValue);
      }
      out := ExecuteExpr(b.cond, ctx, fuel);
      if out.Ok? && p.truthy(out.v) {
        var done := ExecuteStmt(b.body, ctx, fuel);
        if !done.Ok? {
          return done;
        }
      }
    }

    method ExecuteIfStatement(s: Stmt, ctx: VMContext, fuel: nat) returns (out: Out)
      requires ctx.Valid() && Rooted(ctx.Kinds()) && s.If? && !FM.Interrupted(ctx.Abs())
      modifies ctx.chain
      ensures FM.F(out, ctx.Abs()) == FM.RunStmt(p, s, ctx.Kinds(), old(ctx.Abs()), fuel)
      decreases fuel, s, 0
    {
      out := ExecuteCondition(s.first, ctx, fuel);
      if !out.Ok? || p.truthy(out.v) {
        return;
      }
      ctx.AbsAt(ctx.Abs());
      if ctx.IsExecutedInterupt() {
        return;
      }
      ghost var ks, m1 := ctx.Kinds(), ctx.Abs();
      var branches := s.elifs;
      while branches.Cons?
        invariant branches < s
        invariant FM.RunElifs(p, s.elifs, s, ks, m1, fuel) == FM.RunElifs(p, branches, s, ks, ctx.Abs(), fuel)
        decreases branches
      {
        out := ExecuteCondition(branches.head, ctx, fuel);
        if !out.Ok? || p.truthy(out.v) {
          return;
        }
        ctx.AbsAt(ctx.Abs());
        if ctx.IsExecutedInterupt() {
          return;
        }
        branches := branches.tail;
      }
      out := ExecuteStmt(s.otherwise, ctx, fuel);
    }

    method ExecuteWhileStatement(s: Stmt, ctx: VMContext, fuel: nat) returns (out: Out)
      requires ctx.Valid() && Rooted(ctx.Kinds()) && s.While?
      modifies ctx.chain
      ensures FM.F(out, ctx.Abs()) == FM.RunWhile(p, s, ctx.Kinds(), old(ctx.Abs()), fuel)
      decreases fuel, s, 0
    {
      ghost var ks, m0 := ctx.Kinds(), ctx.Abs();
      var n: nat := fuel;
      while n > 0
        invariant n <= fuel
        invariant FM.RunWhile(p, s, ks, m0, fuel) == FM.RunWhile(p, s, ks, ctx.Abs(), n)
        decreases n
      {
        out := ExecuteExpr(s.cond, ctx, n);
        if !out.Ok? || !p.truthy(out.v) {
          return;
        }
        out := ExecuteStmt(s.body, ctx, n);
        if !out.Ok? {
          return;
        }
        ctx.CleanContinueFlag();
        ctx.AbsAt(ctx.Abs());
        if ctx.IsExecutedInterupt() {
          return Ok(Null);
        }
        n := n - 1;
      }
      out := NoFuel;
    }

    method ExecuteDoWhileStatement(s: Stmt, ctx: VMContext, fuel: nat) returns (out: Out)
      requires ctx.Valid() && Rooted(ctx.Kinds()) && s.DoWhile?
      modifies ctx.chain
      ensures FM.F(out, ctx.Abs()) == FM.RunDoWhile(p, s, ctx.Kinds(), old(ctx.Abs()), fuel)
      decreases fuel, s, 0
    {
      ghost var ks, m0 := ctx.Kinds(), ctx.Abs();
      var n: nat := fuel;
      while n > 0
        invariant n <= fuel
        invariant FM.RunDoWhile(p, s, ks, m0, fuel) == FM.RunDoWhile(p, s, ks, ctx.Abs(), n)
        decreases n
      {
        out := ExecuteStmt(s.body, ctx, n);
        if !out.Ok? {
          return;
        }
        ctx.CleanContinueFlag();
        ctx.AbsAt(ctx.Abs());
        if ctx.IsExecutedInterupt() {
          return Ok(Null);
        }
        out := ExecuteExpr(s.cond, ctx, n);
        if !out.Ok? || !p.truthy(out.v) {
          return;
        }
        n := n - 1;
      }
      out := NoFuel;
    }

    method ExecuteForStatement(s: Stmt, ctx: VMContext, fuel: nat) returns (out: Out)
      requires ctx.Valid() && Rooted(ctx.Kinds()) && s.For?
      modifies ctx.chain
      ensures var i := FM.RunActions(p, s.init, ctx.Kinds(), old(ctx.Abs()), fuel);
        FM.F(out, ctx.Abs()) == if i.out.Ok? then FM.RunFor(p, s, ctx.Kinds(), i.m, fuel) else i
      decreases fuel, s, 1
    {
      out := ExecuteActions(s.init, ctx, fuel);
      if !out.Ok? {
        return;
      }
      ghost var ks, m1 := ctx.Kinds(), ctx.Abs();
      var n: nat, again := fuel, true;
      while n > 0
        invariant n <= fuel
        invariant FM.RunFor(p, s, ks, m1, fuel) == FM.RunFor(p, s, ks, ctx.Abs(), n)
        decreases n
      {
        out, again := ForTurn(s, ctx, n);
        if !again {
          return;
        }
        n := n - 1;
      }
      out := NoFuel;
    }

    /** One turn of a for loop; `again` when it goes on. */
    method ForTurn(s: Stmt, ctx: VMContext, n: nat) returns (out: Out, again: bool)
      requires ctx.Valid() && Rooted(ctx.Kinds()) && s.For? && n > 0
      modifies ctx.chain
      ensures FM.RunFor(p, s, ctx.Kinds(), old(ctx.Abs()), n)
           == if again then FM.RunFor(p, s, ctx.Kinds(), ctx.Abs(), n - 1) else FM.F(out, ctx.Abs())
      decreases n, s, 0
    {
      again := false;
      out := Ok(Integer(1));
      if s.test.Some? {
        out := ExecuteExpr(s.test.value, ctx, n);
      }
      if !out.Ok? || !p.truthy(out.v) {
        return;
      }
      out := ExecuteStmt(s.body, ctx, n);
      if !out.Ok? {
        return;
      }
      ctx.CleanContinueFlag();
      ctx.AbsAt(ctx.Abs());
      if ctx.IsExecutedInterupt() {
        out := Ok(Null);
        return;
      }
      out := ExecuteActions(s.after, ctx, n);
      again := out.Ok?;
    }

    method ExecuteSwitchStatement(s: Stmt, ctx: VMContext, fuel: nat) returns (out: Out)
      requires ctx.Valid() && Rooted(ctx.Kinds()) && s.SwitchCase?
      modifies ctx.chain
      ensures var r := FM.RunExpr(p, s.subject, ctx.Kinds(), old(ctx.Abs()), fuel);
        FM.F(out, ctx.Abs()) ==
          if r.out.Ok? then FM.RunCases(p, s.cases, r.out.v, false, s, ctx.Kinds(), r.m, fuel) else r
      decreases fuel, s, 0
    {
      out := ExecuteExpr(s.subject, ctx, fuel);
      if !out.Ok? {
        return;
      }
      var val, casehit, cases := out.v, false, s.cases;
      ghost var ks, m1 := ctx.Kinds(), ctx.Abs();
      while cases.Cons?
        invariant cases < s
        invariant FM.RunCases(p, s.cases, val, false, s, ks, m1, fuel)
          == FM.RunCases(p, cases, val, casehit, s, ks, ctx.Abs(), fuel)
        decreases cases
      {
        var values;
        out, values := InstructionToValue(cases.head.tests, ctx, fuel);
        if !out.Ok? {
          return;
        }
        var rest, found := values, false;
        while rest.Cons? && !found
          invariant Hits(p, val, values) == (found || Hits(p, val, rest))
          decreases rest, !found
        {
          found := p.same(val, rest.head);
          rest := rest.tail;
        }
        if found {
          casehit := true;
          out := ExecuteStmt(cases.head.body, ctx, fuel);
          if !out.Ok? {
            return;
          }
          ctx.AbsAt(ctx.Abs());
          if ctx.IsExecutedInterupt() {
            return;
          }
        }
        cases := cases.tail;
      }
      if casehit {
        return Ok(Null);
      }
      out := ExecuteStmt(s.otherwise, ctx, fuel);
    }

    /** Execute(name): a script's entry point in a new file context. The heap ends in the
        state that the structured semantics prescribes, and an exception reaches the caller
        exactly when that semantics fails. */
    method ExecuteScript(entry: Stmt, fuel: nat) returns (out: Out, context: VMContext)
      ensures context.Valid() && context.Kinds() == [File]
      ensures var x := Structured.Exec(p, entry, [File], [Fresh()], fuel);
        && context.State() == x.st
        && (x.c.Failed? <==> out.Thrown?) && (x.c.Failed? ==> out == Thrown(x.c.error))
        && (x.c.Exhausted? <==> out == NoFuel)
        && (x.c.Normal? <==> out.Ok?)
    {
      context := new VMContext(File, null);
      assert context.Kinds() == [File];
      assert context.State() == [Fresh()];
      assert context.Abs() == Simulation.Clean([Fresh()]);
      out := ExecuteStmt(entry, context, fuel);
      Simulation.StmtAgrees(p, entry, [File], [Fresh()], fuel);
    }
  }
}
