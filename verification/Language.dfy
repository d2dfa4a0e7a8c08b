/** The script language of the engine: values, instructions and the primitive
    operations an executor is parameterised by. */
module Language {
  import opened Common

  datatype List<+T> = Nil | Cons(head: T, tail: List<T>)

  /** Strings and bytes, floats and other atoms are all `Atom`; no theorem looks inside them. */
  datatype Value = Null | Integer(i: int) | Atom(text: string) | Array(items: List<Value>)

  /** The errors a RuntimeException stands for. */
  datatype Error =
    | BreakOutside
    | ContinueOutside
    | ReturnOutside
    | BuiltinName(name: string)
    | NotTopBlock(name: string)
    | NotOverwritable(name: string)
    | AlreadyDeclared(name: string)
    | NotCallable(name: string)
    | OperatorFailed

  /** What an evaluation hands back: a value, an exception, or no answer within the fuel. */
  datatype Out = Ok(v: Value) | Thrown(error: Error) | NoFuel

  /** rvalue productions of the grammar. `Update` covers `=`, the compound assignments and ++/--. */
  datatype Expr =
    | Const(v: Value)
    | ReadVar(name: string)
    | Unary(op: int, arg: Expr)
    | Binary(op: int, left: Expr, right: Expr)
    | And(left: Expr, right: Expr)
    | Or(left: Expr, right: Expr)
    | Add(left: Expr, right: Expr)
    | Update(name: string, op: int, operand: Option<Expr>)
    | Call(name: string, args: Args)

  datatype Args = Positional(values: List<Expr>) | Named(named: List<NamedArg>)

  datatype NamedArg = NamedArg(name: string, e: Expr)

  /** One element of a declaration list or of an expression list. */
  datatype Action = Evaluate(e: Expr) | Declare(decl: Decl)

  datatype Decl = Decl(name: string, init: Option<Expr>)

  datatype Branch = Branch(cond: Expr, body: Stmt)

  datatype Case = Case(tests: List<Expr>, body: Stmt)

  /** statement_in_block, function declarations included. */
  datatype Stmt =
    | Nop
    | Simple(actions: List<Action>)
    | Group(items: List<Stmt>)
    | Conditional(branch: Branch)
    | If(first: Branch, elifs: List<Branch>, otherwise: Stmt)
    | While(cond: Expr, body: Stmt)
    | DoWhile(body: Stmt, cond: Expr)
    | For(init: List<Action>, test: Option<Expr>, after: List<Action>, body: Stmt)
    | SwitchCase(subject: Expr, cases: List<Case>, otherwise: Stmt)
    | Break
    | Continue
    | Return(result: Option<Expr>)
    | Declaration(func: Func)

  /** `variadic` is a formal list of kind kDeclMore. */
  datatype Formals = NoFormals | Formals(variadic: bool, params: List<Decl>)

  datatype Func = Func(name: string, formals: Formals, body: Stmt)

  const WRITE: int := 0

  const ANON_ARGS: string := "_FCT_ANON_ARGS"

  /** The operations of Value and the builtin methods, left uninterpreted: every theorem
      holds for all of them. A None is an exception. `update` yields the value to
      store and the value of the whole expression. */
  datatype Prims = Prims(
    unary: (int, Value) -> Option<Value>,
    binary: (int, Value, Value) -> Option<Value>,
    add: (Value, Value) -> Option<Value>,
    update: (int, Value, Value) -> Option<(Value, Value)>,
    truthy: Value -> bool,
    same: (Value, Value) -> bool,
    isMethod: string -> bool,
    callMethod: (string, List<Value>) -> Option<Value>,
    overwritable: string -> bool)

  function Lift(r: Option<Value>): Out {
    match r
    case Some(v) => Ok(v)
    case None => Thrown(OperatorFailed)
  }

  function ToBool(b: bool): Value {
    Integer(if b then 1 else 0)
  }

  /** left-to-right sum of an accumulated value and the pending operands. */
  function FoldAdd(p: Prims, acc: Value, pending: List<Value>): Out
    decreases pending
  {
    match pending
    case Nil => Ok(acc)
    case Cons(v, rest) =>
      match p.add(acc, v)
      case None => Thrown(OperatorFailed)
      case Some(sum) => FoldAdd(p, sum, rest)
  }

  /** Whether a switch subject equals one of the values of a case. */
  predicate Hits(p: Prims, subject: Value, values: List<Value>) {
    match values
    case Nil => false
    case Cons(c, rest) => p.same(subject, c) || Hits(p, subject, rest)
  }
}
