/** Execution contexts as the engine keeps them: objects linked to their parents, updated
    in place. `Abs` reads a whole chain as a state of the flag machine. */
module VmContext {
  import opened Common
  import opened Language
  import opened Scopes
  import FM = FlagMachine

  class VMContext {
    const parent: VMContext?
    const kind: Kind
    /** This context and its ancestors, innermost first. */
    ghost const chain: seq<VMContext>
    var flags: bv32
    var returnValue: Value
    var vars: map<string, Value>
    var functions: map<string, Func>

    ghost predicate Valid()
      decreases |chain|
    {
      && |chain| > 0 && chain[0] == this
      && (parent == null ==> chain == [this] && kind == File)
      && (parent != null ==> parent.chain == chain[1..] && parent.Valid())
    }

    ghost function Kinds(): (ks: seq<Kind>)
      ensures |ks| == |chain|
    {
      seq(|chain|, i requires 0 <= i < |chain| => chain[i].kind)
    }

    ghost function State(): (st: State)
      reads chain
      ensures |st| == |chain|
    {
      seq(|chain|, i requires 0 <= i < |chain| reads chain => Locals(chain[i].vars, chain[i].functions))
    }

    ghost function Abs(): (m: FM.Machine)
      reads chain
      ensures |m.st| == |m.marks| == |chain|
    {
      FM.M(State(),
           seq(|chain|, i requires 0 <= i < |chain| reads chain => FM.Mark(chain[i].flags, chain[i].returnValue)))
    }

    /** Every ancestor is a context in its own right, and they are all different. */
    lemma ChainFacts()
      requires Valid()
      ensures forall i :: 0 <= i < |chain| ==> chain[i].chain == chain[i..] && chain[i].Valid()
      ensures forall i, j :: 0 <= i < j < |chain| ==> chain[i] != chain[j]
      ensures Rooted(Kinds())
      decreases |chain|
    {
      if parent != null {
        parent.ChainFacts();
        forall i | 0 <= i < |chain|
          ensures chain[i].chain == chain[i..] && chain[i].Valid()
        {
          if i > 0 {
            assert chain[i] == parent.chain[i - 1];
            assert parent.chain[i - 1..] == chain[i..];
          }
        }
        assert Kinds()[|chain| - 1] == parent.Kinds()[|chain| - 2];
      }
      forall i, j | 0 <= i < j < |chain| ensures chain[i] != chain[j] {
        assert |chain[i].chain| > |chain[j].chain|;
      }
    }

    /** What the methods below need of it. */
    lemma Distinct()
      requires Valid()
      ensures forall i, j :: 0 <= i < j < |chain| ==> chain[i] != chain[j]
      ensures Rooted(Kinds())
    {
      ChainFacts();
    }

    /** One step outwards along the chain. */
    lemma Step(i: nat)
      requires Valid() && i < |chain|
      ensures chain[i].parent == (if i + 1 < |chain| then chain[i + 1] else null)
      ensures chain[i].kind == Kinds()[i]
    {
      ChainFacts();
      var c := chain[i];
      assert c.chain == chain[i..] && c.Valid();
      if c.parent != null {
        assert c.parent.Valid();
        assert c.parent.chain[0] == c.parent;
        assert c.chain[1] == chain[i + 1];
      }
    }

    lemma ParentFacts()
      requires Valid() && parent != null
      ensures parent.Abs() == FM.Pop(Abs())
      ensures Kinds() == [kind] + parent.Kinds()
      ensures this !in parent.chain
    {
      ChainFacts();
      assert forall i :: 0 <= i < |parent.chain| ==> parent.chain[i] == chain[i + 1];
      assert parent.State() == State()[1..];
      assert parent.Abs().marks == Abs().marks[1..];
    }

    /** The machine of a nested context: its own fields on top of its parent's machine. */
    lemma OwnPart()
      requires Valid() && parent != null
      ensures Abs() == FM.M([Locals(vars, functions)] + parent.State(),
                            [FM.Mark(flags, returnValue)] + parent.Abs().marks)
    {
      ParentFacts();
      assert State() == [State()[0]] + State()[1..];
      assert Abs().marks == [Abs().marks[0]] + Abs().marks[1..];
    }

    constructor (kind: Kind, parent: VMContext?)
      requires parent != null ==> parent.Valid()
      requires parent == null ==> kind == File
      ensures Valid() && this.kind == kind && this.parent == parent
      ensures chain == [this] + (if parent == null then [] else parent.chain)
      ensures flags == 0 && returnValue == Null && functions == map[]
      ensures vars == Fresh().vars
      ensures parent != null ==>
        && Kinds() == [kind] + parent.Kinds()
        && Abs() == FM.Push(parent.Abs())
    {
      this.parent, this.kind := parent, kind;
      flags, returnValue := 0, Null;
      functions := map[];
      // LoadBuiltinVar
      vars := map["false" := Integer(0), "true" := Integer(1), "nil" := Null];
      chain := [this] + (if parent == null then [] else parent.chain);
      new;
      if parent != null {
        assert chain[1..] == parent.chain;
        ParentFacts();
        assert State()[0] == Fresh();
        assert Abs().st == FM.Push(parent.Abs()).st;
        assert Abs().marks == FM.Push(parent.Abs()).marks;
      }
    }

    /** Writing control fields of one context is a point update of the marks. */
    lemma FlagUpdate(before: FM.Machine, k: nat)
      requires Valid() && k < |chain|
      requires |before.st| == |before.marks| == |chain|
      requires forall j :: 0 <= j < |chain| ==>
        && Locals(chain[j].vars, chain[j].functions) == before.st[j]
        && (j != k ==> FM.Mark(chain[j].flags, chain[j].returnValue) == before.marks[j])
      ensures Abs() == FM.M(before.st, before.marks[k := FM.Mark(chain[k].flags, chain[k].returnValue)])
    {
      assert Abs().st == before.st;
    }

    /** Writing bindings of one context is a point update of the state. */
    lemma BindingUpdate(before: FM.Machine, k: nat)
      requires Valid() && k < |chain|
      requires |before.st| == |before.marks| == |chain|
      requires forall j :: 0 <= j < |chain| ==>
        && FM.Mark(chain[j].flags, chain[j].returnValue) == before.marks[j]
        && (j != k ==> Locals(chain[j].vars, chain[j].functions) == before.st[j])
      ensures Abs() == FM.M(before.st[k := Locals(chain[k].vars, chain[k].functions)], before.marks)
    {
      assert Abs().marks == before.marks;
    }

    /** The machine, field by field. */
    lemma AbsAt(m: FM.Machine)
      requires Valid() && m == Abs()
      ensures forall j :: 0 <= j < |chain| ==>
        && FM.Mark(chain[j].flags, chain[j].returnValue) == m.marks[j]
        && Locals(chain[j].vars, chain[j].functions) == m.st[j]
    {
    }

    predicate IsExecutedInterupt()
      reads this
    {
      flags & 0xFF != 0
    }

    method CleanContinueFlag()
      requires Valid()
      modifies this
      ensures Abs() == FM.CleanContinue(old(Abs()))
    {
      Distinct();
      AbsAt(old(Abs()));
      flags := flags & 0xFE;
      FlagUpdate(old(Abs()), 0);
    }

    method BreakExecuted() returns (error: Option<Error>)
      requires Valid()
      modifies this
      ensures kind == Loop || kind == Switch ==> error == None && Abs() == FM.Raise(old(Abs()), FM.BREAK_FLAG)
      ensures !(kind == Loop || kind == Switch) ==> error == Some(BreakOutside) && Abs() == old(Abs())
    {
      Distinct();
      if !(kind == Loop || kind == Switch) {
        return Some(BreakOutside);
      }
      AbsAt(old(Abs()));
      flags := flags | FM.BREAK_FLAG;
      FlagUpdate(old(Abs()), 0);
      error := None;
    }

    method ContinueExecuted() returns (error: Option<Error>)
      requires Valid()
      modifies this
      ensures kind == Loop ==> error == None && Abs() == FM.Raise(old(Abs()), FM.CONTINUE_FLAG)
      ensures kind != Loop ==> error == Some(ContinueOutside) && Abs() == old(Abs())
    {
      Distinct();
      if kind != Loop {
        return Some(ContinueOutside);
      }
      AbsAt(old(Abs()));
      flags := flags | FM.CONTINUE_FLAG;
      FlagUpdate(old(Abs()), 0);
      error := None;
    }

    method IsInFunctionContext() returns (found: bool)
      requires Valid()
      ensures found <==> NearestFunction(Kinds()) < |chain|
    {
      Distinct();
      var seek: VMContext? := this;
      ghost var i := 0;
      while seek != null
        invariant i <= |chain| && seek == (if i < |chain| then chain[i] else null)
        invariant forall j :: 0 <= j < i ==> Kinds()[j] != Function
        decreases |chain| - i
      {
        Step(i);
        if seek.kind == Function {
          return true;
        }
        seek := seek.parent;
        i := i + 1;
      }
      found := false;
    }

    /** The first `i` marks raised for a return of `v`. */
    static ghost function Raised(marks: seq<FM.Mark>, i: nat, v: Value): (r: seq<FM.Mark>)
      ensures |r| == |marks|
    {
      seq(|marks|, j requires 0 <= j < |marks| =>
        if j < i then FM.Returning(marks[j], v) else marks[j])
    }

    static lemma RaisedEnds(ks: seq<Kind>, marks: seq<FM.Mark>, v: Value)
      requires |ks| == |marks|
      ensures Raised(marks, 0, v) == marks
      ensures Raised(marks, NearestFunction(ks) + 1, v) == FM.RaiseReturn(ks, marks, v)
    {
    }

    static lemma RaisedStep(marks: seq<FM.Mark>, i: nat, v: Value)
      requires i < |marks|
      ensures Raised(marks, i, v)[i] == marks[i]
      ensures Raised(marks, i + 1, v) == Raised(marks, i, v)[i := FM.Returning(marks[i], v)]
    {
      var a, b := Raised(marks, i + 1, v), Raised(marks, i, v)[i := FM.Returning(marks[i], v)];
      forall j | 0 <= j < |marks| ensures a[j] == b[j] {
      }
    }

    /** One context of the chain is flagged and given the value. */
    method MarkReturn(ctx: VMContext, ghost k: nat, v: Value)
      requires Valid() && k < |chain| && ctx == chain[k]
      modifies ctx`flags, ctx`returnValue
      ensures Abs() == old(Abs()).(marks := old(Abs()).marks[k := FM.Returning(old(Abs()).marks[k], v)])
    {
      Distinct();
      AbsAt(old(Abs()));
      ctx.flags := ctx.flags | FM.RETURN_FLAG;
      ctx.returnValue := v;
      FlagUpdate(old(Abs()), k);
    }

    /** Flags every context from here to the nearest function, which included. */
    method ReturnExecuted(v: Value) returns (error: Option<Error>)
      requires Valid()
      modifies chain
      ensures var ks := Kinds();
        if NearestFunction(ks) < |ks| then
          error == None && Abs() == old(Abs()).(marks := FM.RaiseReturn(ks, old(Abs().marks), v))
        else error == Some(ReturnOutside) && Abs() == old(Abs())
    {
      var inFunction := IsInFunctionContext();
      if !inFunction {
        return Some(ReturnOutside);
      }
      ghost var k, before := NearestFunction(Kinds()), Abs();
      RaisedEnds(Kinds(), before.marks, v);
      Distinct();
      var seek: VMContext? := this;
      ghost var i := 0;
      while seek != null
        invariant i <= k && seek == chain[i]
        invariant Abs() == before.(marks := Raised(before.marks, i, v))
        decreases k - i
      {
        Step(i);
        MarkReturn(seek, i, v);
        RaisedStep(before.marks, i, v);
        if seek.kind == Function {
          break;
        }
        seek := seek.parent;
        i := i + 1;
      }
      error := None;
    }

    method GetTopContext() returns (top: VMContext)
      requires Valid()
      ensures top == chain[|chain| - 1]
    {
      top := this;
      ghost var i := 0;
      Distinct();
      while top.parent != null
        invariant i < |chain| && top == chain[i]
        decreases |chain| - i
      {
        Step(i);
        top := top.parent;
        i := i + 1;
      }
      Step(i);
    }

    method AddVar(name: string) returns (error: Option<Error>)
      requires Valid()
      modifies this
      ensures match Scopes.AddVar(old(State()), name)
        case Refused(e) => error == Some(e) && Abs() == old(Abs())
        case Changed(st) => error == None && Abs() == old(Abs()).(st := st)
    {
      Distinct();
      if IsBuiltin(name) {
        return Some(BuiltinName(name));
      }
      if name !in vars {
        AbsAt(old(Abs()));
        vars := vars[name := Null];
        BindingUpdate(old(Abs()), 0);
      }
      error := None;
    }

    /** One variable of one context of the chain is written. */
    method WriteVar(ctx: VMContext, ghost k: nat, name: string, value: Value)
      requires Valid() && k < |chain| && ctx == chain[k]
      modifies ctx`vars
      ensures Abs() == old(Abs()).(st := old(State())[k := Put(old(State())[k], name, value)])
    {
      Distinct();
      AbsAt(old(Abs()));
      ctx.vars := ctx.vars[name := value];
      BindingUpdate(old(Abs()), k);
    }

    /** The search of SetVarValue: the context that is written to. */
    method FindTarget(name: string, current: bool) returns (target: VMContext, ghost k: nat)
      requires Valid()
      ensures Rooted(Kinds()) && k < |chain| && target == chain[k]
      ensures k == if current then 0 else Target(Kinds(), State(), name)
    {
      Distinct();
      ghost var ks, st := Kinds(), State();
      var ctx: VMContext? := this;
      var isInFunction := false;
      k := 0;
      while ctx != null
        invariant k <= |chain| && ctx == (if k < |chain| then chain[k] else null)
        invariant current ==> k == 0
        invariant Owner(ks, st, name, k) == Owner(ks, st, name, 0)
        invariant if isInFunction then NearestFunction(ks) < |ks| else k <= NearestFunction(ks)
        decreases |chain| - k
      {
        Step(k);
        assert st[k] == Locals(ctx.vars, ctx.functions);
        if name in ctx.vars || current {
          return ctx, k;
        }
        if ctx.kind == Function {
          isInFunction := true;
          ctx := GetTopContext();
          k := |chain| - 1;
        } else {
          ctx := ctx.parent;
          k := k + 1;
        }
      }
      Step(0);
      if isInFunction || parent == null {
        return this, 0;
      }
      target := GetTopContext();
      k := |chain| - 1;
    }

    method SetVarValue(name: string, value: Value, current: bool) returns (error: Option<Error>)
      requires Valid()
      modifies chain
      ensures Rooted(Kinds())
      ensures match SetVar(Kinds(), old(State()), name, value, current)
        case Refused(e) => error == Some(e) && Abs() == old(Abs())
        case Changed(st) => error == None && Abs() == old(Abs()).(st := st)
    {
      Distinct();
      if IsBuiltin(name) {
        return Some(BuiltinName(name));
      }
      var target, k := FindTarget(name, current);
      WriteVar(target, k, name, value);
      error := None;
    }

    method GetVarValue(name: string) returns (value: Value)
      requires Valid()
      ensures Rooted(Kinds()) && value == GetVar(Kinds(), State(), name)
    {
      Distinct();
      ghost var ks, st := Kinds(), State();
      var ctx: VMContext? := this;
      ghost var i := 0;
      while ctx != null
        invariant i <= |chain| && ctx == (if i < |chain| then chain[i] else null)
        invariant Owner(ks, st, name, i) == Owner(ks, st, name, 0)
        decreases |chain| - i
      {
        Step(i);
        assert st[i] == Locals(ctx.vars, ctx.functions);
        if name in ctx.vars {
          return ctx.vars[name];
        }
        if ctx.kind == Function {
          ctx := GetTopContext();
          i := |chain| - 1;
        } else {
          ctx := ctx.parent;
          i := i + 1;
        }
      }
      value := Null;
    }

    method AddFunction(p: Prims, f: Func) returns (error: Option<Error>)
      requires Valid()
      modifies this
      ensures match Scopes.AddFunction(p, Kinds(), old(State()), f)
        case Refused(e) => error == Some(e) && Abs() == old(Abs())
        case Changed(st) => error == None && Abs() == old(Abs()).(st := st)
    {
      Distinct();
      assert Kinds()[0] == kind && State()[0] == Locals(vars, functions);
      if kind != File {
        return Some(NotTopBlock(f.name));
      }
      if !p.overwritable(f.name) {
        return Some(NotOverwritable(f.name));
      }
      if f.name in functions {
        return Some(AlreadyDeclared(f.name));
      }
      AbsAt(old(Abs()));
      functions := functions[f.name := f];
      BindingUpdate(old(Abs()), 0);
      error := None;
    }

    method GetFunction(name: string) returns (f: Option<Func>)
      requires Valid()
      ensures f == Scopes.GetFunction(State(), name)
    {
      var top := GetTopContext();
      f := if name in top.functions then Some(top.functions[name]) else None;
    }
  }
}
