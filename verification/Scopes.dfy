/** Variable scopes along a chain of contexts. A chain is given by the kinds of its
    contexts, innermost first; the state holds one `Locals` per context. */
module Scopes {
  import opened Common
  import opened Language

  datatype Kind = File | Function | Loop | Switch

  datatype Locals = Locals(vars: map<string, Value>, functions: map<string, Func>)

  type State = seq<Locals>

  /** The root context of every chain is the file. */
  ghost predicate Rooted(ks: seq<Kind>) {
    |ks| > 0 && ks[|ks| - 1] == File
  }

  predicate IsBuiltin(name: string) {
    name == "false" || name == "true" || name == "nil"
  }

  /** The locals of a context that was just constructed. */
  function Fresh(): Locals {
    Locals(map["false" := Integer(0), "true" := Integer(1), "nil" := Null], map[])
  }

  /** Index of the nearest function context, |ks| when there is none. */
  function NearestFunction(ks: seq<Kind>): (k: nat)
    ensures k <= |ks|
    ensures k < |ks| ==> ks[k] == Function
    ensures forall i :: 0 <= i < k ==> ks[i] != Function
  {
    if ks == [] then 0
    else if ks[0] == Function then 0
    else 1 + NearestFunction(ks[1..])
  }

  /** The context that holds `name` as seen from context `i`: outwards up to the nearest
      function, then the file. */
  function Owner(ks: seq<Kind>, st: State, name: string, i: nat): (k: Option<nat>)
    requires Rooted(ks) && |st| == |ks| && i <= |ks|
    ensures k.Some? ==> i <= k.value < |ks| && name in st[k.value].vars
    decreases |ks| - i
  {
    if i == |ks| then None
    else if name in st[i].vars then Some(i)
    else if ks[i] == Function then Owner(ks, st, name, |ks| - 1)
    else Owner(ks, st, name, i + 1)
  }

  function Put(l: Locals, name: string, v: Value): Locals {
    l.(vars := l.vars[name := v])
  }

  function GetVar(ks: seq<Kind>, st: State, name: string): Value
    requires Rooted(ks) && |st| == |ks|
  {
    match Owner(ks, st, name, 0)
    case None => Null
    case Some(k) => st[k].vars[name]
  }

  /** The context a plain assignment writes to. */
  function Target(ks: seq<Kind>, st: State, name: string): (k: nat)
    requires Rooted(ks) && |st| == |ks|
    ensures k < |ks|
  {
    match Owner(ks, st, name, 0)
    case Some(k) => k
    case None => if NearestFunction(ks) < |ks| || |ks| == 1 then 0 else |ks| - 1
  }

  datatype Change = Changed(st: State) | Refused(error: Error)

  function SetVar(ks: seq<Kind>, st: State, name: string, v: Value, current: bool): (r: Change)
    requires Rooted(ks) && |st| == |ks|
    ensures r.Changed? ==> |r.st| == |st|
  {
    if IsBuiltin(name) then Refused(BuiltinName(name))
    else
      var k := if current then 0 else Target(ks, st, name);
      Changed(st[k := Put(st[k], name, v)])
  }

  function AddVar(st: State, name: string): (r: Change)
    requires |st| > 0
    ensures r.Changed? ==> |r.st| == |st|
  {
    if IsBuiltin(name) then Refused(BuiltinName(name))
    else if name in st[0].vars then Changed(st)
    else Changed(st[0 := Put(st[0], name, Null)])
  }

  function AddFunction(p: Prims, ks: seq<Kind>, st: State, f: Func): (r: Change)
    requires |ks| == |st| > 0
    ensures r.Changed? ==> |r.st| == |st|
  {
    if ks[0] != File then Refused(NotTopBlock(f.name))
    else if !p.overwritable(f.name) then Refused(NotOverwritable(f.name))
    else if f.name in st[0].functions then Refused(AlreadyDeclared(f.name))
    else Changed(st[0 := st[0].(functions := st[0].functions[f.name := f])])
  }

  function GetFunction(st: State, name: string): Option<Func>
    requires |st| > 0
  {
    var top := st[|st| - 1];
    if name in top.functions then Some(top.functions[name]) else None
  }

  // ----- which context a name belongs to -----

  /** Of the contexts up to the nearest function, the k-th is the first that holds the name. */
  ghost predicate FirstSeen(ks: seq<Kind>, st: State, name: string, k: nat)
    requires |st| == |ks|
  {
    && k < |ks| && k <= NearestFunction(ks) && name in st[k].vars
    && forall j :: 0 <= j < k ==> name !in st[j].vars
  }

  /** None of them holds it. */
  ghost predicate Unseen(ks: seq<Kind>, st: State, name: string)
    requires |st| == |ks|
  {
    forall j :: 0 <= j < |ks| && j <= NearestFunction(ks) ==> name !in st[j].vars
  }

  lemma {:induction false} OwnerSeen(ks: seq<Kind>, st: State, name: string, i: nat, k: nat)
    requires Rooted(ks) && |st| == |ks| && i <= k && FirstSeen(ks, st, name, k)
    ensures Owner(ks, st, name, i) == Some(k)
    decreases k - i
  {
    if i < k {
      OwnerSeen(ks, st, name, i + 1, k);
    }
  }

  lemma {:induction false} OwnerUnseen(ks: seq<Kind>, st: State, name: string, i: nat)
    requires Rooted(ks) && |st| == |ks| && i <= NearestFunction(ks) && Unseen(ks, st, name)
    ensures Owner(ks, st, name, i) == if name in st[|ks| - 1].vars then Some(|ks| - 1) else None
    decreases |ks| - i
  {
    if i < |ks| && ks[i] != Function {
      OwnerUnseen(ks, st, name, i + 1);
    }
  }

  /** What a name reads: the first context up to the nearest function that holds it, else the
      file, across the function, else nil. */
  lemma {:induction false} ReadsNearest(ks: seq<Kind>, st: State, name: string)
    requires Rooted(ks) && |st| == |ks|
    ensures forall k: nat :: FirstSeen(ks, st, name, k) ==> GetVar(ks, st, name) == st[k].vars[name]
    ensures Unseen(ks, st, name) ==>
      GetVar(ks, st, name) == if name in st[|ks| - 1].vars then st[|ks| - 1].vars[name] else Null
  {
    forall k: nat | FirstSeen(ks, st, name, k) ensures GetVar(ks, st, name) == st[k].vars[name] {
      OwnerSeen(ks, st, name, 0, k);
    }
    if Unseen(ks, st, name) {
      OwnerUnseen(ks, st, name, 0);
    }
  }

  /** Only context k differs, by this one variable. */
  ghost predicate WrittenAt(st: State, st': State, k: nat, name: string, v: Value) {
    && |st'| == |st| && k < |st|
    && st'[k].vars == st[k].vars[name := v] && st'[k].functions == st[k].functions
    && forall j :: 0 <= j < |st| && j != k ==> st'[j] == st[j]
  }

  /** Where an assignment writes: to the context that is read, and a name that nobody holds
      is created here inside a function and else in the file. */
  lemma {:induction false} WritesNearest(ks: seq<Kind>, st: State, name: string, v: Value)
    requires Rooted(ks) && |st| == |ks|
    ensures name == "nil" || name == "true" || name == "false" <==> SetVar(ks, st, name, v, false).Refused?
    ensures var r := SetVar(ks, st, name, v, false); r.Changed? ==>
      && (forall k: nat :: FirstSeen(ks, st, name, k) ==> WrittenAt(st, r.st, k, name, v))
      && (Unseen(ks, st, name) && name in st[|ks| - 1].vars ==> WrittenAt(st, r.st, |ks| - 1, name, v))
      && (Unseen(ks, st, name) && name !in st[|ks| - 1].vars ==>
            WrittenAt(st, r.st, if NearestFunction(ks) < |ks| then 0 else |ks| - 1, name, v))
  {
    var r := SetVar(ks, st, name, v, false);
    if r.Changed? {
      forall k: nat | FirstSeen(ks, st, name, k) ensures WrittenAt(st, r.st, k, name, v) {
        OwnerSeen(ks, st, name, 0, k);
      }
      if Unseen(ks, st, name) {
        OwnerUnseen(ks, st, name, 0);
      }
    }
  }

  /** Writing to the own context, and declaring: a declared name is nil unless it was there. */
  lemma {:induction false} WritesHere(ks: seq<Kind>, st: State, name: string, v: Value)
    requires Rooted(ks) && |st| == |ks|
    ensures name == "nil" || name == "true" || name == "false" <==> SetVar(ks, st, name, v, true).Refused?
    ensures name == "nil" || name == "true" || name == "false" <==> AddVar(st, name).Refused?
    ensures var r := SetVar(ks, st, name, v, true); r.Changed? ==> WrittenAt(st, r.st, 0, name, v)
    ensures var r := AddVar(st, name); r.Changed? ==>
      if name in st[0].vars then r.st == st else WrittenAt(st, r.st, 0, name, Null)
  {
  }

  /** A context starts with the three constants and nothing else. */
  lemma {:induction false} FreshHolds()
    ensures Fresh().vars.Keys == {"nil", "true", "false"} && HasConstants(Fresh())
    ensures Fresh().functions == map[]
  {
  }

  /** A declaration is refused exactly outside the file context, for a name that may not be
      overwritten, and for one that is declared already; it changes nothing but the functions
      of that context. */
  lemma {:induction false} DeclaresExactly(p: Prims, ks: seq<Kind>, st: State, f: Func)
    requires |ks| == |st| > 0
    ensures AddFunction(p, ks, st, f).Refused? <==>
            ks[0] != File || !p.overwritable(f.name) || f.name in st[0].functions
    ensures var r := AddFunction(p, ks, st, f); r.Changed? ==>
      && r.st[0].vars == st[0].vars && r.st[0].functions == st[0].functions[f.name := f]
      && |r.st| == |st| && forall i :: 0 < i < |st| ==> r.st[i] == st[i]
  {
  }

  /** A function declared in the file is the one found by its name from every chain over that
      file, and the other names are found as before. */
  lemma {:induction false} DeclaredFound(p: Prims, st: State, f: Func, later: State, other: string)
    requires |st| == 1 && |later| > 0 && AddFunction(p, [File], st, f).Changed?
    requires later[|later| - 1].functions == AddFunction(p, [File], st, f).st[0].functions
    ensures GetFunction(later, f.name) == Some(f) && GetFunction(st, f.name) == None
    ensures other != f.name ==> GetFunction(later, other) == GetFunction(st, other)
  {
  }

  // ----- scope isolation, one operation at a time -----

  /** nil, true and false have their initial values in every context. */
  ghost predicate ConstantsKept(st: State) {
    forall i :: 0 <= i < |st| ==> HasConstants(st[i])
  }

  ghost predicate HasConstants(l: Locals) {
    && "nil" in l.vars && l.vars["nil"] == Null
    && "true" in l.vars && l.vars["true"] == Integer(1)
    && "false" in l.vars && l.vars["false"] == Integer(0)
  }

  /** What code running in the innermost context of `ks` may do to the state: contexts
      strictly between its own function and the file are somebody else's locals, and no
      function is taken out of the file or replaced. */
  ghost predicate Confined(ks: seq<Kind>, st: State, st': State) {
    && |st'| == |st| == |ks|
    && (forall i :: NearestFunction(ks) < i < |ks| - 1 ==> st'[i] == st[i])
    && (ConstantsKept(st) ==> ConstantsKept(st'))
    && (|ks| > 0 ==> FunctionsKept(st[|ks| - 1], st'[|ks| - 1]))
  }

  /** Declared functions stay what they are. */
  ghost predicate FunctionsKept(l: Locals, l': Locals) {
    forall n :: n in l.functions ==> n in l'.functions && l'.functions[n] == l.functions[n]
  }

  lemma {:induction false} OwnerReach(ks: seq<Kind>, st: State, name: string, i: nat)
    requires Rooted(ks) && |st| == |ks| && i <= NearestFunction(ks)
    ensures var k := Owner(ks, st, name, i);
      k.Some? ==> k.value <= NearestFunction(ks) || k.value == |ks| - 1
    decreases |ks| - i
  {
    if i < |ks| && name !in st[i].vars && ks[i] != Function {
      OwnerReach(ks, st, name, i + 1);
    }
  }

  /** A successful assignment writes one context that belongs to the running function or is
      the file, and the same context then reads the assigned value. */
  lemma {:induction false} SetThenGet(ks: seq<Kind>, st: State, name: string, v: Value, current: bool)
    requires Rooted(ks) && |st| == |ks|
    ensures var r := SetVar(ks, st, name, v, current);
      && (r.Refused? <==> IsBuiltin(name))
      && (r.Changed? ==> Confined(ks, st, r.st) && GetVar(ks, r.st, name) == v)
  {
    var r := SetVar(ks, st, name, v, current);
    SetConfined(ks, st, name, v, current);
    if r.Changed? {
      var k := if current then 0 else Target(ks, st, name);
      if !current && Owner(ks, st, name, 0) == Some(k) {
        OwnerStable(ks, st, r.st, name, 0, k);
      } else if k != 0 {
        OwnerAtTop(ks, st, r.st, name, 0);
      }
    }
  }

  lemma SetConfined(ks: seq<Kind>, st: State, name: string, v: Value, current: bool)
    requires Rooted(ks) && |st| == |ks|
    ensures var r := SetVar(ks, st, name, v, current); r.Changed? ==> Confined(ks, st, r.st)
  {
    OwnerReach(ks, st, name, 0);
  }

  lemma OwnerStable(ks: seq<Kind>, st: State, st': State, name: string, i: nat, k: nat)
    requires Rooted(ks) && |st| == |st'| == |ks| && i <= |ks|
    requires Owner(ks, st, name, i) == Some(k)
    requires forall j :: 0 <= j < |ks| ==> (name in st'[j].vars <==> name in st[j].vars)
    ensures Owner(ks, st', name, i) == Some(k)
    decreases |ks| - i
  {
    if name !in st[i].vars {
      OwnerStable(ks, st, st', name, if ks[i] == Function then |ks| - 1 else i + 1, k);
    }
  }

  lemma OwnerAtTop(ks: seq<Kind>, st: State, st': State, name: string, i: nat)
    requires Rooted(ks) && |st| == |st'| == |ks| && i < |ks|
    requires NearestFunction(ks) == |ks| && Owner(ks, st, name, i) == None
    requires forall j :: 0 <= j < |ks| - 1 ==> st'[j] == st[j]
    requires name in st'[|ks| - 1].vars
    ensures Owner(ks, st', name, i) == Some(|ks| - 1)
    decreases |ks| - i
  {
    if i < |ks| - 1 {
      OwnerAtTop(ks, st, st', name, i + 1);
    }
  }

  /** Assigning or declaring one name leaves what every context of the chain reads for
      any other name. */
  lemma {:induction false} OtherNamesUnchanged(ks: seq<Kind>, st: State, st': State, name: string, other: string,
                                               i: nat)
    requires Rooted(ks) && |st| == |st'| == |ks| && i <= |ks| && other != name
    requires forall j :: 0 <= j < |ks| ==>
      st'[j] == st[j] || (exists v :: st'[j] == Put(st[j], name, v))
    ensures Owner(ks, st', other, i) == Owner(ks, st, other, i)
    ensures var k := Owner(ks, st, other, i); k.Some? ==> st'[k.value].vars[other] == st[k.value].vars[other]
    decreases |ks| - i
  {
    if i < |ks| && other !in st[i].vars {
      OtherNamesUnchanged(ks, st, st', name, other, if ks[i] == Function then |ks| - 1 else i + 1);
    }
  }

  /** The same, said of the two operations. */
  lemma {:induction false} WritesOneName(ks: seq<Kind>, st: State, name: string, v: Value, current: bool,
                                         other: string, i: nat)
    requires Rooted(ks) && |st| == |ks| && i < |ks| && other != name
    ensures var r := SetVar(ks, st, name, v, current);
      r.Changed? ==> GetVar(ks[i..], r.st[i..], other) == GetVar(ks[i..], st[i..], other)
    ensures var r := AddVar(st, name);
      r.Changed? ==> GetVar(ks[i..], r.st[i..], other) == GetVar(ks[i..], st[i..], other)
  {
    var r, a := SetVar(ks, st, name, v, current), AddVar(st, name);
    if r.Changed? {
      OtherNamesUnchanged(ks[i..], st[i..], r.st[i..], name, other, 0);
    }
    if a.Changed? {
      OtherNamesUnchanged(ks[i..], st[i..], a.st[i..], name, other, 0);
    }
  }

  lemma {:induction false} DeclareConfined(p: Prims, ks: seq<Kind>, st: State, name: string, f: Func)
    requires Rooted(ks) && |st| == |ks|
    ensures AddVar(st, name).Changed? ==> Confined(ks, st, AddVar(st, name).st)
    ensures AddFunction(p, ks, st, f).Changed? ==> Confined(ks, st, AddFunction(p, ks, st, f).st)
  {
  }
}
