/** Loading scripts with their dependencies: depth first, on a dependency graph that may
    have cycles and missing files, then grouped by category. */
module LoadOrder {
  import opened Common

  /** A script's attributes as far as scheduling reads them. */
  datatype Nvti = Nvti(dependencies: Option<seq<string>>, category: nat)

  /** attributes.db: scripts by file name, and the file name of each oid. */
  datatype Database = Database(byName: map<string, Nvti>, fileOf: map<string, string>) {
    ghost predicate Consistent() {
      && (forall oid :: oid in fileOf ==> fileOf[oid] in byName)
      && (forall f :: f in byName ==> byName[f].category < CATEGORIES)
    }
  }

  const CATEGORIES: nat := 11

  function Deps(db: Database, f: string): seq<string> {
    if f in db.byName && db.byName[f].dependencies.Some? then db.byName[f].dependencies.value else []
  }

  // ----- reachability in the dependency graph -----

  ghost predicate IsPath(db: Database, p: seq<string>) {
    |p| > 0 && forall i :: 0 <= i < |p| - 1 ==> p[i + 1] in Deps(db, p[i])
  }

  /** `a` is `b` or depends on it, directly or not. */
  ghost predicate Reach(db: Database, a: string, b: string) {
    exists p :: IsPath(db, p) && p[0] == a && p[|p| - 1] == b
  }

  lemma ReachSelf(db: Database, a: string)
    ensures Reach(db, a, a)
  {
    assert IsPath(db, [a]);
  }

  lemma ReachStep(db: Database, a: string, b: string, c: string)
    requires Reach(db, a, b) && c in Deps(db, b)
    ensures Reach(db, a, c)
  {
    var p :| IsPath(db, p) && p[0] == a && p[|p| - 1] == b;
    assert IsPath(db, p + [c]);
  }

  lemma {:induction false} ReachTransitive(db: Database, a: string, b: string, c: string)
    requires Reach(db, a, b) && Reach(db, b, c)
    ensures Reach(db, a, c)
  {
    var p :| IsPath(db, p) && p[0] == a && p[|p| - 1] == b;
    var q :| IsPath(db, q) && q[0] == b && q[|q| - 1] == c;
    var r := p + q[1..];
    forall i | 0 <= i < |r| - 1 ensures r[i + 1] in Deps(db, r[i]) {
      if i >= |p| - 1 {
        assert r[i] == q[i - (|p| - 1)] && r[i + 1] == q[i - (|p| - 1) + 1];
      }
    }
    assert IsPath(db, r);
  }

  /** A set closed under dependencies contains whatever its members reach. */
  lemma {:induction false} ClosedUnderReach(db: Database, s: set<string>, a: string, b: string)
    requires a in s && Reach(db, a, b)
    requires forall f, d :: f in s && d in Deps(db, f) ==> d in s
    ensures b in s
  {
    var p :| IsPath(db, p) && p[0] == a && p[|p| - 1] == b;
    var i := 0;
    while i < |p| - 1
      invariant 0 <= i < |p| && p[i] in s
    {
      i := i + 1;
    }
  }

  function Elems(s: seq<string>): set<string> {
    set i | 0 <= i < |s| :: s[i]
  }

  ghost predicate ReachedFrom(db: Database, roots: seq<string>, f: string) {
    exists r :: r in roots && Reach(db, r, f)
  }

  // ----- what one loading call adds -----

  /** `order`/`loaded` grew to `order2`/`loaded2` by loading `roots`. */
  ghost predicate Grown(db: Database, roots: seq<string>, order: seq<string>, loaded: set<string>,
                        order2: seq<string>, loaded2: set<string>) {
    && order <= order2
    && loaded2 == loaded + Elems(order2[|order|..])
    && (forall i :: |order| <= i < |order2| ==> order2[i] !in loaded && Placed(db, roots, order2, loaded2, i))
    && (forall i, j :: |order| <= i < j < |order2| ==> order2[i] != order2[j])
  }

  ghost predicate Mutual(db: Database, a: string, b: string) {
    Reach(db, a, b) && Reach(db, b, a)
  }

  /** A later script of the order is on a cycle with the script at position i. */
  ghost predicate CycleOpen(db: Database, order: seq<string>, i: nat)
    requires i < |order|
  {
    exists g :: g !in order[..i + 1] && Mutual(db, order[i], g)
  }

  /** The script at position i is known, was asked for, and follows its dependencies
      unless they depend on it in turn; and the script that closes a cycle follows
      everything the cycle reaches. */
  ghost predicate Placed(db: Database, roots: seq<string>, order: seq<string>, loaded: set<string>, i: nat)
    requires i < |order|
  {
    && order[i] in db.byName && ReachedFrom(db, roots, order[i])
    && (forall d :: d in Deps(db, order[i]) ==> d in loaded && (d in order[..i] || Reach(db, d, order[i])))
    && forall d :: Reach(db, order[i], d) ==> d in order[..i + 1] || CycleOpen(db, order, i)
  }

  /** Scripts that are being loaded, but not in the order yet, depend on what is loaded next. */
  ghost predicate OnStack(db: Database, roots: seq<string>, order: seq<string>, loaded: set<string>) {
    && Elems(order) <= loaded
    && (forall i, d :: 0 <= i < |order| && d in Deps(db, order[i]) ==> d in loaded)
    && forall g, r :: g in loaded && g !in order && r in roots ==> Reach(db, g, r)
  }

  lemma GrownNothing(db: Database, roots: seq<string>, order: seq<string>, loaded: set<string>)
    ensures Grown(db, roots, order, loaded, order, loaded)
  {
    assert order[|order|..] == [];
  }

  lemma PlacedMonotone(db: Database, roots: seq<string>, order: seq<string>, loaded: set<string>,
                       roots2: seq<string>, order2: seq<string>, loaded2: set<string>, i: nat)
    requires i < |order| && Placed(db, roots, order, loaded, i)
    requires order <= order2 && loaded <= loaded2
    requires forall f :: ReachedFrom(db, roots, f) ==> ReachedFrom(db, roots2, f)
    ensures Placed(db, roots2, order2, loaded2, i)
  {
    assert order2[..i] == order[..i] && order2[..i + 1] == order[..i + 1];
  }

  lemma GrownTwice(db: Database, roots: seq<string>, more: seq<string>, o1: seq<string>, l1: set<string>,
                   o2: seq<string>, l2: set<string>, o3: seq<string>, l3: set<string>)
    requires Grown(db, roots, o1, l1, o2, l2) && Grown(db, more, o2, l2, o3, l3)
    ensures Grown(db, roots + more, o1, l1, o3, l3)
  {
    var all := roots + more;
    assert forall f :: ReachedFrom(db, roots, f) || ReachedFrom(db, more, f) ==> ReachedFrom(db, all, f);
    assert o3[|o1|..] == o2[|o1|..] + o3[|o2|..];
    ElemsConcat(o2[|o1|..], o3[|o2|..]);
    forall i | |o1| <= i < |o3| ensures o3[i] !in l1 && Placed(db, all, o3, l3, i) {
      if i < |o2| {
        PlacedMonotone(db, roots, o2, l2, all, o3, l3, i);
      } else {
        PlacedMonotone(db, more, o3, l3, all, o3, l3, i);
      }
    }
    forall i, j | |o1| <= i < j < |o3| ensures o3[i] != o3[j] {
      if i < |o2| <= j {
        assert o2[|o1|..][i - |o1|] == o3[i];
      }
    }
  }

  lemma ElemsIn(s: seq<string>)
    ensures forall x :: x in s <==> x in Elems(s)
  {
  }

  lemma ElemsConcat(a: seq<string>, b: seq<string>)
    ensures Elems(a + b) == Elems(a) + Elems(b)
  {
    forall x | x in Elems(a) + Elems(b) ensures x in Elems(a + b) {
      if x in a {
        var i :| 0 <= i < |a| && a[i] == x;
        assert (a + b)[i] == x;
      } else {
        var i :| 0 <= i < |b| && b[i] == x;
        assert (a + b)[|a| + i] == x;
      }
    }
  }

  /** A dependency that is nowhere in the database. */
  ghost predicate Missing(db: Database, roots: seq<string>) {
    exists f :: f !in db.byName && ReachedFrom(db, roots, f)
  }

  /** The recursive InitScripts. The by-reference arguments are returned. */
  method InitDependencies(db: Database, scripts: seq<string>, order: seq<string>, loaded: set<string>)
    returns (ok: bool, order2: seq<string>, loaded2: set<string>)
    requires OnStack(db, scripts, order, loaded)
    ensures ok ==> Grown(db, scripts, order, loaded, order2, loaded2) && Elems(scripts) <= loaded2
    ensures !ok ==> Missing(db, scripts)
    decreases db.byName.Keys - loaded, 1
  {
    ok, order2, loaded2 := true, order, loaded;
    GrownNothing(db, scripts[..0], order, loaded);
    for i := 0 to |scripts|
      invariant Grown(db, scripts[..i], order, loaded, order2, loaded2)
      invariant Elems(scripts[..i]) <= loaded2 && loaded <= loaded2
    {
      var v := scripts[i];
      assert scripts[..i + 1] == scripts[..i] + [v];
      ElemsConcat(scripts[..i], [v]);
      if v in loaded2 {
        GrownNothing(db, [v], order2, loaded2);
        GrownTwice(db, scripts[..i], [v], order, loaded, order2, loaded2, order2, loaded2);
        continue;
      }
      if v !in db.byName {
        ReachSelf(db, v);
        assert ReachedFrom(db, scripts, v);
        return false, order2, loaded2;
      }
      StackKept(db, scripts, i, order, loaded, order2, loaded2);
      ghost var o, l := order2, loaded2;
      ok, order2, loaded2 := Load(db, v, order2, loaded2);
      if !ok {
        ghost var f :| f !in db.byName && ReachedFrom(db, [v], f);
        assert ReachedFrom(db, scripts, f);
        return;
      }
      GrownTwice(db, scripts[..i], [v], order, loaded, o, l, order2, loaded2);
    }
    assert scripts[..|scripts|] == scripts;
  }

  lemma StackKept(db: Database, scripts: seq<string>, i: nat, order: seq<string>, loaded: set<string>,
                  order2: seq<string>, loaded2: set<string>)
    requires i < |scripts| && OnStack(db, scripts, order, loaded)
    requires Grown(db, scripts[..i], order, loaded, order2, loaded2)
    ensures OnStack(db, [scripts[i]], order2, loaded2)
  {
    assert order2 == order + order2[|order|..];
    ElemsConcat(order, order2[|order|..]);
    forall g | g in loaded2 && g !in order2 ensures Reach(db, g, scripts[i]) {
      assert g !in order2[|order|..];
      assert g in loaded && g !in order;
    }
    forall k, d | 0 <= k < |order2| && d in Deps(db, order2[k]) ensures d in loaded2 {
      if k < |order| {
        assert order2[k] == order[k];
      } else {
        assert Placed(db, scripts[..i], order2, loaded2, k);
      }
    }
  }

  /** One script that is known and not loaded: mark it, load its dependencies, append it. */
  method Load(db: Database, v: string, order: seq<string>, loaded: set<string>)
    returns (ok: bool, order2: seq<string>, loaded2: set<string>)
    requires v in db.byName && v !in loaded && OnStack(db, [v], order, loaded)
    ensures ok ==> Grown(db, [v], order, loaded, order2, loaded2) && v in loaded2
    ensures !ok ==> Missing(db, [v])
    decreases db.byName.Keys - loaded, 0
  {
    ok, order2, loaded2 := true, order, loaded + {v};
    var dependencies := db.byName[v].dependencies;
    ReachSelf(db, v);
    ElemsIn(order);
    if dependencies.None? {
      GrownNothing(db, [], order2, loaded2);
      Appended(db, v, order, loaded, order2, loaded2);
      order2 := order2 + [v];
      return;
    }
    forall g, d | g in loaded2 && g !in order && d in dependencies.value ensures Reach(db, g, d) {
      assert Reach(db, g, v);
      ReachStep(db, g, v, d);
    }
    assert db.byName.Keys - loaded2 < db.byName.Keys - loaded by {
      assert v in db.byName.Keys - loaded;
    }
    ok, order2, loaded2 := InitDependencies(db, dependencies.value, order2, loaded2);
    if !ok {
      ghost var f :| f !in db.byName && ReachedFrom(db, dependencies.value, f);
      ghost var d :| d in dependencies.value && Reach(db, d, f);
      ReachStep(db, v, v, d);
      ReachTransitive(db, v, d, f);
      assert ReachedFrom(db, [v], f);
      return;
    }
    Appended(db, v, order, loaded, order2, loaded2);
    order2 := order2 + [v];
  }

  /** A path that leaves the order: the first script outside, and the one before it. */
  lemma {:induction false} Leaves(db: Database, order: seq<string>, p: seq<string>) returns (f: string, g: string)
    requires IsPath(db, p) && p[0] in order && p[|p| - 1] !in order
    ensures f in order && g !in order && g in Deps(db, f) && Reach(db, p[0], g)
  {
    var n := 0;
    while p[n + 1] in order
      invariant 0 <= n < |p| - 1 && p[n] in order
      decreases |p| - n
    {
      n := n + 1;
    }
    f, g := p[n], p[n + 1];
    assert IsPath(db, p[..n + 2]) && p[..n + 2][n + 1] == g;
  }

  /** The scripts in the order have all their dependencies marked, and the marked ones that
      are not in it depend on the last script: a path from it leaves the order in its cycle. */
  lemma {:induction false} Closes(db: Database, order: seq<string>, loaded: set<string>, d: string)
    requires |order| > 0 && d !in order
    requires OnStack(db, [order[|order| - 1]], order, loaded) && Reach(db, order[|order| - 1], d)
    ensures CycleOpen(db, order, |order| - 1)
  {
    var last := order[|order| - 1];
    var p :| IsPath(db, p) && p[0] == last && p[|p| - 1] == d;
    var f, g := Leaves(db, order, p);
    var i :| 0 <= i < |order| && order[i] == f;
    assert g in loaded;
    assert last in [last] && Reach(db, g, last);
    assert order[..|order| - 1 + 1] == order;
    assert Mutual(db, last, g);
  }

  lemma Appended(db: Database, v: string, order: seq<string>, loaded: set<string>,
                 order2: seq<string>, loaded2: set<string>)
    requires v in db.byName && v !in loaded && v !in order && OnStack(db, [v], order, loaded)
    requires Grown(db, Deps(db, v), order, loaded + {v}, order2, loaded2)
    requires Elems(Deps(db, v)) <= loaded2
    ensures Grown(db, [v], order, loaded, order2 + [v], loaded2)
  {
    var result := order2 + [v];
    assert result[|order|..] == order2[|order|..] + [v];
    ElemsConcat(order2[|order|..], [v]);
    assert Elems([v]) == {v} by { assert [v][0] == v; }
    ReachSelf(db, v);
    forall f | ReachedFrom(db, Deps(db, v), f) ensures ReachedFrom(db, [v], f) {
      var d :| d in Deps(db, v) && Reach(db, d, f);
      ReachStep(db, v, v, d);
      ReachTransitive(db, v, d, f);
      assert v in [v] && Reach(db, v, f);
    }
    forall i | |order| <= i < |result| ensures result[i] !in loaded && Placed(db, [v], result, loaded2, i) {
      if i < |order2| {
        PlacedMonotone(db, Deps(db, v), order2, loaded2, [v], result, loaded2, i);
      } else {
        assert v in [v] && Reach(db, v, v);
        forall d | d in Deps(db, v) ensures d in loaded2 && (d in result[..i] || Reach(db, d, v)) {
          assert d in Elems(Deps(db, v));
          assert result[..i] == order2;
          if d !in order2 {
            assert d !in order2[|order|..];
            assert d in loaded + {v} && d !in order;
          }
        }
        StackClosed(db, v, order, loaded, order2, loaded2);
        forall d | Reach(db, v, d) && d !in result[..i + 1] ensures CycleOpen(db, result, i) {
          Closes(db, result, loaded2, d);
        }
      }
    }
  }

  /** After v and its dependencies, what is being loaded still depends on v. */
  lemma StackClosed(db: Database, v: string, order: seq<string>, loaded: set<string>,
                    order2: seq<string>, loaded2: set<string>)
    requires v in db.byName && v !in loaded && v !in order && OnStack(db, [v], order, loaded)
    requires Grown(db, Deps(db, v), order, loaded + {v}, order2, loaded2)
    requires Elems(Deps(db, v)) <= loaded2
    ensures OnStack(db, [v], order2 + [v], loaded2)
  {
    var result := order2 + [v];
    assert order2 == order + order2[|order|..];
    ElemsConcat(order, order2[|order|..]);
    ElemsConcat(order2, [v]);
    assert Elems([v]) == {v} by { assert [v][0] == v; }
    forall g | g in loaded2 && g !in result ensures Reach(db, g, v) {
      assert g !in order2[|order|..];
      assert g in loaded && g !in order;
    }
    forall k, d | 0 <= k < |result| && d in Deps(db, result[k]) ensures d in loaded2 {
      if k < |order| {
        assert result[k] == order[k];
      } else if k < |order2| {
        assert Placed(db, Deps(db, v), order2, loaded2, k);
      } else {
        assert d in Elems(Deps(db, v));
      }
    }
  }

  // ----- the requested scripts -----

  /** The files of the requested oids that the database knows, in order. */
  function Requested(db: Database, oids: seq<string>): seq<string> {
    if oids == [] then []
    else
      var rest := Requested(db, oids[..|oids| - 1]);
      if oids[|oids| - 1] in db.fileOf then rest + [db.fileOf[oids[|oids| - 1]]] else rest
  }

  /** What a successful load promises about the load order. */
  ghost predicate GoodOrder(db: Database, roots: seq<string>, order: seq<string>) {
    && (forall i, j :: 0 <= i < j < |order| ==> order[i] != order[j])
    && (forall f :: f in order <==> ReachedFrom(db, roots, f))
    && (forall i :: 0 <= i < |order| ==> order[i] in db.byName)
    && (forall i, d :: 0 <= i < |order| && d in Deps(db, order[i]) ==>
          d in order[..i] || Reach(db, d, order[i]))
    && (forall i, d :: 0 <= i < |order| && Reach(db, order[i], d) ==>
          d in order[..i + 1] || CycleOpen(db, order, i))
  }

  /** InitScripts up to the load order: unknown oids are skipped, a missing dependency
      fails the whole call. */
  method InitScripts(db: Database, oids: seq<string>) returns (ok: bool, order: seq<string>)
    requires db.Consistent()
    ensures ok <==> !Missing(db, Requested(db, oids))
    ensures ok ==> GoodOrder(db, Requested(db, oids), order)
  {
    order := [];
    var loaded := {};
    GrownNothing(db, [], [], {});
    for i := 0 to |oids|
      invariant Grown(db, Requested(db, oids[..i]), [], {}, order, loaded)
      invariant Elems(Requested(db, oids[..i])) <= loaded
    {
      ghost var before := Requested(db, oids[..i]);
      assert oids[..i + 1][..i] == oids[..i];
      if oids[i] !in db.fileOf {
        continue;
      }
      var file := db.fileOf[oids[i]];
      ElemsConcat(before, [file]);
      if file in loaded {
        GrownNothing(db, [file], order, loaded);
        GrownTwice(db, before, [file], [], {}, order, loaded, order, loaded);
        continue;
      }
      assert order[0..] == order;
      assert forall k :: 0 <= k < |order| ==> Placed(db, before, order, loaded, k);
      ghost var o, l := order, loaded;
      ok, order, loaded := Load(db, file, order, loaded);
      if !ok {
        ghost var f :| f !in db.byName && ReachedFrom(db, [file], f);
        RequestedMember(db, oids, i);
        assert ReachedFrom(db, Requested(db, oids), f);
        return;
      }
      GrownTwice(db, before, [file], [], {}, o, l, order, loaded);
    }
    assert oids[..|oids|] == oids;
    ok := true;
    Finished(db, Requested(db, oids), order, loaded);
  }

  lemma {:induction false} RequestedMember(db: Database, oids: seq<string>, i: nat)
    requires i < |oids| && oids[i] in db.fileOf
    ensures db.fileOf[oids[i]] in Requested(db, oids)
    decreases |oids|
  {
    if i < |oids| - 1 {
      RequestedMember(db, oids[..|oids| - 1], i);
    }
  }

  lemma {:induction false} Finished(db: Database, roots: seq<string>, order: seq<string>, loaded: set<string>)
    requires Grown(db, roots, [], {}, order, loaded) && Elems(roots) <= loaded
    ensures GoodOrder(db, roots, order) && !Missing(db, roots)
  {
    assert order[0..] == order;
    ElemsIn(order);
    ElemsIn(roots);
    forall f, d | f in loaded && d in Deps(db, f) ensures d in loaded {
      var i :| 0 <= i < |order| && order[i] == f;
      assert Placed(db, roots, order, loaded, i);
    }
    forall f ensures f in order <==> ReachedFrom(db, roots, f) {
      if ReachedFrom(db, roots, f) {
        var r :| r in roots && Reach(db, r, f);
        ClosedUnderReach(db, loaded, r, f);
      }
      if f in order {
        var i :| 0 <= i < |order| && order[i] == f;
        assert Placed(db, roots, order, loaded, i);
      }
    }
    forall i | 0 <= i < |order| ensures order[i] in db.byName {
      assert Placed(db, roots, order, loaded, i);
    }
    forall i, d | 0 <= i < |order| && d in Deps(db, order[i]) ensures d in order[..i] || Reach(db, d, order[i]) {
      assert Placed(db, roots, order, loaded, i);
    }
    forall i, d | 0 <= i < |order| && Reach(db, order[i], d) ensures d in order[..i + 1] || CycleOpen(db, order, i) {
      assert Placed(db, roots, order, loaded, i);
    }
    forall f | ReachedFrom(db, roots, f) ensures f in db.byName {
      assert f in order;
    }
  }

  // ----- the load order in terms of the attributes -----

  /** From a to b along listed dependencies. */
  ghost predicate Leads(db: Database, p: seq<string>, a: string, b: string) {
    && |p| > 0 && p[0] == a && p[|p| - 1] == b
    && forall i :: 0 <= i < |p| - 1 ==> Listed(db, p, i)
  }

  /** p[i] is known and its attributes list p[i + 1]. */
  ghost predicate Listed(db: Database, p: seq<string>, i: nat)
    requires i + 1 < |p|
  {
    p[i] in db.byName && db.byName[p[i]].dependencies.Some? && p[i + 1] in db.byName[p[i]].dependencies.value
  }

  lemma ReachMeans(db: Database, a: string, b: string)
    ensures Reach(db, a, b) <==> exists p :: Leads(db, p, a, b)
  {
    if Reach(db, a, b) {
      var p :| IsPath(db, p) && p[0] == a && p[|p| - 1] == b;
      forall i | 0 <= i < |p| - 1 ensures Listed(db, p, i) {
        assert p[i + 1] in Deps(db, p[i]);
      }
      assert Leads(db, p, a, b);
    } else if p :| Leads(db, p, a, b) {
      forall i | 0 <= i < |p| - 1 ensures p[i + 1] in Deps(db, p[i]) {
        assert Listed(db, p, i);
      }
      assert IsPath(db, p);
      assert false;
    }
  }

  lemma {:induction false} RequestedFrom(db: Database, oids: seq<string>, f: string)
    requires f in Requested(db, oids)
    ensures exists k :: 0 <= k < |oids| && oids[k] in db.fileOf && db.fileOf[oids[k]] == f
    decreases |oids|
  {
    var n := |oids| - 1;
    if f in Requested(db, oids[..n]) {
      RequestedFrom(db, oids[..n], f);
      var k :| 0 <= k < n && oids[..n][k] in db.fileOf && db.fileOf[oids[..n][k]] == f;
      assert oids[k] == oids[..n][k];
    } else {
      assert oids[n] in db.fileOf && db.fileOf[oids[n]] == f;
    }
  }

  /** One of the requested scripts leads to f. */
  ghost predicate Wanted(db: Database, oids: seq<string>, f: string) {
    exists k, p :: 0 <= k < |oids| && oids[k] in db.fileOf && Leads(db, p, db.fileOf[oids[k]], f)
  }

  lemma {:induction false} WantedReached(db: Database, oids: seq<string>, f: string)
    ensures Wanted(db, oids, f) <==> ReachedFrom(db, Requested(db, oids), f)
  {
    if ReachedFrom(db, Requested(db, oids), f) {
      var r :| r in Requested(db, oids) && Reach(db, r, f);
      RequestedFrom(db, oids, r);
      ReachMeans(db, r, f);
    } else if k, p :| 0 <= k < |oids| && oids[k] in db.fileOf && Leads(db, p, db.fileOf[oids[k]], f) {
      RequestedMember(db, oids, k);
      ReachMeans(db, db.fileOf[oids[k]], f);
      assert false;
    }
  }

  /** The script at position i follows each dependency its attributes list, but for those that
      lead back to it. */
  ghost predicate FollowsListed(db: Database, order: seq<string>, i: nat)
    requires i < |order| && order[i] in db.byName
  {
    var nvti := db.byName[order[i]];
    nvti.dependencies.Some? ==>
      forall d :: d in nvti.dependencies.value ==> d in order[..i] || exists p :: Leads(db, p, d, order[i])
  }

  /** The order in terms of the oids and the attributes alone: exactly the wanted scripts, each
      once, each behind the dependencies it lists. */
  lemma {:induction false} OrderMeans(db: Database, oids: seq<string>, order: seq<string>)
    requires GoodOrder(db, Requested(db, oids), order)
    ensures forall i, j :: 0 <= i < j < |order| ==> order[i] != order[j]
    ensures forall f :: f in order <==> Wanted(db, oids, f)
    ensures forall i :: 0 <= i < |order| ==> order[i] in db.byName && FollowsListed(db, order, i)
  {
    forall f ensures f in order <==> Wanted(db, oids, f) {
      WantedReached(db, oids, f);
    }
    forall i | 0 <= i < |order| ensures order[i] in db.byName && FollowsListed(db, order, i) {
      forall d | d in Deps(db, order[i]) ensures d in order[..i] || exists p :: Leads(db, p, d, order[i]) {
        ReachMeans(db, d, order[i]);
      }
    }
  }

  /** And loading fails exactly when a wanted script is not in the database. */
  lemma {:induction false} MissingMeans(db: Database, oids: seq<string>)
    ensures Missing(db, Requested(db, oids)) <==> exists f :: f !in db.byName && Wanted(db, oids, f)
  {
    forall f ensures Wanted(db, oids, f) <==> ReachedFrom(db, Requested(db, oids), f) {
      WantedReached(db, oids, f);
    }
  }

  // ----- grouping by category and the visit of a host -----

  /** The scripts of one category, in load order. */
  function OfCategory(db: Database, order: seq<string>, c: nat): (g: seq<string>)
    ensures forall f :: f in g <==> f in order && f in db.byName && db.byName[f].category == c
  {
    if order == [] then []
    else
      var k := |order| - 1;
      var rest := OfCategory(db, order[..k], c);
      assert order == order[..k] + [order[k]];
      if order[k] in db.byName && db.byName[order[k]].category == c then rest + [order[k]] else rest
  }

  /** mGroupedScripts: every script is pushed to the list of its category. */
  method GroupScripts(db: Database, order: seq<string>) returns (groups: seq<seq<string>>)
    requires db.Consistent() && forall i :: 0 <= i < |order| ==> order[i] in db.byName
    ensures |groups| == CATEGORIES
    ensures forall c :: 0 <= c < CATEGORIES ==> groups[c] == OfCategory(db, order, c)
  {
    groups := seq(CATEGORIES, _ => []);
    for i := 0 to |order|
      invariant |groups| == CATEGORIES
      invariant forall c :: 0 <= c < CATEGORIES ==> groups[c] == OfCategory(db, order[..i], c)
    {
      var category := db.byName[order[i]].category;
      assert order[..i + 1][..i] == order[..i];
      groups := groups[category := groups[category] + [order[i]]];
    }
    assert order[..|order|] == order;
  }

  /** The order in which a host visits the scripts. */
  function Visits(db: Database, order: seq<string>, upTo: nat): seq<string> {
    if upTo == 0 then [] else Visits(db, order, upTo - 1) + OfCategory(db, order, upTo - 1)
  }

  /** The loops of ExecuteScriptOnHost without early exit: `visited` collects the scripts in
      the order in which they are reached, `progress` is ScriptProgress. */
  method VisitHost(db: Database, order: seq<string>, groups: seq<seq<string>>)
    returns (visited: seq<string>, progress: nat)
    requires |groups| == CATEGORIES && forall c :: 0 <= c < CATEGORIES ==> groups[c] == OfCategory(db, order, c)
    ensures visited == Visits(db, order, CATEGORIES) && progress == |visited|
  {
    visited, progress := [], 0;
    for i := 0 to CATEGORIES
      invariant visited == Visits(db, order, i) && progress == |visited|
    {
      ghost var before := visited;
      for k := 0 to |groups[i]|
        invariant visited == before + groups[i][..k] && progress == |visited|
      {
        progress := progress + 1;
        visited := visited + [groups[i][k]];
      }
      assert groups[i][..|groups[i]|] == groups[i];
    }
  }

  lemma {:induction false} CategoryMultiset(db: Database, order: seq<string>, c: nat, f: string)
    requires forall i :: 0 <= i < |order| ==> order[i] in db.byName
    ensures multiset(OfCategory(db, order, c))[f] ==
      if f in db.byName && db.byName[f].category == c then multiset(order)[f] else 0
    decreases |order|
  {
    if order != [] {
      var k := |order| - 1;
      CategoryMultiset(db, order[..k], c, f);
      assert order == order[..k] + [order[k]];
    }
  }

  lemma {:induction false} VisitsMultiset(db: Database, order: seq<string>, upTo: nat, f: string)
    requires forall i :: 0 <= i < |order| ==> order[i] in db.byName
    ensures multiset(Visits(db, order, upTo))[f] ==
      if f in db.byName && db.byName[f].category < upTo then multiset(order)[f] else 0
    decreases upTo
  {
    if upTo > 0 {
      VisitsMultiset(db, order, upTo - 1, f);
      CategoryMultiset(db, order, upTo - 1, f);
    } else {
      assert multiset(Visits(db, order, 0)) == multiset{};
    }
  }

  /** Every loaded script is visited exactly as often as it was loaded, that is once. */
  lemma {:induction false} VisitsAll(db: Database, order: seq<string>)
    requires db.Consistent() && forall i :: 0 <= i < |order| ==> order[i] in db.byName
    ensures multiset(Visits(db, order, CATEGORIES)) == multiset(order)
    ensures |Visits(db, order, CATEGORIES)| == |order|
  {
    var v := Visits(db, order, CATEGORIES);
    forall f ensures multiset(v)[f] == multiset(order)[f] {
      VisitsMultiset(db, order, CATEGORIES, f);
      if f !in db.byName && f in order {
        assert false;
      }
    }
    assert |multiset(v)| == |v| && |multiset(order)| == |order|;
  }

  /** `a` occurs before `b`. */
  ghost predicate Precedes(s: seq<string>, a: string, b: string) {
    exists i, j :: 0 <= i < j < |s| && s[i] == a && s[j] == b
  }

  /** Grouping is stable: scripts of one category keep their load order. */
  lemma {:induction false} CategoryStable(db: Database, order: seq<string>, c: nat, a: string, b: string)
    requires a in db.byName && b in db.byName && db.byName[a].category == db.byName[b].category == c
    requires Precedes(order, a, b)
    ensures Precedes(OfCategory(db, order, c), a, b)
    decreases |order|
  {
    var i, j :| 0 <= i < j < |order| && order[i] == a && order[j] == b;
    var k := |order| - 1;
    var front := OfCategory(db, order[..k], c);
    var g := OfCategory(db, order, c);
    if j < k {
      assert order[..k][i] == a && order[..k][j] == b;
      CategoryStable(db, order[..k], c, a, b);
      var x, y :| 0 <= x < y < |front| && front[x] == a && front[y] == b;
      assert g[x] == a && g[y] == b;
    } else {
      assert order[..k][i] == a;
      assert a in front;
      var x :| 0 <= x < |front| && front[x] == a;
      assert g[x] == a && g[|front|] == b;
    }
  }

  lemma {:induction false} VisitsMember(db: Database, order: seq<string>, upTo: nat, f: string)
    requires f in order && f in db.byName && db.byName[f].category < upTo
    ensures f in Visits(db, order, upTo)
    decreases upTo
  {
    if db.byName[f].category < upTo - 1 {
      VisitsMember(db, order, upTo - 1, f);
    }
  }

  /** A script is visited before another one if its category is smaller, or equal and it was
      loaded first. */
  lemma {:induction false} VisitedBefore(db: Database, order: seq<string>, upTo: nat, a: string, b: string)
    requires a in order && b in order && a in db.byName && b in db.byName && db.byName[b].category < upTo
    requires db.byName[a].category < db.byName[b].category ||
             (db.byName[a].category == db.byName[b].category && Precedes(order, a, b))
    ensures Precedes(Visits(db, order, upTo), a, b)
    decreases upTo
  {
    var front, g, v := Visits(db, order, upTo - 1), OfCategory(db, order, upTo - 1), Visits(db, order, upTo);
    if db.byName[b].category < upTo - 1 {
      VisitedBefore(db, order, upTo - 1, a, b);
      var x, y :| 0 <= x < y < |front| && front[x] == a && front[y] == b;
      assert v[x] == a && v[y] == b;
    } else if db.byName[a].category < upTo - 1 {
      VisitsMember(db, order, upTo - 1, a);
      var x :| 0 <= x < |front| && front[x] == a;
      var y :| 0 <= y < |g| && g[y] == b;
      assert v[x] == a && v[|front| + y] == b;
    } else {
      CategoryStable(db, order, upTo - 1, a, b);
      var x, y :| 0 <= x < y < |g| && g[x] == a && g[y] == b;
      assert v[|front| + x] == a && v[|front| + y] == b;
    }
  }

  /** Dependencies first: a dependency that does not depend back, and whose category is not
      later, is visited before the script that needs it. */
  lemma {:induction false} DependencyFirst(db: Database, roots: seq<string>, order: seq<string>, f: string, d: string)
    requires db.Consistent() && GoodOrder(db, roots, order)
    requires f in order && d in Deps(db, f) && !Reach(db, d, f)
    ensures d in db.byName && Precedes(order, d, f)
    ensures db.byName[d].category <= db.byName[f].category ==> Precedes(Visits(db, order, CATEGORIES), d, f)
  {
    var i :| 0 <= i < |order| && order[i] == f;
    assert d in order[..i];
    var j :| 0 <= j < i && order[j] == d;
    assert order[i] in db.byName && order[j] in db.byName;
    assert Precedes(order, d, f);
    if db.byName[d].category <= db.byName[f].category {
      VisitedBefore(db, order, CATEGORIES, d, f);
    }
  }

  /** Indirect dependencies come first as well, along any chain on which no dependency depends
      back; so all of them do on a graph without cycles. */
  lemma {:induction false} ChainFirst(db: Database, roots: seq<string>, order: seq<string>, p: seq<string>)
    requires db.Consistent() && GoodOrder(db, roots, order)
    requires IsPath(db, p) && |p| > 1 && p[0] in order
    requires forall k :: 0 <= k < |p| - 1 ==> !Reach(db, p[k + 1], p[k])
    ensures Precedes(order, p[|p| - 1], p[0])
    decreases |p|
  {
    assert p[1] in Deps(db, p[0]) && !Reach(db, p[1], p[0]);
    DependencyFirst(db, roots, order, p[0], p[1]);
    if |p| > 2 {
      var q := p[1..];
      forall k | 0 <= k < |q| - 1 ensures q[k + 1] in Deps(db, q[k]) && !Reach(db, q[k + 1], q[k]) {
        assert q[k] == p[k + 1] && q[k + 1] == p[k + 2];
      }
      ChainFirst(db, roots, order, q);
      PrecedesTransitive(order, p[|p| - 1], p[1], p[0]);
    }
  }

  /** Position i holds the last script of the order on f's cycle. */
  ghost predicate LastOfCycle(db: Database, order: seq<string>, f: string, i: nat) {
    && i < |order| && Mutual(db, f, order[i])
    && forall k :: i < k < |order| ==> !Mutual(db, f, order[k])
  }

  lemma {:induction false} CycleHasLast(db: Database, order: seq<string>, f: string) returns (i: nat)
    requires f in order
    ensures LastOfCycle(db, order, f, i)
  {
    var j :| 0 <= j < |order| && order[j] == f;
    ReachSelf(db, f);
    i := |order| - 1;
    while !Mutual(db, f, order[i])
      invariant j <= i < |order| && forall k :: i < k < |order| ==> !Mutual(db, f, order[k])
      decreases i
    {
      i := i - 1;
    }
  }

  lemma CycleMember(db: Database, roots: seq<string>, f: string, a: string, g: string)
    requires Mutual(db, f, a) && Mutual(db, a, g) && ReachedFrom(db, roots, f)
    ensures Mutual(db, f, g) && ReachedFrom(db, roots, g)
  {
    ReachTransitive(db, f, a, g);
    ReachTransitive(db, g, a, f);
    var r :| r in roots && Reach(db, r, f);
    ReachTransitive(db, r, f, g);
  }

  lemma LastMember(db: Database, order: seq<string>, f: string, i: nat, g: string)
    requires LastOfCycle(db, order, f, i) && Mutual(db, f, g) && g in order
    ensures g in order[..i + 1]
  {
    var k :| 0 <= k < |order| && order[k] == g;
    assert k <= i;
    assert order[..i + 1][k] == g;
  }

  /** Everything on the cycle is in the order up to its last script. */
  lemma CycleClosed(db: Database, roots: seq<string>, order: seq<string>, f: string, i: nat)
    requires forall g :: ReachedFrom(db, roots, g) ==> g in order
    requires ReachedFrom(db, roots, f) && LastOfCycle(db, order, f, i)
    ensures !CycleOpen(db, order, i)
  {
    forall g | Mutual(db, order[i], g) ensures g in order[..i + 1] {
      CycleMember(db, roots, f, order[i], g);
      LastMember(db, order, f, i, g);
    }
  }

  /** Cycles included, and however indirect the dependency: a script that f depends on and that
      does not depend on f precedes the last script of f's cycle, hence f itself when f is on
      no cycle. */
  lemma {:induction false} CycleFirst(db: Database, roots: seq<string>, order: seq<string>, f: string, d: string)
    returns (i: nat)
    requires GoodOrder(db, roots, order)
    requires f in order && Reach(db, f, d) && !Reach(db, d, f)
    ensures LastOfCycle(db, order, f, i) && Precedes(order, d, order[i])
    ensures (forall g :: Mutual(db, f, g) ==> g == f) ==> order[i] == f
  {
    i := CycleHasLast(db, order, f);
    CycleClosed(db, roots, order, f, i);
    ReachTransitive(db, order[i], f, d);
    var j :| 0 <= j < |order[..i + 1]| && order[..i + 1][j] == d;
    assert order[j] == d && j != i;
  }

  lemma PrecedesTransitive(s: seq<string>, a: string, b: string, c: string)
    requires forall i, j :: 0 <= i < j < |s| ==> s[i] != s[j]
    requires Precedes(s, a, b) && Precedes(s, b, c)
    ensures Precedes(s, a, c)
  {
    var i, j :| 0 <= i < j < |s| && s[i] == a && s[j] == b;
    var k, l :| 0 <= k < l < |s| && s[k] == b && s[l] == c;
    assert j == k;
  }
}
