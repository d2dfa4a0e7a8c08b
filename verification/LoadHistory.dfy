/** What a load returns, and what an executor holds after any number of loads and resets. */
module LoadHistory {
  import opened Common
  import opened Varint
  import opened Images
  import opened KeyResolution
  import opened ScriptLoading

  // ----- one load -----

  /** A load answers from the cache if it may and can, else with what the loader found, and it
      returns nothing exactly when neither has the name. */
  lemma {:induction false} LoadMeans(c: Cache, provider: bool, e: Exec, name: seq<Byte>, img: Option<Image>)
    ensures var out := Load(c, provider, e, name, img);
      && (out.script.None? <==> !(provider && name in c.scripts) && img.None?)
      && (out.script.None? ==> out.exec == e && out.cache == c)
      && (out.script.Some? ==> Holds(out.exec, out.script.value))
      && (provider && name in c.scripts ==> out.script == Some(c.scripts[name]) && out.cache == c)
      && (!(provider && name in c.scripts) && img.Some? ==> out.script.Some? && out.script.value.origin == img.value)
  {
    var out := Load(c, provider, e, name, img);
    if out.script.Some? {
      LoadHolds(c, provider, e, name, img, out.script.value);
    }
  }

  /** The scripts that may be kept, by name. */
  const KEPT := {"nasl.sc", "http_func.inc.sc", "http_keepalive.inc.sc", "win_base.inc.sc", "win_warp.inc.sc"}

  /** A load changes the cache only by one script, found under one of the five names, that is not
      there yet. */
  lemma {:induction false} CacheGrows(c: Cache, provider: bool, e: Exec, name: seq<Byte>, img: Option<Image>)
    ensures var out := Load(c, provider, e, name, img);
      if provider && name !in c.scripts && img.Some? && img.value.name !in c.scripts
         && exists n :: n in KEPT && Ascii(n) == img.value.name
      then
        && out.cache.scripts.Keys == c.scripts.Keys + {img.value.name}
        && out.script == Some(out.cache.scripts[img.value.name])
        && forall n :: n in c.scripts ==> out.cache.scripts[n] == c.scripts[n]
      else out.cache == c
  {
    if img.Some? {
      KnownNames(img.value.name);
    }
  }

  lemma KnownNames(name: seq<Byte>)
    ensures Known(name) <==> exists n :: n in KEPT && Ascii(n) == name
  {
    assert "nasl.sc" in KEPT && "http_func.inc.sc" in KEPT && "http_keepalive.inc.sc" in KEPT;
    assert "win_base.inc.sc" in KEPT && "win_warp.inc.sc" in KEPT;
  }

  // ----- runs -----

  lemma {:induction false} RunLast(w: World, vs: seq<Event>, v: Event)
    ensures Run(w, vs + [v]) == Next(Run(w, vs), v)
    decreases |vs|
  {
    if |vs| == 0 {
      assert (vs + [v])[1..] == [];
    } else {
      assert (vs + [v])[1..] == vs[1..] + [v];
      RunLast(Next(w, vs[0]), vs[1..], v);
    }
  }

  lemma RunStep(w: World, vs: seq<Event>, k: nat)
    requires k < |vs|
    ensures Run(w, vs[..k + 1]) == Next(Run(w, vs[..k]), vs[k])
  {
    assert vs[..k + 1] == vs[..k] + [vs[k]];
    RunLast(w, vs[..k], vs[k]);
  }

  lemma {:induction false} RunKeepsExecs(w: World, vs: seq<Event>)
    ensures |Run(w, vs).execs| == |w.execs|
    decreases |vs|
  {
    if |vs| > 0 {
      RunKeepsExecs(Next(w, vs[0]), vs[1..]);
    }
  }

  /** What event k of a run hands to its executor. */
  function ReturnedAt(w: World, vs: seq<Event>, k: nat): Option<Loaded>
    requires k < |vs|
  {
    var now, v := Run(w, vs[..k]), vs[k];
    if v.Reset? || v.exec >= |now.execs| then None
    else Load(now.cache, v.provider, now.execs[v.exec], v.name, v.img).script
  }

  /** Event k returned the script to executor i, which was not reset up to event n. */
  ghost predicate KeptSince(w: World, vs: seq<Event>, i: nat, l: Loaded, k: nat, n: nat)
    requires n <= |vs|
  {
    && k < n && vs[k].Loading? && vs[k].exec == i && ReturnedAt(w, vs, k) == Some(l)
    && forall b :: k < b < n ==> vs[b] != Reset(i)
  }

  ghost predicate Kept(w: World, vs: seq<Event>, i: nat, l: Loaded, n: nat)
    requires n <= |vs|
  {
    exists k: nat :: KeptSince(w, vs, i, l, k, n)
  }

  /** After any run an executor holds exactly the scripts its loads returned since it was last
      reset. */
  lemma {:induction false} HoldsReturned(n: nat, vs: seq<Event>, i: nat, l: Loaded, m: nat)
    requires i < n && m <= |vs|
    ensures |Run(Start(n), vs[..m]).execs| == n
    ensures Holds(Run(Start(n), vs[..m]).execs[i], l) <==> Kept(Start(n), vs, i, l, m)
    decreases m
  {
    RunKeepsExecs(Start(n), vs[..m]);
    if m > 0 {
      HoldsReturned(n, vs, i, l, m - 1);
      RunStep(Start(n), vs, m - 1);
      HeldNext(Run(Start(n), vs[..m - 1]), vs[m - 1], i, l);
      KeptNext(Start(n), vs, i, l, m - 1);
    }
  }

  /** One event: a load adds what it returns, a reset of this executor takes all away. */
  lemma HeldNext(w: World, v: Event, i: nat, l: Loaded)
    requires i < |w.execs|
    ensures |Next(w, v).execs| == |w.execs|
    ensures var loaded := v.Loading? && v.exec == i
                       && Load(w.cache, v.provider, w.execs[i], v.name, v.img).script == Some(l);
      Holds(Next(w, v).execs[i], l) <==> v != Reset(i) && (Holds(w.execs[i], l) || loaded)
  {
    if v.Loading? && v.exec == i {
      LoadedExactly(w.cache, v.provider, w.execs[i], v.name, v.img, l);
    }
  }

  lemma LoadedExactly(c: Cache, provider: bool, e: Exec, name: seq<Byte>, img: Option<Image>, l: Loaded)
    ensures var out := Load(c, provider, e, name, img);
      Holds(out.exec, l) <==> Holds(e, l) || out.script == Some(l)
  {
    var r := Load(c, provider, e, name, img).exec;
    if Holds(e, l) || Load(c, provider, e, name, img).script == Some(l) {
      LoadHolds(c, provider, e, name, img, l);
    }
    if InList(l, r.privates) {
      var j :| 0 <= j < |r.privates| && r.privates[j] == l;
      assert j < |e.privates| ==> e.privates[j] == l;
    }
    if InList(l, r.shared) {
      var j :| 0 <= j < |r.shared| && r.shared[j] == l;
      assert j < |e.shared| ==> e.shared[j] == l;
    }
  }

  lemma KeptNext(w: World, vs: seq<Event>, i: nat, l: Loaded, m: nat)
    requires m < |vs|
    ensures var loaded := vs[m].Loading? && vs[m].exec == i && ReturnedAt(w, vs, m) == Some(l);
      Kept(w, vs, i, l, m + 1) <==> vs[m] != Reset(i) && (Kept(w, vs, i, l, m) || loaded)
  {
    if Kept(w, vs, i, l, m + 1) {
      var k: nat :| KeptSince(w, vs, i, l, k, m + 1);
      assert k < m ==> KeptSince(w, vs, i, l, k, m);
    }
    if vs[m] != Reset(i) {
      if Kept(w, vs, i, l, m) {
        var k: nat :| KeptSince(w, vs, i, l, k, m);
        assert KeptSince(w, vs, i, l, k, m + 1);
      }
      if vs[m].Loading? && vs[m].exec == i && ReturnedAt(w, vs, m) == Some(l) {
        assert KeptSince(w, vs, i, l, m, m + 1);
      }
    }
  }

  // ----- the cache over a run -----

  /** Every script is cached under its own name. */
  ghost predicate CachedByName(c: Cache) {
    forall n :: n in c.scripts ==> c.scripts[n].origin.name == n
  }

  ghost predicate CacheKept(c: Cache, d: Cache) {
    forall n :: n in c.scripts ==> n in d.scripts && d.scripts[n] == c.scripts[n]
  }

  lemma NextKeepsCache(w: World, v: Event)
    ensures CacheKept(w.cache, Next(w, v).cache)
    ensures CachedByName(w.cache) ==> CachedByName(Next(w, v).cache)
  {
  }

  lemma {:induction false} RunKeepsCache(w: World, vs: seq<Event>, k: nat, m: nat)
    requires k <= m <= |vs|
    ensures CacheKept(Run(w, vs[..k]).cache, Run(w, vs[..m]).cache)
    ensures CachedByName(Run(w, vs[..k]).cache) ==> CachedByName(Run(w, vs[..m]).cache)
    decreases m
  {
    if k < m {
      RunKeepsCache(w, vs, k, m - 1);
      RunStep(w, vs, m - 1);
      NextKeepsCache(Run(w, vs[..m - 1]), vs[m - 1]);
    }
  }

  lemma {:induction false} NamedOverRun(n: nat, vs: seq<Event>, m: nat)
    requires m <= |vs|
    ensures CachedByName(Run(Start(n), vs[..m]).cache)
  {
    assert vs[..0] == [];
    RunKeepsCache(Start(n), vs, 0, m);
  }

  /** What a load of the run answered from the cache or put there. */
  lemma InCacheAfter(w: World, vs: seq<Event>, k: nat, x: Loaded)
    requires k < |vs| && vs[k].Loading? && vs[k].provider && ReturnedAt(w, vs, k) == Some(x)
    requires CachedByName(Run(w, vs[..k]).cache)
    requires vs[k].name == x.origin.name && Known(x.origin.name)
    ensures var c := Run(w, vs[..k + 1]).cache; x.origin.name in c.scripts && c.scripts[x.origin.name] == x
  {
    RunStep(w, vs, k);
  }

  /** One of the kept scripts, loaded under its name through the cache, is what every later load
      of that name through the cache returns, to whatever executor. */
  lemma {:induction false} LoadedAgain(n: nat, vs: seq<Event>, k: nat, l: nat, x: Loaded)
    requires k < l < |vs| && vs[k].Loading? && vs[k].provider && vs[l].Loading? && vs[l].provider
    requires ReturnedAt(Start(n), vs, k) == Some(x) && vs[l].exec < n
    requires vs[k].name == vs[l].name == x.origin.name && Known(x.origin.name)
    ensures ReturnedAt(Start(n), vs, l) == Some(x)
  {
    NamedOverRun(n, vs, k);
    InCacheAfter(Start(n), vs, k, x);
    RunKeepsCache(Start(n), vs, k + 1, l);
    RunKeepsExecs(Start(n), vs[..l]);
  }

  /** What a load of a run returns was found by it or, through the cache, has the name asked for. */
  lemma {:induction false} ReturnedIsFound(n: nat, vs: seq<Event>, k: nat)
    requires k < |vs| && vs[k].Loading? && vs[k].exec < n
    ensures var now, v := Run(Start(n), vs[..k]), vs[k];
      var r := ReturnedAt(Start(n), vs, k);
      && (r.None? <==> v.img.None? && !(v.provider && v.name in now.cache.scripts))
      && (r.Some? && v.provider && v.name in now.cache.scripts ==> r.value.origin.name == v.name)
      && (r.Some? && !(v.provider && v.name in now.cache.scripts) ==> v.img == Some(r.value.origin))
  {
    var now, v := Run(Start(n), vs[..k]), vs[k];
    NamedOverRun(n, vs, k);
    RunKeepsExecs(Start(n), vs[..k]);
    LoadMeans(now.cache, v.provider, now.execs[v.exec], v.name, v.img);
  }
}
