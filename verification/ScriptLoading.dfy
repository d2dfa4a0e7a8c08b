/** Loading scripts, any number of times and into any number of executors that share one
    cache: no two scripts an executor holds claim the same key. */
module ScriptLoading {
  import opened Common
  import opened Varint
  import opened Images
  import opened KeyResolution

  /** ALGINTO(key, 1000) */
  function AlignTo(key: nat): (r: nat)
    ensures key < r <= key + 1000 && r % 1000 == 0
  {
    (key / 1000 + 1) * 1000
  }

  /** The scripts that are kept in the cache. */
  function Ascii(s: string): seq<Byte> {
    seq(|s|, i requires 0 <= i < |s| => (s[i] as int) % 256)
  }

  predicate Known(name: seq<Byte>) {
    || name == Ascii("nasl.sc") || name == Ascii("http_func.inc.sc") || name == Ascii("http_keepalive.inc.sc")
    || name == Ascii("win_base.inc.sc") || name == Ascii("win_warp.inc.sc")
  }

  datatype Cache = Cache(scripts: map<seq<Byte>, Loaded>, nextKey: nat)

  function EndOf(l: Loaded): nat {
    l.base + l.origin.instructionKey
  }

  function ConstEndOf(l: Loaded): nat {
    l.constBase + l.origin.constKey
  }

  /** The first private script stays where it is, a later one goes behind the last. */
  function Place(e: Exec, img: Image): Loaded {
    if |e.privates| == 0 then Loaded(img, 0, 0)
    else
      var last := e.privates[|e.privates| - 1];
      Loaded(img, AlignTo(EndOf(last) + 1), AlignTo(ConstEndOf(last) + 1))
  }

  datatype Outcome = Outcome(cache: Cache, exec: Exec, script: Option<Loaded>)

  /** OnNewScript. */
  predicate GoesToCache(c: Cache, img: Image) {
    Known(img.name) && img.name !in c.scripts
  }

  function Share(c: Cache, img: Image): Cache {
    Cache(c.scripts[img.name := Loaded(img, c.nextKey, c.nextKey)], AlignTo(c.nextKey + img.instructionKey + 1))
  }

  /** A script that was not cached goes to the cache or to the private scripts. */
  function LoadNew(c: Cache, provider: bool, e: Exec, img: Image): Outcome {
    if provider && GoesToCache(c, img) then
      var l := Loaded(img, c.nextKey, c.nextKey);
      Outcome(Share(c, img), e.(shared := e.shared + [l]), Some(l))
    else
      var l := Place(e, img);
      Outcome(c, e.(privates := e.privates + [l]), Some(l))
  }

  /** LoadScript; `img` is what the loader finds under the name. */
  function Load(c: Cache, provider: bool, e: Exec, name: seq<Byte>, img: Option<Image>): Outcome {
    if provider && name in c.scripts then
      Outcome(c, e.(shared := e.shared + [c.scripts[name]]), Some(c.scripts[name]))
    else if img.None? then Outcome(c, e, None)
    else LoadNew(c, provider, e, img.value)
  }

  /** The next multiple of 1000 above a key. */
  ghost predicate NextThousand(r: nat, key: nat) {
    r % 1000 == 0 && key < r <= key + 1000
  }

  /** Where a script goes that was not cached. In the cache: to the key the cache hands out next,
      with both tables, and the one after is the next multiple of 1000 above its instructions.
      In the executor: the first script stays at 0, each later one goes to the next multiples
      of 1000 above the tables of the one before it. */
  lemma {:induction false} LoadPlaces(c: Cache, provider: bool, e: Exec, img: Image)
    requires !(provider && img.name in c.scripts)
    ensures var o := Load(c, provider, e, img.name, Some(img));
      provider && Known(img.name) ==>
        && o.script == Some(Loaded(img, c.nextKey, c.nextKey))
        && o.cache.scripts == c.scripts[img.name := o.script.value]
        && NextThousand(o.cache.nextKey, c.nextKey + img.instructionKey + 1)
    ensures var o := Load(c, provider, e, img.name, Some(img));
      !(provider && Known(img.name)) ==>
        && o.cache == c && o.script.Some? && o.script.value.origin == img
        && (|e.privates| == 0 ==> o.script.value.base == 0 && o.script.value.constBase == 0)
        && (|e.privates| > 0 ==>
              var last := e.privates[|e.privates| - 1];
              && NextThousand(o.script.value.base, last.base + last.origin.instructionKey + 1)
              && NextThousand(o.script.value.constBase, last.constBase + last.origin.constKey + 1))
  {
  }

  // ----- the state of all executors -----

  datatype World = World(cache: Cache, execs: seq<Exec>)

  datatype Event =
    | Loading(provider: bool, exec: nat, name: seq<Byte>, img: Option<Image>)
    | Reset(exec: nat)

  function Next(w: World, v: Event): World {
    if v.exec >= |w.execs| then w else
    match v
    case Loading(provider, i, name, img) =>
      var out := Load(w.cache, provider, w.execs[i], name, img);
      World(out.cache, w.execs[i := out.exec])
    case Reset(i) => w.(execs := w.execs[i := Exec([], [])])
  }

  function Run(w: World, vs: seq<Event>): World
    decreases |vs|
  {
    if |vs| == 0 then w else Run(Next(w, vs[0]), vs[1..])
  }

  /** What is loaded is a sound script, and keys stay within 32 bits: private ones below the
      shared base. */
  ghost predicate Room(w: World, v: Event) {
    v.Loading? && v.exec < |w.execs| && v.img.Some? ==>
      && Sound(v.img.value)
      && Share(w.cache, v.img.value).nextKey < KEYS
      && PrivateOk(Place(w.execs[v.exec], v.img.value))
  }

  ghost predicate RoomFor(w: World, vs: seq<Event>)
    decreases |vs|
  {
    |vs| > 0 ==> Room(w, vs[0]) && RoomFor(Next(w, vs[0]), vs[1..])
  }

  // ----- the invariant -----

  ghost predicate CacheOk(c: Cache) {
    && SHARED_BASE <= c.nextKey < KEYS
    && (forall n :: n in c.scripts ==> SharedOk(c.scripts[n]) && EndOf(c.scripts[n]) < c.nextKey)
    && (forall n, m :: n in c.scripts && m in c.scripts && n != m ==>
         !KeysMeet(c.scripts[n], c.scripts[m]) && !ConstsMeet(c.scripts[n], c.scripts[m]))
  }

  ghost predicate Behind(a: Loaded, b: Loaded) {
    EndOf(a) < b.base && ConstEndOf(a) < b.constBase
  }

  ghost predicate PrivatesOk(ls: seq<Loaded>) {
    && (forall i :: 0 <= i < |ls| ==> PrivateOk(ls[i]))
    && (forall i, j :: 0 <= i < j < |ls| ==> Behind(ls[i], ls[j]))
  }

  ghost predicate Cached(c: Cache, l: Loaded) {
    exists n :: n in c.scripts && c.scripts[n] == l
  }

  ghost predicate SharesCache(c: Cache, ls: seq<Loaded>) {
    forall i :: 0 <= i < |ls| ==> Cached(c, ls[i])
  }

  ghost predicate WorldOk(w: World) {
    && CacheOk(w.cache)
    && forall i :: 0 <= i < |w.execs| ==> PrivatesOk(w.execs[i].privates) && SharesCache(w.cache, w.execs[i].shared)
  }

  lemma {:induction false} ShareOk(c: Cache, img: Image)
    requires CacheOk(c) && Sound(img) && img.name !in c.scripts && Share(c, img).nextKey < KEYS
    ensures CacheOk(Share(c, img)) && Cached(Share(c, img), Loaded(img, c.nextKey, c.nextKey))
  {
    var r := Share(c, img);
    assert r.scripts[img.name] == Loaded(img, c.nextKey, c.nextKey);
  }

  /** Two scripts cached one after the other share constant keys exactly when the first has
      more constants than its instructions, rounded up, leave room for. */
  lemma {:induction false} ConstantsCollide(c: Cache, a: Image, b: Image)
    requires b.constKey > 0
    ensures var key := Share(c, a).nextKey;
      ConstsMeet(Loaded(a, c.nextKey, c.nextKey), Loaded(b, key, key)) <==> c.nextKey + a.constKey > key
    ensures a.constKey > a.instructionKey + 1001 ==> c.nextKey + a.constKey > Share(c, a).nextKey
    ensures a.constKey <= a.instructionKey ==> c.nextKey + a.constKey < Share(c, a).nextKey
  {
    assert Share(c, a).nextKey <= c.nextKey + a.instructionKey + 1001;
  }

  lemma StaysCached(c: Cache, img: Image, l: Loaded)
    requires Cached(c, l) && img.name !in c.scripts
    ensures Cached(Share(c, img), l)
  {
    var n :| n in c.scripts && c.scripts[n] == l;
    assert Share(c, img).scripts[n] == l;
  }

  lemma {:induction false} PlaceOk(e: Exec, img: Image)
    requires PrivatesOk(e.privates) && PrivateOk(Place(e, img))
    ensures PrivatesOk(e.privates + [Place(e, img)])
  {
    var ls := e.privates + [Place(e, img)];
    forall i, j | 0 <= i < j < |ls| ensures Behind(ls[i], ls[j]) {
      if j == |e.privates| && i < j - 1 {
        assert Behind(ls[i], ls[j - 1]);
      }
    }
  }

  lemma NextOk(w: World, v: Event)
    requires WorldOk(w) && Room(w, v)
    ensures WorldOk(Next(w, v))
  {
    if v.Loading? && v.exec < |w.execs| {
      LoadOk(w, v.provider, v.exec, v.name, v.img);
    }
  }

  lemma LoadOk(w: World, provider: bool, i: nat, name: seq<Byte>, img: Option<Image>)
    requires WorldOk(w) && i < |w.execs| && Room(w, Loading(provider, i, name, img))
    ensures WorldOk(Next(w, Loading(provider, i, name, img)))
  {
    var c, e := w.cache, w.execs[i];
    var r := Next(w, Loading(provider, i, name, img));
    if provider && name in c.scripts {
      assert Cached(c, c.scripts[name]);
    } else if img.None? {
    } else if provider && GoesToCache(c, img.value) {
      ShareOk(c, img.value);
      forall j | 0 <= j < |r.execs| ensures SharesCache(r.cache, r.execs[j].shared) {
        forall k | 0 <= k < |r.execs[j].shared| ensures Cached(r.cache, r.execs[j].shared[k]) {
          if k < |w.execs[j].shared| {
            StaysCached(c, img.value, w.execs[j].shared[k]);
          }
        }
      }
    } else {
      PlaceOk(e, img.value);
    }
  }

  /** The invariant tells all scripts of an executor apart. */
  lemma WorldMakesExecOk(w: World, i: nat)
    requires WorldOk(w) && i < |w.execs|
    ensures ExecOk(w.execs[i])
  {
    var c, e := w.cache, w.execs[i];
    forall a, b | 0 <= a < |e.shared| && 0 <= b < |e.shared|
      ensures KeysMeet(e.shared[a], e.shared[b]) || ConstsMeet(e.shared[a], e.shared[b]) ==> e.shared[a] == e.shared[b]
    {
      assert Cached(c, e.shared[a]) && Cached(c, e.shared[b]);
      var n :| n in c.scripts && c.scripts[n] == e.shared[a];
      var m :| m in c.scripts && c.scripts[m] == e.shared[b];
    }
    forall a | 0 <= a < |e.shared| ensures SharedOk(e.shared[a]) {
      assert Cached(c, e.shared[a]);
    }
    PrivatesDisjoint(e.privates);
  }

  lemma PrivatesDisjoint(ls: seq<Loaded>)
    requires PrivatesOk(ls)
    ensures Disjoint(ls)
  {
    forall a, b | 0 <= a < |ls| && 0 <= b < |ls|
      ensures KeysMeet(ls[a], ls[b]) || ConstsMeet(ls[a], ls[b]) ==> ls[a] == ls[b]
    {
      if a < b {
        assert Behind(ls[a], ls[b]);
      } else if b < a {
        assert Behind(ls[b], ls[a]);
      }
    }
  }

  /** A load adds the script it returns and drops none. */
  lemma {:induction false} LoadHolds(c: Cache, provider: bool, e: Exec, name: seq<Byte>, img: Option<Image>, l: Loaded)
    requires var out := Load(c, provider, e, name, img); Holds(e, l) || out.script == Some(l)
    ensures Holds(Load(c, provider, e, name, img).exec, l)
  {
    var r := Load(c, provider, e, name, img).exec;
    if InList(l, e.privates) {
      var i :| 0 <= i < |e.privates| && e.privates[i] == l;
      assert r.privates[i] == l;
    } else if InList(l, e.shared) {
      var i :| 0 <= i < |e.shared| && e.shared[i] == l;
      assert r.shared[i] == l;
    } else if |r.privates| > |e.privates| {
      assert r.privates[|e.privates|] == l;
    } else {
      assert r.shared[|e.shared|] == l;
    }
  }

  function Start(n: nat): World {
    World(Cache(map[], SHARED_BASE), seq(n, i => Exec([], [])))
  }

  lemma {:induction false} RunOk(w: World, vs: seq<Event>)
    requires WorldOk(w) && RoomFor(w, vs)
    ensures WorldOk(Run(w, vs))
    decreases |vs|
  {
    if |vs| > 0 {
      NextOk(w, vs[0]);
      RunOk(Next(w, vs[0]), vs[1..]);
    }
  }

  /** After any sequence of loads by any number of executors, every executor tells its
      scripts apart and resolves each reference of each of them as it was before. */
  lemma {:induction false} LoadedScriptsResolve(n: nat, vs: seq<Event>, i: nat, l: Loaded, k: nat, depth: nat)
    requires RoomFor(Start(n), vs) && i < |Run(Start(n), vs).execs|
    requires Holds(Run(Start(n), vs).execs[i], l) && k in l.origin.instructions
    ensures ExecOk(Run(Start(n), vs).execs[i]) && k in ImgOf(l).instructions
    ensures Resolve(TablesOf(Run(Start(n), vs).execs[i]), k + l.base) == Some(ImgOf(l).instructions[k])
    ensures TreeAt(TablesOf(Run(Start(n), vs).execs[i]), ImgOf(l).instructions[k], depth)
         == TreeIn(l.origin, l.origin.instructions[k], depth)
  {
    RunOk(Start(n), vs);
    WorldMakesExecOk(Run(Start(n), vs), i);
    KeyResolves(Run(Start(n), vs).execs[i], l, k);
    RelocationKeepsTrees(Run(Start(n), vs).execs[i], l, k, depth);
  }
}
