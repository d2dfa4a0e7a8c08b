/** The cache and the executor as objects, proved against KeyResolution and ScriptLoading. */
module Loader {
  import opened Common
  import opened Varint
  import opened Images
  import opened KeyResolution
  import opened ScriptLoading
  import opened Scripts

  /** The objects in a list stand for the loaded scripts of the model. */
  ghost predicate Represent(objects: seq<Script>, ls: seq<Loaded>)
    reads objects
  {
    |objects| == |ls| && forall i :: 0 <= i < |ls| ==> objects[i].Img() == ImgOf(ls[i])
  }

  lemma NotMoved(img: Image)
    requires img.instructionBase == 0 && img.constBase == 0
    ensures Relocated(img, 0, 0) == img
  {
    forall k | k in img.instructions ensures Moved(img.instructions[k], 0, 0) == img.instructions[k] {
      var ins := img.instructions[k];
      assert Moved(ins, 0, 0).refs == ins.refs;
    }
    assert Relocated(img, 0, 0).instructions == img.instructions;
  }

  class ScriptCache {
    var scripts: map<seq<Byte>, Script>
    var nextInsKey: nat
    ghost var model: Cache

    ghost function Objects(): set<object>
      reads this
    {
      set n | n in scripts :: scripts[n]
    }

    ghost predicate Valid()
      reads this, Objects()
    {
      && nextInsKey == model.nextKey && scripts.Keys == model.scripts.Keys
      && forall n :: n in scripts ==> scripts[n].Img() == ImgOf(model.scripts[n])
    }

    constructor ()
      ensures Valid() && model == Cache(map[], SHARED_BASE)
    {
      scripts, nextInsKey, model := map[], SHARED_BASE, Cache(map[], SHARED_BASE);
    }

    /** True when the script was put into the cache, and moved. */
    method OnNewScript(s: Script) returns (taken: bool)
      requires Valid() && s !in Objects() && Sound(s.Img())
      modifies this, s
      ensures Valid() && taken == GoesToCache(old(model), old(s.Img()))
      ensures model == if taken then Share(old(model), old(s.Img())) else old(model)
      ensures taken ==> scripts == old(scripts)[old(s.name) := s]
      ensures taken ==> s.Img() == ImgOf(Loaded(old(s.Img()), old(model).nextKey, old(model).nextKey))
      ensures !taken ==> scripts == old(scripts) && s.Img() == old(s.Img())
    {
      taken := false;
      if s.name !in scripts && Known(s.name) {
        ghost var img := s.Img();
        var _ := s.RelocateInstruction(nextInsKey, nextInsKey);
        nextInsKey := AlignTo(s.instructionBase + s.instructionKey + 1);
        scripts := scripts[s.name := s];
        model := Share(model, img);
        taken := true;
      }
    }
  }

  /** The part of the executor that holds the scripts it has loaded. */
  class LoadedScripts {
    var privates: seq<Script>
    var shared: seq<Script>
    const provider: ScriptCache?
    ghost var model: Exec

    constructor (provider: ScriptCache?)
      ensures this.provider == provider && Valid() && model == Exec([], [])
    {
      this.provider, privates, shared, model := provider, [], [], Exec([], []);
    }

    ghost predicate Valid()
      reads this, privates, shared
    {
      Represent(privates, model.privates) && Represent(shared, model.shared)
    }

    ghost function CacheModel(): Cache
      reads this, provider
    {
      if provider == null then Cache(map[], SHARED_BASE) else provider.model
    }

    ghost predicate Ready()
      reads this, privates, shared, provider, if provider == null then {} else provider.Objects()
    {
      Valid() && (provider != null ==> provider.Valid())
    }

    /** `found` is what the loader returns: a script object that nobody else holds yet. */
    method LoadScript(name: seq<Byte>, found: Script?) returns (r: Script?)
      requires Ready()
      requires found != null ==> Sound(found.Img()) && found !in privates && found !in shared
      requires found != null && provider != null ==> found !in provider.Objects()
      modifies this, if provider == null then {} else {provider}, if found == null then {} else {found}
      ensures Ready()
      ensures var img := if found == null then None else Some(old(found.Img()));
        var out := Load(old(CacheModel()), provider != null, old(model), name, img);
        && model == out.exec && CacheModel() == out.cache
        && (r == null <==> out.script.None?) && (r != null ==> r.Img() == ImgOf(out.script.value))
      ensures r == if provider != null && name in old(provider.scripts) then old(provider.scripts[name]) else found
    {
      if provider != null && name in provider.scripts {
        r := provider.scripts[name];
        TakeShared(r, provider.model.scripts[name]);
      } else {
        r := found;
        if found != null {
          TakeNew(found);
        }
      }
    }

    method TakeNew(found: Script)
      requires Ready() && Sound(found.Img()) && found !in privates && found !in shared
      requires provider != null ==> found !in provider.Objects()
      modifies this, if provider == null then {} else {provider}, found
      ensures Ready()
      ensures var out := LoadNew(old(CacheModel()), provider != null, old(model), old(found.Img()));
        && model == out.exec && CacheModel() == out.cache && found.Img() == ImgOf(out.script.value)
    {
      ghost var img, c := found.Img(), CacheModel();
      var taken := Offer(found);
      if taken {
        TakeShared(found, Loaded(img, c.nextKey, c.nextKey));
      } else {
        TakePrivate(found);
      }
    }

    /** A script from the cache; the cache stays as it is. */
    method TakeShared(s: Script, ghost l: Loaded)
      requires Ready() && s.Img() == ImgOf(l)
      modifies this`shared, this`model
      ensures Ready() && CacheModel() == old(CacheModel())
      ensures model == old(model).(shared := old(model).shared + [l])
    {
      AddShared(s, l);
    }

    /** A script that no cache takes. */
    method TakePrivate(found: Script)
      requires Ready() && Sound(found.Img()) && found !in privates && found !in shared
      requires provider != null ==> found !in provider.Objects()
      modifies this`privates, this`model, found
      ensures Ready() && CacheModel() == old(CacheModel())
      ensures model == old(model).(privates := old(model).privates + [Place(old(model), old(found.Img()))])
      ensures found.Img() == ImgOf(Place(old(model), old(found.Img())))
    {
      AddPrivate(found);
    }

    /** Without a cache nothing is taken. */
    method Offer(found: Script) returns (taken: bool)
      requires Ready() && Sound(found.Img()) && found !in privates && found !in shared
      requires provider != null ==> found !in provider.Objects()
      modifies if provider == null then {} else {provider}, found
      ensures Ready()
      ensures taken <==> provider != null && GoesToCache(old(CacheModel()), old(found.Img()))
      ensures CacheModel() == if taken then Share(old(CacheModel()), old(found.Img())) else old(CacheModel())
      ensures var key := old(CacheModel()).nextKey;
        found.Img() == if taken then ImgOf(Loaded(old(found.Img()), key, key)) else old(found.Img())
      ensures !taken && provider != null ==> found !in provider.Objects()
    {
      taken := false;
      if provider != null {
        taken := provider.OnNewScript(found);
      }
    }

    method AddShared(s: Script, ghost l: Loaded)
      requires Valid() && s.Img() == ImgOf(l)
      modifies this`shared, this`model
      ensures Valid() && model == old(model).(shared := old(model).shared + [l])
      ensures shared == old(shared) + [s]
    {
      shared := shared + [s];
      model := model.(shared := model.shared + [l]);
    }

    method AddPrivate(found: Script)
      requires Valid() && Sound(found.Img()) && found !in privates && found !in shared
      modifies this`privates, this`model, found
      ensures Valid()
      ensures model == old(model).(privates := old(model).privates + [Place(old(model), old(found.Img()))])
      ensures found.Img() == ImgOf(Place(old(model), old(found.Img())))
    {
      ghost var l, img := Place(model, found.Img()), found.Img();
      if |privates| > 0 {
        var last := privates[|privates| - 1];
        assert last.Img() == ImgOf(model.privates[|privates| - 1]);
        var _ := found.RelocateInstruction(
          AlignTo(last.instructionBase + last.instructionKey + 1), AlignTo(last.constBase + last.constKey + 1));
      } else {
        NotMoved(img);
      }
      assert found.Img() == Relocated(img, l.base, l.constBase);
      privates := privates + [found];
      model := model.(privates := model.privates + [l]);
    }

    /** The first script in the list whose instruction keys include `key`. */
    static method FindInstruction(list: seq<Script>, ghost ls: seq<Loaded>, key: nat) returns (s: Script?)
      requires Represent(list, ls)
      ensures Holder(Imgs(ls), HasInstruction, key) == if s == null then None else Some(s.Img())
    {
      s := null;
      ghost var imgs := Imgs(ls);
      for i := 0 to |list|
        invariant Holder(imgs, HasInstruction, key) == Holder(imgs[i..], HasInstruction, key)
      {
        assert imgs[i] == list[i].Img() && imgs[i..][1..] == imgs[i + 1..];
        if list[i].instructionBase <= key < list[i].instructionBase + list[i].instructionKey {
          return list[i];
        }
      }
    }

    static method FindConst(list: seq<Script>, ghost ls: seq<Loaded>, key: nat) returns (s: Script?)
      requires Represent(list, ls)
      ensures Holder(Imgs(ls), HasConst, key) == if s == null then None else Some(s.Img())
    {
      s := null;
      ghost var imgs := Imgs(ls);
      for i := 0 to |list|
        invariant Holder(imgs, HasConst, key) == Holder(imgs[i..], HasConst, key)
      {
        assert imgs[i] == list[i].Img() && imgs[i..][1..] == imgs[i + 1..];
        if list[i].constBase <= key < list[i].constBase + list[i].constKey {
          return list[i];
        }
      }
    }

    method InstructionOwner(key: nat) returns (s: Script?)
      requires Valid()
      ensures Claimant(TablesOf(model), HasInstruction, key) == if s == null then None else Some(s.Img())
    {
      s := null;
      if key >= SHARED_BASE {
        s := FindInstruction(shared, model.shared, key);
      }
      if s == null {
        s := FindInstruction(privates, model.privates, key);
      }
    }

    /** None where the source throws. */
    method GetInstruction(key: nat) returns (r: Option<Instruction>)
      requires Valid()
      ensures r == Resolve(TablesOf(model), key)
    {
      var s := InstructionOwner(key);
      r := if s == null then None else InScript(s, key);
    }

    static function InScript(s: Script, key: nat): (r: Option<Instruction>)
      reads s
      ensures r == Lookup(s.Img(), key)
    {
      var k := Offset(key, s.instructionBase);
      if k in s.instructionTable then Some(s.instructionTable[k]) else None
    }

    method GetInstructions(keys: seq<nat>) returns (r: Option<seq<Instruction>>)
      requires Valid()
      ensures r == ResolveAll(TablesOf(model), keys)
    {
      if |keys| == 0 {
        return Some([]);
      }
      var s := InstructionOwner(keys[0]);
      if s == null {
        return None;
      }
      r := AllInScript(s, keys);
    }

    static method AllInScript(s: Script, keys: seq<nat>) returns (r: Option<seq<Instruction>>)
      ensures r == LookupAll(s.Img(), keys)
    {
      var result := [];
      for i := 0 to |keys|
        invariant |result| == i
        invariant forall j :: 0 <= j < i ==> Lookup(s.Img(), keys[j]) == Some(result[j])
      {
        var ins := InScript(s, keys[i]);
        if ins.None? {
          return None;
        }
        result := result + [ins.value];
      }
      r := Some(result);
      assert LookupAll(s.Img(), keys).Some? ==> LookupAll(s.Img(), keys).value == result;
    }

    method GetConstValue(key: nat) returns (r: Option<Const>)
      requires Valid()
      ensures r == ResolveConst(TablesOf(model), key)
    {
      var s: Script? := null;
      if key >= SHARED_BASE {
        s := FindConst(shared, model.shared, key);
      }
      if s == null {
        s := FindConst(privates, model.privates, key);
      }
      if s == null {
        return None;
      }
      var k := Offset(key, s.constBase);
      r := if k in s.constTable then Some(s.constTable[k]) else None;
    }

    method Reset()
      modifies this
      ensures Valid() && model == Exec([], [])
    {
      privates, shared, model := [], [], Exec([], []);
    }
  }
}
