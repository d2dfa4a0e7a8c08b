/** Scripts as the parser leaves them: tables of instructions and constants addressed by
    integer keys. */
module Images {
  import opened Varint

  datatype Instruction = Instruction(opCode: nat, key: nat, name: seq<Byte>, refs: seq<nat>)

  datatype Const =
    | ByteConst(b: Byte)
    | IntegerConst(i: int)
    | FloatConst(bits: seq<Byte>)
    | StringConst(text: seq<Byte>)

  const KEYS: nat := 0x1_0000_0000

  const OP_CONST: nat := 1
  const OP_GROUP: nat := 9

  /** All fields of a Script; `entry` is the key of the entry point. */
  datatype Image = Image(
    name: seq<Byte>,
    entry: nat,
    instructions: map<nat, Instruction>,
    consts: map<nat, Const>,
    instructionKey: nat,
    constKey: nat,
    instructionBase: nat,
    constBase: nat)

  /** The refs a constant's instruction does not use as instruction keys. */
  ghost predicate GoodRefs(ins: Instruction, instructionKey: nat, constKey: nat) {
    if ins.opCode == OP_CONST then ins.refs != [] && ins.refs[0] < constKey
    else forall i :: 0 <= i < |ins.refs| ==> ins.refs[i] < instructionKey
  }

  /** Not relocated, keys and references below the counters. */
  ghost predicate Tidy(img: Image) {
    && img.instructionBase == 0 && img.constBase == 0
    && (forall k :: k in img.instructions ==>
          && k < img.instructionKey && img.instructions[k].key == k
          && GoodRefs(img.instructions[k], img.instructionKey, img.constKey))
    && (forall k :: k in img.consts ==> k < img.constKey)
  }

  /** What RelocateInstruction asserts of a script, and the order of the counters that lets
      both key ranges start at the same base. */
  ghost predicate Sound(img: Image) {
    Tidy(img) && img.constKey <= img.instructionKey
  }

  // ----- the builder -----

  datatype Step =
    | New(opCode: nat, name: seq<Byte>, refs: seq<nat>)
    | NewConst(value: Const)
    | Append(list: nat, element: nat)
    | SetEntry(key: nat)

  /** Every instruction handed to the builder is one it made. */
  ghost predicate Legal(img: Image, s: Step) {
    match s
    case New(op, _, refs) => op != OP_CONST && forall i :: 0 <= i < |refs| ==> refs[i] in img.instructions
    case NewConst(_) => true
    case Append(list, element) =>
      list in img.instructions && element in img.instructions && img.instructions[list].opCode != OP_CONST
    case SetEntry(key) => key in img.instructions
  }

  function NewImage(name: seq<Byte>): Image {
    Image(name, 0, map[0 := Instruction(0, 0, [], [])], map[], 1, 1, 0, 0)
  }

  function Add(img: Image, opCode: nat, name: seq<Byte>, refs: seq<nat>): Image {
    var key := img.instructionKey;
    img.(instructions := img.instructions[key := Instruction(opCode, key, name, refs)], instructionKey := key + 1)
  }

  function Apply(img: Image, s: Step): Image {
    match s
    case New(op, name, refs) => Add(img, op, name, refs)
    case NewConst(value) =>
      Add(img.(consts := img.consts[img.constKey := value], constKey := img.constKey + 1), OP_CONST, [], [img.constKey])
    case Append(list, element) =>
      if list !in img.instructions then img else
      var ins := img.instructions[list];
      img.(instructions := img.instructions[list := ins.(refs := ins.refs + [element])])
    case SetEntry(key) => img.(entry := key)
  }

  function Build(img: Image, steps: seq<Step>): Image
    decreases |steps|
  {
    if steps == [] then img else Build(Apply(img, steps[0]), steps[1..])
  }

  ghost predicate AllLegal(img: Image, steps: seq<Step>)
    decreases |steps|
  {
    steps != [] ==> Legal(img, steps[0]) && AllLegal(Apply(img, steps[0]), steps[1..])
  }

  ghost predicate RefsPresent(img: Image, ins: Instruction) {
    if ins.opCode == OP_CONST then ins.refs != [] && ins.refs[0] in img.consts
    else forall i :: 0 <= i < |ins.refs| ==> ins.refs[i] in img.instructions
  }

  /** No reference dangles, and the counters are the table sizes. */
  ghost predicate Whole(img: Image) {
    && Tidy(img) && img.entry in img.instructions
    && |img.instructions| == img.instructionKey && |img.consts| + 1 == img.constKey
    && (forall k :: k in img.instructions ==> RefsPresent(img, img.instructions[k]))
  }

  lemma AddKeepsWhole(img: Image, opCode: nat, name: seq<Byte>, refs: seq<nat>)
    requires Whole(img) && RefsPresent(img, Instruction(opCode, 0, name, refs))
    ensures Whole(Add(img, opCode, name, refs))
  {
    var r, key := Add(img, opCode, name, refs), img.instructionKey;
    assert key !in img.instructions;
    assert r.instructions.Keys == img.instructions.Keys + {key};
    forall k | k in r.instructions
      ensures RefsPresent(r, r.instructions[k]) && GoodRefs(r.instructions[k], r.instructionKey, r.constKey)
    {
      if k != key {
        assert RefsPresent(img, img.instructions[k]);
      }
    }
  }

  lemma ConstKeepsWhole(img: Image, value: Const)
    requires Whole(img)
    ensures Whole(img.(consts := img.consts[img.constKey := value], constKey := img.constKey + 1))
  {
    var r := img.(consts := img.consts[img.constKey := value], constKey := img.constKey + 1);
    assert img.constKey !in img.consts;
    assert r.consts.Keys == img.consts.Keys + {img.constKey};
    forall k | k in r.instructions
      ensures RefsPresent(r, r.instructions[k]) && GoodRefs(r.instructions[k], r.instructionKey, r.constKey)
    {
      assert RefsPresent(img, img.instructions[k]);
    }
  }

  lemma AppendKeepsWhole(img: Image, list: nat, element: nat)
    requires Whole(img) && Legal(img, Append(list, element))
    ensures Whole(Apply(img, Append(list, element)))
  {
    var r := Apply(img, Append(list, element));
    assert r.instructions.Keys == img.instructions.Keys;
    forall k | k in r.instructions
      ensures RefsPresent(r, r.instructions[k]) && GoodRefs(r.instructions[k], r.instructionKey, r.constKey)
    {
      assert RefsPresent(img, img.instructions[k]);
    }
  }

  /** Each builder call keeps a script whole and the const counter no higher than the
      instruction counter. */
  lemma {:induction false} ApplyKeepsSound(img: Image, s: Step)
    requires Whole(img) && Sound(img) && Legal(img, s)
    ensures Whole(Apply(img, s)) && Sound(Apply(img, s))
  {
    match s
    case New(op, name, refs) => AddKeepsWhole(img, op, name, refs);
    case NewConst(value) =>
      ConstKeepsWhole(img, value);
      var more := img.(consts := img.consts[img.constKey := value], constKey := img.constKey + 1);
      AddKeepsWhole(more, OP_CONST, [], [img.constKey]);
    case Append(list, element) => AppendKeepsWhole(img, list, element);
    case SetEntry(key) =>
      forall k | k in img.instructions ensures RefsPresent(Apply(img, s), img.instructions[k]) {
        assert RefsPresent(img, img.instructions[k]);
      }
  }

  lemma {:induction false} BuildKeepsSound(img: Image, steps: seq<Step>)
    requires Whole(img) && Sound(img) && AllLegal(img, steps)
    ensures Whole(Build(img, steps)) && Sound(Build(img, steps))
    decreases |steps|
  {
    if steps != [] {
      ApplyKeepsSound(img, steps[0]);
      BuildKeepsSound(Apply(img, steps[0]), steps[1..]);
    }
  }

  /** Every script a parser can build is sound and has no dangling reference. */
  lemma {:induction false} BuiltSound(name: seq<Byte>, steps: seq<Step>)
    requires AllLegal(NewImage(name), steps)
    ensures Whole(Build(NewImage(name), steps)) && Sound(Build(NewImage(name), steps))
  {
    BuildKeepsSound(NewImage(name), steps);
  }

  /** What one call of the builder leaves in the script. */
  lemma {:induction false} StepMeans(img: Image, s: Step)
    ensures var r := Apply(img, s);
      r.name == img.name && r.instructionBase == img.instructionBase && r.constBase == img.constBase
    ensures s.New? ==>
      var r, key := Apply(img, s), img.instructionKey;
      && r.instructions == img.instructions[key := Instruction(s.opCode, key, s.name, s.refs)]
      && r.instructionKey == key + 1 && r.consts == img.consts && r.constKey == img.constKey && r.entry == img.entry
    ensures s.NewConst? ==>
      var r, key, c := Apply(img, s), img.instructionKey, img.constKey;
      && r.consts == img.consts[c := s.value] && r.constKey == c + 1
      && r.instructions == img.instructions[key := Instruction(1, key, [], [c])]
      && r.instructionKey == key + 1 && r.entry == img.entry
    ensures s.SetEntry? ==> Apply(img, s) == img.(entry := s.key)
  {
  }

  /** Appending elements to a group one by one lists them in the order given, behind what the
      group held, and changes nothing else. */
  lemma {:induction false} GroupLists(img: Image, list: nat, elements: seq<nat>, steps: seq<Step>)
    requires list in img.instructions && |steps| == |elements|
    requires forall i :: 0 <= i < |steps| ==> steps[i] == Append(list, elements[i])
    ensures var group := img.instructions[list];
      Build(img, steps) ==
      img.(instructions := img.instructions[list := group.(refs := group.refs + elements)])
    decreases |steps|
  {
    var group := img.instructions[list];
    if steps == [] {
      assert group.refs + elements == group.refs;
      assert img.instructions[list := group] == img.instructions;
    } else {
      var next := Apply(img, steps[0]);
      assert steps[0] == Append(list, elements[0]);
      assert next.instructions[list].refs == group.refs + [elements[0]];
      GroupLists(next, list, elements[1..], steps[1..]);
      assert group.refs + [elements[0]] + elements[1..] == group.refs + elements;
    }
  }

  // ----- a script read from a file -----

  /** The image a reader builds: the same script with counters taken from the table sizes. */
  function Reread(img: Image): Image {
    img.(instructionKey := |img.instructions| + 1, constKey := |img.consts| + 1, instructionBase := 0, constBase := 0)
  }

  /** The counters a reader guesses are high enough. */
  lemma {:induction false} RereadSound(img: Image)
    requires Whole(img) && Sound(img)
    ensures Sound(Reread(img)) && Reread(img).instructionKey == img.instructionKey + 1
  {
  }

  // ----- relocation -----

  function Moved(ins: Instruction, base: nat, constBase: nat): Instruction {
    var refs := if ins.opCode == OP_CONST then
        if ins.refs == [] then [] else ins.refs[0 := ins.refs[0] + constBase]
      else seq(|ins.refs|, i requires 0 <= i < |ins.refs| => ins.refs[i] + base);
    ins.(refs := refs, key := ins.key + base)
  }

  function Relocated(img: Image, base: nat, constBase: nat): Image {
    img.(instructions := map k | k in img.instructions :: Moved(img.instructions[k], base, constBase),
         instructionBase := base, constBase := constBase)
  }

  /** Every key and every reference moves by its base, and nothing else does. */
  ghost predicate MovedBy(was: Instruction, now: Instruction, base: nat, constBase: nat) {
    && now.opCode == was.opCode && now.name == was.name && now.key == was.key + base
    && |now.refs| == |was.refs|
    && forall i :: 0 <= i < |was.refs| ==>
         now.refs[i] == was.refs[i] + if was.opCode != 1 then base else if i == 0 then constBase else 0
  }

  lemma {:induction false} RelocatedMeans(img: Image, base: nat, constBase: nat)
    ensures var r := Relocated(img, base, constBase);
      && r.instructions.Keys == img.instructions.Keys && r.consts == img.consts
      && r.name == img.name && r.entry == img.entry
      && r.instructionKey == img.instructionKey && r.constKey == img.constKey
      && r.instructionBase == base && r.constBase == constBase
      && forall k :: k in img.instructions ==> MovedBy(img.instructions[k], r.instructions[k], base, constBase)
  {
    var r := Relocated(img, base, constBase);
    forall k | k in img.instructions ensures MovedBy(img.instructions[k], r.instructions[k], base, constBase) {
    }
  }

  // ----- std::map iterates in key order -----

  ghost function Least(s: set<nat>): (k: nat)
    requires s != {}
    ensures k in s && forall j :: j in s ==> k <= j
    decreases |s|
  {
    var k :| k in s;
    var t := s - {k};
    if t == {} then
      assert forall j :: j in s ==> j == k by { forall j | j in s ensures j == k { assert j !in t; } }
      k
    else
      var m := Least(t);
      var least := if k < m then k else m;
      assert forall j :: j in s ==> least <= j by { forall j | j in s ensures least <= j { assert j == k || j in t; } }
      least
  }

  /** The keys of a std::map, in the order of its iterators. */
  ghost function SortedKeys(s: set<nat>): (keys: seq<nat>)
    ensures |keys| == |s|
    ensures forall k :: k in keys <==> k in s
    decreases |s|
  {
    if s == {} then []
    else
      var k := Least(s);
      [k] + SortedKeys(s - {k})
  }

  ghost predicate Ascending(keys: seq<nat>) {
    keys != [] ==> (forall k :: k in keys[1..] ==> keys[0] < k) && Ascending(keys[1..])
  }

  lemma {:induction false} KeysAscend(s: set<nat>)
    ensures Ascending(SortedKeys(s))
    decreases |s|
  {
    if s != {} {
      var k := Least(s);
      var keys, rest := SortedKeys(s), SortedKeys(s - {k});
      assert keys == [k] + rest && keys[1..] == rest;
      KeysAscend(s - {k});
      forall j | j in rest ensures k < j {
        assert j in s - {k};
      }
    }
  }

  /** One line of a table. */
  datatype Entry<+T> = Entry(key: nat, value: T)

  /** What iterating over the map yields. */
  ghost function Listing<T>(t: map<nat, T>): (es: seq<Entry<T>>)
    ensures |es| == |t|
    ensures forall i :: 0 <= i < |es| ==> es[i].key in t && es[i].value == t[es[i].key]
  {
    var keys := SortedKeys(t.Keys);
    assert forall i :: 0 <= i < |keys| ==> keys[i] in t by {
      forall i | 0 <= i < |keys| ensures keys[i] in t { assert keys[i] in keys; }
    }
    seq(|keys|, i requires 0 <= i < |keys| => Entry(keys[i], t[keys[i]]))
  }

  /** `acc` with the entries put in one after the other. */
  function Added<T>(acc: map<nat, T>, es: seq<Entry<T>>): map<nat, T>
    decreases |es|
  {
    if |es| == 0 then acc else Added(acc[es[0].key := es[0].value], es[1..])
  }

  lemma {:induction false} AddedHas<T>(acc: map<nat, T>, es: seq<Entry<T>>, t: map<nat, T>)
    requires forall i :: 0 <= i < |es| ==> es[i].key in t && es[i].value == t[es[i].key]
    requires forall k :: k in acc ==> k in t && acc[k] == t[k]
    ensures forall k :: k in Added(acc, es) ==> k in t && Added(acc, es)[k] == t[k]
    ensures forall k :: k in acc ==> k in Added(acc, es)
    ensures forall i :: 0 <= i < |es| ==> es[i].key in Added(acc, es)
    decreases |es|
  {
    if |es| > 0 {
      var acc' := acc[es[0].key := es[0].value];
      AddedHas(acc', es[1..], t);
      forall i | 0 <= i < |es| ensures es[i].key in Added(acc, es) {
        if i > 0 {
          assert es[i] == es[1..][i - 1];
        } else {
          assert es[0].key in acc';
        }
      }
    }
  }

  /** Putting all lines of a table into an empty one gives the table. */
  lemma {:induction false} ListingAll<T>(t: map<nat, T>)
    ensures Added(map[], Listing(t)) == t
  {
    var keys, es := SortedKeys(t.Keys), Listing(t);
    AddedHas(map[], es, t);
    forall k | k in t ensures k in Added(map[], es) {
      var i :| 0 <= i < |keys| && keys[i] == k;
      assert es[i].key == k;
    }
  }
}
