/** Several scripts in one executor: each is relocated into key ranges of its own, and a key
    found in a relocated script is looked up across all scripts the executor holds. */
module KeyResolution {
  import opened Common
  import opened Varint
  import opened Images

  const SHARED_BASE: nat := 0x8000_0000

  // ----- look-up in one script -----

  function NextKey(img: Image): nat {
    img.instructionBase + img.instructionKey
  }

  function NextConstKey(img: Image): nat {
    img.constBase + img.constKey
  }

  predicate HasInstruction(img: Image, key: nat) {
    img.instructionBase <= key < NextKey(img)
  }

  predicate HasConst(img: Image, key: nat) {
    img.constBase <= key < NextConstKey(img)
  }

  /** Unsigned 32-bit subtraction. */
  function Offset(key: nat, base: nat): nat {
    (key - base) % KEYS
  }

  lemma OffsetBack(k: nat, base: nat)
    requires k < KEYS
    ensures Offset(k + base, base) == k
  {
  }

  function Lookup(img: Image, key: nat): Option<Instruction> {
    var k := Offset(key, img.instructionBase);
    if k in img.instructions then Some(img.instructions[k]) else None
  }

  function LookupConst(img: Image, key: nat): Option<Const> {
    var k := Offset(key, img.constBase);
    if k in img.consts then Some(img.consts[k]) else None
  }

  /** None when one of the keys is unknown. */
  function LookupAll(img: Image, keys: seq<nat>): (r: Option<seq<Instruction>>)
    ensures r.Some? ==> |r.value| == |keys| && forall i :: 0 <= i < |keys| ==> Lookup(img, keys[i]) == Some(r.value[i])
    ensures r.None? ==> exists i :: 0 <= i < |keys| && Lookup(img, keys[i]) == None
    decreases |keys|
  {
    if |keys| == 0 then Some([])
    else
      var first := Lookup(img, keys[0]);
      var rest := LookupAll(img, keys[1..]);
      if first.Some? && rest.Some? then Some([first.value] + rest.value)
      else
        assert first.None? || exists i :: 1 <= i < |keys| && Lookup(img, keys[i]) == None by {
          if first.Some? {
            var i :| 0 <= i < |keys[1..]| && Lookup(img, keys[1..][i]) == None;
            assert keys[i + 1] == keys[1..][i];
          }
        }
        None
  }

  // ----- look-up across the scripts of an executor -----

  datatype Tables = Tables(privates: seq<Image>, shared: seq<Image>)

  /** The first script in the list that claims the key. */
  function Holder(list: seq<Image>, has: (Image, nat) -> bool, key: nat): Option<Image>
    decreases |list|
  {
    if |list| == 0 then None
    else if has(list[0], key) then Some(list[0])
    else Holder(list[1..], has, key)
  }

  /** Keys from the shared base up are looked for in the shared scripts first. */
  function Claimant(t: Tables, has: (Image, nat) -> bool, key: nat): Option<Image> {
    var s := if key >= SHARED_BASE then Holder(t.shared, has, key) else None;
    if s.Some? then s else Holder(t.privates, has, key)
  }

  function Resolve(t: Tables, key: nat): Option<Instruction> {
    var img := Claimant(t, HasInstruction, key);
    if img.None? then None else Lookup(img.value, key)
  }

  /** The first key decides which script is asked for all of them. */
  function ResolveAll(t: Tables, keys: seq<nat>): Option<seq<Instruction>> {
    if |keys| == 0 then Some([])
    else
      var img := Claimant(t, HasInstruction, keys[0]);
      if img.None? then None else LookupAll(img.value, keys)
  }

  function ResolveConst(t: Tables, key: nat): Option<Const> {
    var img := Claimant(t, HasConst, key);
    if img.None? then None else LookupConst(img.value, key)
  }

  lemma {:induction false} HolderFrom(list: seq<Image>, has: (Image, nat) -> bool, key: nat)
    ensures var h := Holder(list, has, key);
      if h.Some? then h.value in list && has(h.value, key)
      else forall i :: 0 <= i < |list| ==> !has(list[i], key)
    decreases |list|
  {
    if |list| > 0 && !has(list[0], key) {
      HolderFrom(list[1..], has, key);
      assert forall i :: 0 < i < |list| ==> list[i] == list[1..][i - 1];
    }
  }

  /** One of the scripts, whose key range holds the key and whose table holds its place in it. */
  ghost predicate Offers(t: Tables, img: Image, key: nat, ins: Instruction) {
    && (img in t.privates || img in t.shared)
    && img.instructionBase <= key < img.instructionBase + img.instructionKey
    && var k := (key - img.instructionBase) % 0x1_0000_0000;
       k in img.instructions && img.instructions[k] == ins
  }

  /** Whatever is held: what a key resolves to is offered by a script that claims it, and a key
      that no script claims resolves to nothing. */
  lemma {:induction false} ResolvesClaimed(t: Tables, key: nat)
    ensures var r := Resolve(t, key); r.Some? ==> exists img :: Offers(t, img, key, r.value)
    ensures (forall img :: img in t.privates || img in t.shared ==>
               !(img.instructionBase <= key < img.instructionBase + img.instructionKey)) ==> Resolve(t, key) == None
  {
    HolderFrom(t.shared, HasInstruction, key);
    HolderFrom(t.privates, HasInstruction, key);
    var img := Claimant(t, HasInstruction, key);
    if Resolve(t, key).Some? {
      assert Offers(t, img.value, key, Resolve(t, key).value);
    }
  }

  // ----- what an instruction stands for -----

  datatype Tree =
    | Deeper
    | Unknown
    | Leaf(value: Const)
    | Node(opCode: nat, name: seq<Byte>, children: seq<Tree>)

  /** The tree below an instruction, to a depth, as the script alone resolves it. */
  ghost function TreeIn(img: Image, ins: Instruction, depth: nat): Tree
    decreases depth
  {
    if depth == 0 then Deeper
    else if ins.opCode == OP_CONST then
      if |ins.refs| == 0 then Unknown
      else match LookupConst(img, ins.refs[0]) case Some(c) => Leaf(c) case None => Unknown
    else
      match LookupAll(img, ins.refs)
      case None => Unknown
      case Some(list) =>
        Node(ins.opCode, ins.name, seq(|list|, i requires 0 <= i < |list| => TreeIn(img, list[i], depth - 1)))
  }

  /** The same tree as an executor resolves it. */
  ghost function TreeAt(t: Tables, ins: Instruction, depth: nat): Tree
    decreases depth
  {
    if depth == 0 then Deeper
    else if ins.opCode == OP_CONST then
      if |ins.refs| == 0 then Unknown
      else match ResolveConst(t, ins.refs[0]) case Some(c) => Leaf(c) case None => Unknown
    else
      match ResolveAll(t, ins.refs)
      case None => Unknown
      case Some(list) =>
        Node(ins.opCode, ins.name, seq(|list|, i requires 0 <= i < |list| => TreeAt(t, list[i], depth - 1)))
  }

  // ----- loaded scripts -----

  /** A script as it was built or read, and where it was put. */
  datatype Loaded = Loaded(origin: Image, base: nat, constBase: nat)

  function ImgOf(l: Loaded): Image {
    Relocated(l.origin, l.base, l.constBase)
  }

  function Imgs(ls: seq<Loaded>): (r: seq<Image>)
    ensures |r| == |ls| && forall i :: 0 <= i < |ls| ==> r[i] == ImgOf(ls[i])
  {
    seq(|ls|, i requires 0 <= i < |ls| => ImgOf(ls[i]))
  }

  datatype Exec = Exec(privates: seq<Loaded>, shared: seq<Loaded>)

  function TablesOf(e: Exec): Tables {
    Tables(Imgs(e.privates), Imgs(e.shared))
  }

  predicate KeysMeet(a: Loaded, b: Loaded) {
    a.base < b.base + b.origin.instructionKey && b.base < a.base + a.origin.instructionKey
  }

  predicate ConstsMeet(a: Loaded, b: Loaded) {
    a.constBase < b.constBase + b.origin.constKey && b.constBase < a.constBase + a.origin.constKey
  }

  /** Different entries have disjoint key ranges and disjoint constant ranges. A shared
      script may be listed more than once. */
  ghost predicate Disjoint(ls: seq<Loaded>) {
    forall i, j :: 0 <= i < |ls| && 0 <= j < |ls| ==>
      KeysMeet(ls[i], ls[j]) || ConstsMeet(ls[i], ls[j]) ==> ls[i] == ls[j]
  }

  ghost predicate PrivateOk(l: Loaded) {
    && Sound(l.origin)
    && l.base + l.origin.instructionKey <= SHARED_BASE && l.constBase + l.origin.constKey <= SHARED_BASE
  }

  ghost predicate SharedOk(l: Loaded) {
    && Sound(l.origin) && l.base == l.constBase
    && SHARED_BASE <= l.base && l.base + l.origin.instructionKey < KEYS
  }

  /** All scripts of an executor are told apart by their keys. */
  ghost predicate ExecOk(e: Exec) {
    && Disjoint(e.privates) && Disjoint(e.shared)
    && (forall i :: 0 <= i < |e.privates| ==> PrivateOk(e.privates[i]))
    && (forall i :: 0 <= i < |e.shared| ==> SharedOk(e.shared[i]))
  }

  // ----- resolution after relocation -----

  ghost predicate InList(l: Loaded, ls: seq<Loaded>) {
    exists i :: 0 <= i < |ls| && ls[i] == l
  }

  ghost predicate Holds(e: Exec, l: Loaded) {
    InList(l, e.privates) || InList(l, e.shared)
  }

  lemma {:induction false} HolderFirst(list: seq<Image>, has: (Image, nat) -> bool, key: nat, img: Image, i: nat)
    requires i < |list| && list[i] == img && has(img, key)
    requires forall j :: 0 <= j < |list| && has(list[j], key) ==> list[j] == img
    ensures Holder(list, has, key) == Some(img)
    decreases |list|
  {
    if !has(list[0], key) {
      HolderFirst(list[1..], has, key, img, i - 1);
    }
  }

  /** A key in the range of one loaded script is looked up in that script. */
  lemma InstructionClaimed(e: Exec, l: Loaded, k: nat)
    requires ExecOk(e) && Holds(e, l) && k < l.origin.instructionKey
    ensures Claimant(TablesOf(e), HasInstruction, k + l.base) == Some(ImgOf(l))
  {
    var t, key := TablesOf(e), k + l.base;
    if InList(l, e.shared) {
      var i :| 0 <= i < |e.shared| && e.shared[i] == l;
      forall j | 0 <= j < |t.shared| && HasInstruction(t.shared[j], key) ensures t.shared[j] == ImgOf(l) {
        assert KeysMeet(e.shared[i], e.shared[j]);
      }
      HolderFirst(t.shared, HasInstruction, key, ImgOf(l), i);
    } else {
      var i :| 0 <= i < |e.privates| && e.privates[i] == l;
      forall j | 0 <= j < |t.privates| && HasInstruction(t.privates[j], key) ensures t.privates[j] == ImgOf(l) {
        assert KeysMeet(e.privates[i], e.privates[j]);
      }
      HolderFirst(t.privates, HasInstruction, key, ImgOf(l), i);
    }
  }

  lemma ConstClaimed(e: Exec, l: Loaded, k: nat)
    requires ExecOk(e) && Holds(e, l) && k < l.origin.constKey
    ensures Claimant(TablesOf(e), HasConst, k + l.constBase) == Some(ImgOf(l))
  {
    var t, key := TablesOf(e), k + l.constBase;
    if InList(l, e.shared) {
      var i :| 0 <= i < |e.shared| && e.shared[i] == l;
      forall j | 0 <= j < |t.shared| && HasConst(t.shared[j], key) ensures t.shared[j] == ImgOf(l) {
        assert ConstsMeet(e.shared[i], e.shared[j]);
      }
      HolderFirst(t.shared, HasConst, key, ImgOf(l), i);
    } else {
      var i :| 0 <= i < |e.privates| && e.privates[i] == l;
      forall j | 0 <= j < |t.privates| && HasConst(t.privates[j], key) ensures t.privates[j] == ImgOf(l) {
        assert ConstsMeet(e.privates[i], e.privates[j]);
      }
      HolderFirst(t.privates, HasConst, key, ImgOf(l), i);
    }
  }

  ghost predicate Small(l: Loaded) {
    Sound(l.origin) && l.origin.instructionKey <= KEYS
  }

  /** Looking up a moved key in the moved script. */
  lemma LookupMoved(l: Loaded, k: nat)
    requires Small(l) && k < l.origin.instructionKey
    ensures Lookup(l.origin, k) == (if k in l.origin.instructions then Some(l.origin.instructions[k]) else None)
    ensures Lookup(ImgOf(l), k + l.base) ==
      if k in l.origin.instructions then Some(Moved(l.origin.instructions[k], l.base, l.constBase)) else None
  {
    OffsetBack(k, l.base);
    OffsetBack(k, 0);
  }

  /** What the moved references find is what the original ones found, moved. */
  ghost predicate Corresponds(l: Loaded, refs: seq<nat>, plain: Option<seq<Instruction>>,
                              moved: Option<seq<Instruction>>) {
    && (moved.Some? <==> plain.Some?)
    && (plain.Some? ==> |plain.value| == |refs| == |moved.value|)
    && (plain.Some? ==> forall i :: 0 <= i < |refs| ==>
         && refs[i] in l.origin.instructions && plain.value[i] == l.origin.instructions[refs[i]]
         && moved.value[i] == Moved(plain.value[i], l.base, l.constBase))
  }

  lemma LookupAllMoved(l: Loaded, ins: Instruction)
    requires Small(l) && ins.opCode != OP_CONST && GoodRefs(ins, l.origin.instructionKey, l.origin.constKey)
    ensures Corresponds(l, ins.refs, LookupAll(l.origin, ins.refs),
                        LookupAll(ImgOf(l), Moved(ins, l.base, l.constBase).refs))
  {
    var refs := Moved(ins, l.base, l.constBase).refs;
    forall i | 0 <= i < |refs|
      ensures refs[i] == ins.refs[i] + l.base
      ensures Lookup(l.origin, ins.refs[i]) ==
        (if ins.refs[i] in l.origin.instructions then Some(l.origin.instructions[ins.refs[i]]) else None)
      ensures Lookup(ImgOf(l), refs[i]) == if ins.refs[i] in l.origin.instructions
        then Some(Moved(l.origin.instructions[ins.refs[i]], l.base, l.constBase)) else None
    {
      LookupMoved(l, ins.refs[i]);
    }
  }

  lemma AllClaimed(e: Exec, l: Loaded, ins: Instruction)
    requires ExecOk(e) && Holds(e, l) && ins.opCode != OP_CONST
    requires GoodRefs(ins, l.origin.instructionKey, l.origin.constKey)
    ensures ResolveAll(TablesOf(e), Moved(ins, l.base, l.constBase).refs)
         == LookupAll(ImgOf(l), Moved(ins, l.base, l.constBase).refs)
  {
    if |ins.refs| > 0 {
      assert Moved(ins, l.base, l.constBase).refs[0] == ins.refs[0] + l.base;
      InstructionClaimed(e, l, ins.refs[0]);
    }
  }

  lemma {:induction false} RefsResolve(e: Exec, l: Loaded, ins: Instruction)
    requires ExecOk(e) && Holds(e, l) && ins.opCode != OP_CONST
    requires GoodRefs(ins, l.origin.instructionKey, l.origin.constKey)
    ensures Corresponds(l, ins.refs, LookupAll(l.origin, ins.refs),
                        ResolveAll(TablesOf(e), Moved(ins, l.base, l.constBase).refs))
  {
    HeldSmall(e, l);
    LookupAllMoved(l, ins);
    AllClaimed(e, l, ins);
  }

  lemma HeldSmall(e: Exec, l: Loaded)
    requires ExecOk(e) && Holds(e, l)
    ensures Small(l) && l.origin.constKey <= l.origin.instructionKey
  {
    if InList(l, e.shared) {
      var i :| 0 <= i < |e.shared| && e.shared[i] == l;
    } else {
      var i :| 0 <= i < |e.privates| && e.privates[i] == l;
    }
  }

  lemma {:induction false} ConstResolves(e: Exec, l: Loaded, ins: Instruction)
    requires ExecOk(e) && Holds(e, l) && ins.opCode == OP_CONST
    requires GoodRefs(ins, l.origin.instructionKey, l.origin.constKey)
    ensures ResolveConst(TablesOf(e), Moved(ins, l.base, l.constBase).refs[0]) == LookupConst(l.origin, ins.refs[0])
  {
    HeldSmall(e, l);
    ConstClaimed(e, l, ins.refs[0]);
    OffsetBack(ins.refs[0], l.constBase);
    OffsetBack(ins.refs[0], 0);
  }

  ghost predicate SameChildren(t: Tables, img: Image, plain: Option<seq<Instruction>>,
                               there: Option<seq<Instruction>>, depth: nat) {
    && (plain.Some? <==> there.Some?)
    && (plain.Some? ==> |plain.value| == |there.value|)
    && (plain.Some? ==> forall i :: 0 <= i < |plain.value| ==>
         TreeAt(t, there.value[i], depth) == TreeIn(img, plain.value[i], depth))
  }

  lemma SameLeaf(t: Tables, img: Image, ins: Instruction, moved: Instruction, depth: nat)
    requires ins.opCode == moved.opCode == OP_CONST && |ins.refs| == |moved.refs| > 0
    requires ResolveConst(t, moved.refs[0]) == LookupConst(img, ins.refs[0])
    ensures TreeAt(t, moved, depth + 1) == TreeIn(img, ins, depth + 1)
  {
  }

  lemma SameNode(t: Tables, img: Image, ins: Instruction, moved: Instruction, depth: nat)
    requires ins.opCode == moved.opCode != OP_CONST && ins.name == moved.name
    requires SameChildren(t, img, LookupAll(img, ins.refs), ResolveAll(t, moved.refs), depth)
    ensures TreeAt(t, moved, depth + 1) == TreeIn(img, ins, depth + 1)
  {
    if LookupAll(img, ins.refs).Some? {
      var a, b := ResolveAll(t, moved.refs).value, LookupAll(img, ins.refs).value;
      assert seq(|a|, i requires 0 <= i < |a| => TreeAt(t, a[i], depth))
          == seq(|b|, i requires 0 <= i < |b| => TreeIn(img, b[i], depth));
    }
  }

  /** The tables resolve the references of each of the script's instructions. */
  ghost predicate Faithful(t: Tables, l: Loaded) {
    forall k :: k in l.origin.instructions ==> FaithfulAt(t, l, l.origin.instructions[k])
  }

  ghost predicate FaithfulAt(t: Tables, l: Loaded, ins: Instruction) {
    var refs := Moved(ins, l.base, l.constBase).refs;
    if ins.opCode == OP_CONST then
      |ins.refs| > 0 && ResolveConst(t, refs[0]) == LookupConst(l.origin, ins.refs[0])
    else Corresponds(l, ins.refs, LookupAll(l.origin, ins.refs), ResolveAll(t, refs))
  }

  lemma HeldFaithful(e: Exec, l: Loaded)
    requires ExecOk(e) && Holds(e, l)
    ensures Faithful(TablesOf(e), l)
  {
    HeldSmall(e, l);
    forall k | k in l.origin.instructions ensures FaithfulAt(TablesOf(e), l, l.origin.instructions[k]) {
      var ins := l.origin.instructions[k];
      if ins.opCode == OP_CONST {
        ConstResolves(e, l, ins);
      } else {
        RefsResolve(e, l, ins);
      }
    }
  }

  lemma {:induction false} FaithfulTrees(t: Tables, l: Loaded, k: nat, ins: Instruction, moved: Instruction, depth: nat)
    requires Faithful(t, l) && k in l.origin.instructions
    requires ins == l.origin.instructions[k] && moved == Moved(ins, l.base, l.constBase)
    ensures TreeAt(t, moved, depth) == TreeIn(l.origin, ins, depth)
    decreases depth, 1
  {
    assert FaithfulAt(t, l, ins);
    if depth == 0 {
    } else if ins.opCode == OP_CONST {
      SameLeaf(t, l.origin, ins, moved, depth - 1);
    } else {
      FaithfulChildren(t, l, ins.refs, LookupAll(l.origin, ins.refs), ResolveAll(t, moved.refs), depth - 1);
      SameNode(t, l.origin, ins, moved, depth - 1);
    }
  }

  lemma {:induction false} FaithfulChildren(t: Tables, l: Loaded, refs: seq<nat>,
                                            plain: Option<seq<Instruction>>, there: Option<seq<Instruction>>,
                                            depth: nat)
    requires Faithful(t, l) && Corresponds(l, refs, plain, there)
    ensures SameChildren(t, l.origin, plain, there, depth)
    decreases depth, 2
  {
    if plain.Some? {
      forall i | 0 <= i < |refs| ensures TreeAt(t, there.value[i], depth) == TreeIn(l.origin, plain.value[i], depth) {
        FaithfulTrees(t, l, refs[i], plain.value[i], there.value[i], depth);
      }
    }
  }

  /** Every instruction of every loaded script stands for the same tree, to any depth, as
      it did in the script alone before relocation. */
  lemma {:induction false} RelocationKeepsTrees(e: Exec, l: Loaded, k: nat, depth: nat)
    requires ExecOk(e) && Holds(e, l) && k in l.origin.instructions
    ensures k in ImgOf(l).instructions
    ensures TreeAt(TablesOf(e), ImgOf(l).instructions[k], depth) == TreeIn(l.origin, l.origin.instructions[k], depth)
  {
    HeldFaithful(e, l);
    FaithfulTrees(TablesOf(e), l, k, l.origin.instructions[k], ImgOf(l).instructions[k], depth);
  }

  /** A single key of a loaded script resolves to that script's instruction. */
  lemma {:induction false} KeyResolves(e: Exec, l: Loaded, k: nat)
    requires ExecOk(e) && Holds(e, l) && k in l.origin.instructions
    ensures ImgOf(l).instructions[k].key == k + l.base
    ensures Resolve(TablesOf(e), k + l.base) == Some(ImgOf(l).instructions[k])
  {
    HeldSmall(e, l);
    InstructionClaimed(e, l, k);
    LookupMoved(l, k);
  }

  /** In a script without dangling references no part of a tree is unknown. */
  ghost predicate AllKnown(t: Tree)
    decreases t
  {
    !t.Unknown? && (t.Node? ==> forall i :: 0 <= i < |t.children| ==> AllKnown(t.children[i]))
  }

  lemma {:induction false} WholeTreesKnown(img: Image, k: nat, depth: nat)
    requires Whole(img) && Sound(img) && img.instructionKey <= KEYS && k in img.instructions
    ensures AllKnown(TreeIn(img, img.instructions[k], depth))
    decreases depth
  {
    var ins := img.instructions[k];
    if depth > 0 {
      assert RefsPresent(img, ins);
      if ins.opCode == OP_CONST {
        OffsetBack(ins.refs[0], 0);
      } else {
        PresentFound(img, ins);
        var list := LookupAll(img, ins.refs).value;
        forall i | 0 <= i < |list| ensures AllKnown(TreeIn(img, list[i], depth - 1)) {
          WholeTreesKnown(img, ins.refs[i], depth - 1);
        }
      }
    }
  }

  lemma PresentFound(img: Image, ins: Instruction)
    requires Sound(img) && img.instructionKey <= KEYS && ins.opCode != OP_CONST && RefsPresent(img, ins)
    ensures var list := LookupAll(img, ins.refs);
      list.Some? && forall i :: 0 <= i < |ins.refs| ==> list.value[i] == img.instructions[ins.refs[i]]
  {
    forall i | 0 <= i < |ins.refs| ensures Lookup(img, ins.refs[i]) == Some(img.instructions[ins.refs[i]]) {
      OffsetBack(ins.refs[i], 0);
    }
  }
}
