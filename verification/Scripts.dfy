/** Scripts as objects: the builder, relocation in place, look-ups and the two stream
    directions, each proved against the functions of Images and ScriptStream. */
module Scripts {
  import opened Common
  import opened Varint
  import opened Images
  import opened ScriptStream

  // ----- std::map iteration -----

  method LeastOf(s: set<nat>) returns (k: nat)
    requires s != {}
    ensures k == Least(s)
  {
    k :| k in s;
    var todo := s - {k};
    while todo != {}
      invariant todo <= s && k in s
      invariant forall j :: j in s && j !in todo ==> k <= j
    {
      var j :| j in todo;
      todo := todo - {j};
      k := if j < k then j else k;
    }
  }

  lemma OneKey(keys: seq<nat>, todo: set<nat>)
    requires todo != {}
    ensures var k := Least(todo);
      keys + SortedKeys(todo) == keys + [k] + SortedKeys(todo - {k})
  {
    var k := Least(todo);
    KeysRegrouped(keys, [k], SortedKeys(todo - {k}));
  }

  lemma KeysRegrouped(a: seq<nat>, b: seq<nat>, c: seq<nat>)
    ensures a + (b + c) == a + b + c
  {
  }

  method KeysOf(s: set<nat>) returns (keys: seq<nat>)
    ensures keys == SortedKeys(s)
  {
    var todo := s;
    keys := [];
    while todo != {}
      invariant SortedKeys(s) == keys + SortedKeys(todo)
      decreases todo
    {
      var k := LeastOf(todo);
      OneKey(keys, todo);
      keys, todo := keys + [k], todo - {k};
    }
  }

  /** The lines a loop over a table visits. */
  method LinesOf<T>(t: map<nat, T>) returns (es: seq<Entry<T>>)
    ensures es == Listing(t)
  {
    var keys := KeysOf(t.Keys);
    assert forall i :: 0 <= i < |keys| ==> keys[i] in t by {
      forall i | 0 <= i < |keys| ensures keys[i] in t { assert keys[i] in keys; }
    }
    es := seq(|keys|, i requires 0 <= i < |keys| => Entry(keys[i], t[keys[i]]));
  }

  // ----- writing -----

  class OutStream {
    var data: seq<Byte>

    constructor ()
      ensures data == []
    {
      data := [];
    }
  }

  /** BinaryWrite on the integer types. The writer throws on a negative number. */
  method WriteNum(o: OutStream, n: int) returns (ok: bool)
    requires -LIMIT <= n < LIMIT
    modifies o
    ensures ok <==> n >= 0
    ensures o.data == if n >= 0 then old(o.data) + Encode(n) else old(o.data)
  {
    var buf := new Byte[9](_ => 0);
    var count := EncodeInto(n, buf);
    if count == -1 {
      return false;
    }
    o.data := o.data + buf[..count];
    ok := true;
  }

  method WriteText(o: OutStream, t: seq<Byte>)
    requires |t| < KEYS
    modifies o
    ensures o.data == old(o.data) + TextBytes(t)
  {
    var _ := WriteNum(o, |t|);
    o.data := o.data + t;
  }

  lemma OneRef(before: seq<Byte>, refs: seq<nat>, i: nat)
    requires i < |refs| && forall j :: 0 <= j < |refs| ==> refs[j] < KEYS
    ensures before + RefsBytes(refs[i..]) == before + Encode(refs[i]) + RefsBytes(refs[i + 1..])
  {
    assert refs[i..][1..] == refs[i + 1..];
    var rest := RefsBytes(refs[i + 1..]);
    assert before + (Encode(refs[i]) + rest) == before + Encode(refs[i]) + rest;
  }

  method WriteRefs(o: OutStream, refs: seq<nat>)
    requires forall i :: 0 <= i < |refs| ==> refs[i] < KEYS
    modifies o
    ensures o.data == old(o.data) + RefsBytes(refs)
  {
    ghost var goal := o.data + RefsBytes(refs);
    for i := 0 to |refs|
      invariant goal == o.data + RefsBytes(refs[i..])
    {
      OneRef(o.data, refs, i);
      var _ := WriteNum(o, refs[i]);
    }
    assert o.data == goal;
  }

  lemma Regrouped(s: seq<Byte>, a: seq<Byte>, b: seq<Byte>, c: seq<Byte>, d: seq<Byte>, e: seq<Byte>)
    ensures s + a + b + c + d + e == s + (a + (b + (c + (d + e))))
  {
  }

  method WriteInstruction(o: OutStream, ins: Instruction)
    requires FitsInstruction(ins)
    modifies o
    ensures o.data == old(o.data) + InstructionBytes(ins)
  {
    var _ := WriteNum(o, ins.opCode);
    var _ := WriteNum(o, ins.key);
    WriteText(o, ins.name);
    var _ := WriteNum(o, |ins.refs|);
    WriteRefs(o, ins.refs);
    Regrouped(old(o.data), Encode(ins.opCode), Encode(ins.key), TextBytes(ins.name),
              Encode(|ins.refs|), RefsBytes(ins.refs));
  }

  method WritePayload(o: OutStream, c: Const) returns (ok: bool)
    requires FitsConst(c)
    modifies o
    ensures ok <==> Storable(c)
    ensures ok ==> o.data == old(o.data) + PayloadBytes(c)
  {
    ok := true;
    match c
    case ByteConst(b) => ok := WriteNum(o, b);
    case IntegerConst(i) => ok := WriteNum(o, i);
    case FloatConst(bits) => o.data := o.data + bits;
    case StringConst(text) => WriteText(o, text);
  }

  method WriteConst(o: OutStream, c: Const) returns (ok: bool)
    requires FitsConst(c)
    modifies o
    ensures ok <==> Storable(c)
    ensures ok ==> o.data == old(o.data) + ConstBytes(c)
  {
    var _ := WriteNum(o, Kind(c));
    ok := WritePayload(o, c);
    if ok {
      Assoc(old(o.data), Encode(Kind(c)), PayloadBytes(c));
    }
  }

  // ----- reading: None where the reader throws -----

  /** The result and the unread rest are those of the parse. */
  ghost predicate Reads<T>(p: Parsed<T>, r: Option<T>, rest: seq<Byte>) {
    p == if r.Some? then Parsed(r.value, rest) else Bad
  }

  method ReadNum(i: InStream, width: nat) returns (r: Option<nat>)
    requires i.Valid() && width > 0
    modifies i
    ensures i.Valid() && Reads(ParseNum(old(i.Rest()), width), r, i.Rest())
  {
    var count, result := i.DecodeNext();
    r := if count == -1 then None else Some(Cut(result, width));
  }

  method ReadBytes(i: InStream, n: nat) returns (r: Option<seq<Byte>>)
    requires i.Valid()
    modifies i
    ensures i.Valid()
    ensures r == if n > |old(i.Rest())| then None else Some(old(i.Rest())[..n])
    ensures r.Some? ==> i.Rest() == old(i.Rest())[n..]
  {
    if n > |i.data| - i.pos {
      return None;
    }
    assert i.data[i.pos..][..n] == i.data[i.pos..i.pos + n];
    assert i.data[i.pos..][n..] == i.data[i.pos + n..];
    r := Some(i.data[i.pos..i.pos + n]);
    i.pos := i.pos + n;
  }

  method ReadText(i: InStream) returns (r: Option<seq<Byte>>)
    requires i.Valid()
    modifies i
    ensures i.Valid() && Reads(ParseText(old(i.Rest())), r, i.Rest())
  {
    var n := ReadNum(i, KEYS);
    if n.None? {
      return None;
    }
    if n.value == 0 {
      return Some([]);
    }
    r := ReadBytes(i, n.value);
  }

  method ReadRefs(i: InStream, n: nat) returns (r: Option<seq<nat>>)
    requires i.Valid()
    modifies i
    ensures i.Valid() && Reads(ParseRefs(n, old(i.Rest()), []), r, i.Rest())
  {
    var refs := [];
    for k := 0 to n
      invariant i.Valid()
      invariant ParseRefs(n, old(i.Rest()), []) == ParseRefs(n - k, i.Rest(), refs)
    {
      var ref := ReadNum(i, KEYS);
      if ref.None? {
        return None;
      }
      refs := refs + [ref.value];
    }
    r := Some(refs);
  }

  method ReadInstruction(i: InStream) returns (r: Option<Instruction>)
    requires i.Valid()
    modifies i
    ensures i.Valid() && Reads(ParseInstruction(old(i.Rest())), r, i.Rest())
  {
    r := None;
    var op := ReadNum(i, 0x1_0000);
    if op.None? { return; }
    var key := ReadNum(i, KEYS);
    if key.None? { return; }
    var name := ReadText(i);
    if name.None? { return; }
    var n := ReadNum(i, KEYS);
    if n.None? { return; }
    var refs := ReadRefs(i, n.value);
    if refs.None? { return; }
    r := Some(Instruction(op.value, key.value, name.value, refs.value));
  }

  method ReadConst(i: InStream) returns (r: Option<Const>)
    requires i.Valid()
    modifies i
    ensures i.Valid() && Reads(ParseConst(old(i.Rest())), r, i.Rest())
  {
    r := None;
    var kind := ReadNum(i, KEYS);
    if kind.None? { return; }
    if kind.value == 1 {
      var b := ReadNum(i, 256);
      if b.Some? { r := Some(ByteConst(b.value)); }
    } else if kind.value == 2 {
      var n := ReadNum(i, LIMIT);
      if n.Some? { r := Some(IntegerConst(n.value)); }
    } else if kind.value == 3 {
      var bits := ReadBytes(i, 8);
      if bits.Some? { r := Some(FloatConst(bits.value)); }
    } else if kind.value == 4 {
      var text := ReadText(i);
      if text.Some? { r := Some(StringConst(text.value)); }
    }
  }

  method ReadHeader(i: InStream) returns (r: Option<Header>)
    requires i.Valid()
    modifies i
    ensures i.Valid() && Reads(ParseHeader(old(i.Rest())), r, i.Rest())
  {
    r := None;
    var entry := ReadNum(i, KEYS);
    if entry.None? { return; }
    var name := ReadText(i);
    if name.None? { return; }
    var n := ReadNum(i, KEYS);
    if n.None? { return; }
    var m := ReadNum(i, KEYS);
    if m.None? { return; }
    r := Some(Header(entry.value, name.value, n.value, m.value));
  }

  method WriteConstEntry(o: OutStream, e: Entry<Const>) returns (ok: bool)
    requires e.key < KEYS && FitsConst(e.value)
    modifies o
    ensures ok <==> Storable(e.value)
    ensures ok ==> o.data == old(o.data) + ConstEntryBytes(e)
  {
    var _ := WriteNum(o, e.key);
    ok := WriteConst(o, e.value);
    if ok {
      Assoc(old(o.data), Encode(e.key), ConstBytes(e.value));
    }
  }

  lemma AllWritable(img: Image)
    requires forall j :: 0 <= j < |img.consts| ==> Storable(Listing(img.consts)[j].value)
    ensures Writable(img)
  {
    var keys := SortedKeys(img.consts.Keys);
    forall k | k in img.consts ensures Storable(img.consts[k]) {
      var j :| 0 <= j < |keys| && keys[j] == k;
      assert Listing(img.consts)[j].key == k;
    }
  }

  /** One turn of a table loop. */
  lemma EntryWritten<T>(bytes: Entry<T> -> seq<Byte>, es: seq<Entry<T>>, n: nat, before: seq<Byte>)
    requires n < |es|
    ensures before + EntriesBytes(bytes, es[n..]) == before + bytes(es[n]) + EntriesBytes(bytes, es[n + 1..])
  {
    assert es[n..][1..] == es[n + 1..];
    ghost var e, rest := bytes(es[n]), EntriesBytes(bytes, es[n + 1..]);
    assert before + (e + rest) == before + e + rest;
  }

  // ----- the script object -----

  class Script {
    var name: seq<Byte>
    var entryPoint: nat
    var instructionTable: map<nat, Instruction>
    var constTable: map<nat, Const>
    var instructionKey: nat
    var constKey: nat
    var instructionBase: nat
    var constBase: nat

    ghost function Img(): Image
      reads this
    {
      Image(name, entryPoint, instructionTable, constTable, instructionKey, constKey, instructionBase, constBase)
    }

    constructor (name: seq<Byte>)
      ensures Img() == NewImage(name)
    {
      this.name, entryPoint := name, 0;
      instructionTable, constTable := map[0 := Instruction(0, 0, [], [])], map[];
      instructionKey, constKey, instructionBase, constBase := 1, 1, 0, 0;
    }

    method NewInstruction(opCode: nat, insName: seq<Byte>, refs: seq<nat>) returns (key: nat)
      modifies this
      ensures key == old(instructionKey)
      ensures Img() == Add(old(Img()), opCode, insName, refs)
    {
      key := instructionKey;
      instructionKey := instructionKey + 1;
      instructionTable := instructionTable[key := Instruction(opCode, key, insName, refs)];
    }

    method MakeConst(value: Const) returns (key: nat)
      modifies this
      ensures key == old(instructionKey) && Img() == Apply(old(Img()), NewConst(value))
    {
      var c := constKey;
      constKey := constKey + 1;
      constTable := constTable[c := value];
      key := NewInstruction(OP_CONST, [], [c]);
    }

    method AddToGroup(group: nat, element: nat)
      requires group in instructionTable && instructionTable[group].opCode == OP_GROUP
      modifies this
      ensures Img() == Apply(old(Img()), Append(group, element))
    {
      var ins := instructionTable[group];
      instructionTable := instructionTable[group := ins.(refs := ins.refs + [element])];
    }

    /** Throws (false) on a second call. */
    method RelocateInstruction(newBase: nat, newConstBase: nat) returns (ok: bool)
      requires instructionBase == 0 && constBase == 0 ==> RefsInRange()
      modifies this
      ensures ok <==> old(instructionBase) == 0 && old(constBase) == 0
      ensures Img() == if ok then Relocated(old(Img()), newBase, newConstBase) else old(Img())
    {
      if instructionBase != 0 || constBase != 0 {
        return false;
      }
      RelocateAll(newBase, newConstBase);
      instructionBase, constBase := newBase, newConstBase;
      ok := true;
    }

    /** No reference is at or over the counter of the table it points into. */
    ghost predicate RefsInRange()
      reads this
    {
      forall k :: k in instructionTable ==> GoodRefs(instructionTable[k], instructionKey, constKey)
    }

    method RelocateAll(newBase: nat, newConstBase: nat)
      requires RefsInRange()
      modifies this`instructionTable
      ensures instructionTable == Relocated(old(Img()), newBase, newConstBase).instructions
    {
      ghost var before := instructionTable;
      var todo := instructionTable.Keys;
      while todo != {}
        invariant todo <= before.Keys == instructionTable.Keys
        invariant forall k :: k in before ==>
          instructionTable[k] == (if k in todo then before[k] else Moved(before[k], newBase, newConstBase))
      {
        var k :| k in todo;
        todo := todo - {k};
        var moved := Relocate(instructionTable[k], newBase, newConstBase);
        instructionTable := instructionTable[k := moved];
      }
    }

    method Relocate(ins: Instruction, newBase: nat, newConstBase: nat) returns (r: Instruction)
      requires GoodRefs(ins, instructionKey, constKey)
      ensures r == Moved(ins, newBase, newConstBase)
    {
      var refs := ins.refs;
      if ins.opCode == OP_CONST {
        refs := refs[0 := refs[0] + newConstBase];
      } else {
        for i := 0 to |refs|
          invariant |refs| == |ins.refs|
          invariant forall j :: 0 <= j < |refs| ==> refs[j] == if j < i then ins.refs[j] + newBase else ins.refs[j]
        {
          refs := refs[i := refs[i] + newBase];
        }
        assert refs == Moved(ins, newBase, newConstBase).refs;
      }
      r := ins.(refs := refs, key := ins.key + newBase);
    }

    method WriteToStream(o: OutStream) returns (ok: bool)
      requires Fits(Img())
      modifies o
      ensures ok <==> Writable(Img())
      ensures ok ==> o.data == old(o.data) + ImageBytes(Img())
    {
      var _ := WriteNum(o, instructionTable[entryPoint].key);
      WriteText(o, name);
      var _ := WriteNum(o, |instructionTable|);
      var _ := WriteNum(o, |constTable|);
      ok := WriteTables(o);
      Regrouped(old(o.data), Encode(entryPoint), TextBytes(name), Encode(|instructionTable|), Encode(|constTable|),
        InstructionsBytes(Img()) + ConstsBytes(Img()));
    }

    method WriteTables(o: OutStream) returns (ok: bool)
      requires Fits(Img())
      modifies o
      ensures ok <==> Writable(Img())
      ensures ok ==> o.data == old(o.data) + (InstructionsBytes(Img()) + ConstsBytes(Img()))
    {
      WriteInstructions(o);
      ok := WriteConsts(o);
      Assoc(old(o.data), InstructionsBytes(Img()), ConstsBytes(Img()));
    }

    method WriteInstructions(o: OutStream)
      requires Fits(Img())
      modifies o
      ensures o.data == old(o.data) + InstructionsBytes(Img())
    {
      var es := LinesOf(instructionTable);
      ghost var goal := o.data + InstructionsBytes(Img());
      for n := 0 to |es|
        invariant goal == o.data + EntriesBytes(InstructionEntryBytes, es[n..])
      {
        ghost var before := o.data;
        WriteInstruction(o, es[n].value);
        EntryWritten(InstructionEntryBytes, es, n, before);
      }
      assert o.data == goal;
    }

    method WriteConsts(o: OutStream) returns (ok: bool)
      requires Fits(Img())
      modifies o
      ensures ok <==> Writable(Img())
      ensures ok ==> o.data == old(o.data) + ConstsBytes(Img())
    {
      var es := LinesOf(constTable);
      ghost var goal := o.data + ConstsBytes(Img());
      ok := true;
      var n := 0;
      while n < |es| && ok
        invariant 0 <= n <= |es|
        invariant ok ==> goal == o.data + EntriesBytes(ConstEntryBytes, es[n..])
        invariant ok ==> forall j :: 0 <= j < n ==> Storable(es[j].value)
        invariant !ok ==> !Writable(Img())
      {
        ghost var before := o.data;
        ok := WriteConstEntry(o, es[n]);
        EntryWritten(ConstEntryBytes, es, n, before);
        n := n + 1;
      }
      if ok {
        assert o.data == goal;
        AllWritable(Img());
      }
    }

    /** On an exception the object is left half filled; it is thrown away then. */
    method ReadFromStream(i: InStream) returns (ok: bool)
      requires i.Valid() && instructionBase == 0 && constBase == 0
      modifies this, i
      ensures i.Valid()
      ensures ParseImage(old(i.Rest())) == if ok then Parsed(Img(), i.Rest()) else Bad
    {
      var h := ReadHeader(i);
      ok := h.Some?;
      if ok {
        name := h.value.name;
        ok := ReadTables(i, h.value);
      }
    }

    method ReadTables(i: InStream, h: Header) returns (ok: bool)
      requires i.Valid() && instructionBase == 0 && constBase == 0 && name == h.name
      modifies this, i
      ensures i.Valid()
      ensures ParseTables(h, old(i.Rest())) == if ok then Parsed(Img(), i.Rest()) else Bad
    {
      ghost var start := i.Rest();
      ghost var t, c;
      ok, t, c := ReadBoth(i, h);
      TablesParsed(h, start, t, c);
      ok := Finish(h, ok, t, c);
    }

    method Finish(h: Header, read: bool, ghost t: Parsed<map<nat, Instruction>>, ghost c: Parsed<map<nat, Const>>)
      returns (ok: bool)
      requires instructionBase == 0 && constBase == 0 && name == h.name
      requires read <==> c.Parsed?
      requires read ==> t.Parsed? && instructionTable == t.value && constTable == c.value
      modifies this
      ensures ok ==> read
      ensures Assemble(h, t, c) == if ok then Parsed(Img(), c.rest) else Bad
    {
      ok := read && h.entry in instructionTable;
      entryPoint := h.entry;
      instructionKey, constKey := |instructionTable| + 1, |constTable| + 1;
    }

    method ReadBoth(i: InStream, h: Header)
      returns (ok: bool, ghost t: Parsed<map<nat, Instruction>>, ghost c: Parsed<map<nat, Const>>)
      requires i.Valid()
      modifies this`instructionTable, this`constTable, i
      ensures i.Valid()
      ensures t == ParseEntries(InstructionEntry, h.instructions, old(i.Rest()), map[])
      ensures c == if t.Bad? then Bad else ParseEntries(ConstEntry, h.consts, t.rest, map[])
      ensures ok <==> c.Parsed?
      ensures ok ==> t.Parsed? && instructionTable == t.value && constTable == c.value && i.Rest() == c.rest
    {
      c := Bad;
      ok := ReadInstructions(i, h.instructions);
      t := if ok then Parsed(instructionTable, i.Rest()) else Bad;
      if ok {
        ok := ReadConsts(i, h.consts);
        c := if ok then Parsed(constTable, i.Rest()) else Bad;
      }
    }

    method ReadInstructions(i: InStream, n: nat) returns (ok: bool)
      requires i.Valid()
      modifies this`instructionTable, i
      ensures i.Valid()
      ensures ParseEntries(InstructionEntry, n, old(i.Rest()), map[])
        == if ok then Parsed(instructionTable, i.Rest()) else Bad
    {
      ghost var goal := ParseEntries(InstructionEntry, n, i.Rest(), map[]);
      instructionTable := map[];
      ok := true;
      var k := 0;
      while k < n && ok
        invariant i.Valid() && 0 <= k <= n
        invariant ok ==> goal == ParseEntries(InstructionEntry, n - k, i.Rest(), instructionTable)
        invariant !ok ==> goal == Bad
      {
        ok := ReadInstructionEntry(i, n - k);
        k := k + 1;
      }
    }

    /** One turn of the loop: an entry read into the table. */
    method ReadInstructionEntry(i: InStream, ghost left: nat) returns (ok: bool)
      requires i.Valid() && left > 0
      modifies this`instructionTable, i
      ensures i.Valid()
      ensures ParseEntries(InstructionEntry, left, old(i.Rest()), old(instructionTable))
           == if ok then ParseEntries(InstructionEntry, left - 1, i.Rest(), instructionTable) else Bad
    {
      var ins := ReadInstruction(i);
      ok := ins.Some?;
      if ok {
        instructionTable := instructionTable[ins.value.key := ins.value];
      }
    }

    method ReadConsts(i: InStream, n: nat) returns (ok: bool)
      requires i.Valid()
      modifies this`constTable, i
      ensures i.Valid()
      ensures ParseEntries(ConstEntry, n, old(i.Rest()), map[]) == if ok then Parsed(constTable, i.Rest()) else Bad
    {
      ghost var goal := ParseEntries(ConstEntry, n, i.Rest(), map[]);
      constTable := map[];
      ok := true;
      var k := 0;
      while k < n && ok
        invariant i.Valid() && 0 <= k <= n
        invariant ok ==> goal == ParseEntries(ConstEntry, n - k, i.Rest(), constTable)
        invariant !ok ==> goal == Bad
      {
        ok := ReadConstEntry(i, n - k);
        k := k + 1;
      }
    }

    /** One turn of the loop: a key and a constant read into the table. */
    method ReadConstEntry(i: InStream, ghost left: nat) returns (ok: bool)
      requires i.Valid() && left > 0
      modifies this`constTable, i
      ensures i.Valid()
      ensures ParseEntries(ConstEntry, left, old(i.Rest()), old(constTable))
           == if ok then ParseEntries(ConstEntry, left - 1, i.Rest(), constTable) else Bad
    {
      var key := ReadNum(i, KEYS);
      ok := key.Some?;
      if ok {
        var c := ReadConst(i);
        ok := c.Some?;
        if ok {
          constTable := constTable[key.value := c.value];
        }
      }
    }
  }
}
