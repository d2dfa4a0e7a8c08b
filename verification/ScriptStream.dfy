/** The binary form of a script: every number a varint, texts with their length in front,
    the two tables in key order. */
module ScriptStream {
  import opened Common
  import opened Varint
  import opened Images

  // ----- what is written -----

  function TextBytes(t: seq<Byte>): seq<Byte> {
    Encode(|t|) + t
  }

  function RefsBytes(refs: seq<nat>): seq<Byte> {
    if |refs| == 0 then [] else Encode(refs[0]) + RefsBytes(refs[1..])
  }

  function InstructionBytes(ins: Instruction): seq<Byte> {
    Encode(ins.opCode) + (Encode(ins.key) + (TextBytes(ins.name) + (Encode(|ins.refs|) + RefsBytes(ins.refs))))
  }

  /** What the varint format can hold. */
  predicate Storable(c: Const) {
    c.IntegerConst? ==> c.i >= 0
  }

  /** ValueType's code of a constant. */
  function Kind(c: Const): nat {
    match c
    case ByteConst(_) => 1
    case IntegerConst(_) => 2
    case FloatConst(_) => 3
    case StringConst(_) => 4
  }

  function PayloadBytes(c: Const): seq<Byte>
    requires Storable(c)
  {
    match c
    case ByteConst(b) => Encode(b)
    case IntegerConst(i) => Encode(i)
    case FloatConst(bits) => bits
    case StringConst(text) => TextBytes(text)
  }

  function ConstBytes(c: Const): seq<Byte>
    requires Storable(c)
  {
    Encode(Kind(c)) + PayloadBytes(c)
  }

  /** An instruction carries its key, a constant follows its own. */
  function InstructionEntryBytes(e: Entry<Instruction>): seq<Byte> {
    InstructionBytes(e.value)
  }

  function ConstEntryBytes(e: Entry<Const>): seq<Byte> {
    Encode(e.key) + (if Storable(e.value) then ConstBytes(e.value) else [])
  }

  function EntriesBytes<T>(bytes: Entry<T> -> seq<Byte>, es: seq<Entry<T>>): seq<Byte>
    decreases |es|
  {
    if |es| == 0 then [] else bytes(es[0]) + EntriesBytes(bytes, es[1..])
  }

  /** No integer constant is negative. */
  predicate Writable(img: Image) {
    forall k :: k in img.consts ==> Storable(img.consts[k])
  }

  ghost function InstructionsBytes(img: Image): seq<Byte> {
    EntriesBytes(InstructionEntryBytes, Listing(img.instructions))
  }

  ghost function ConstsBytes(img: Image): seq<Byte> {
    EntriesBytes(ConstEntryBytes, Listing(img.consts))
  }

  ghost function ImageBytes(img: Image): seq<Byte> {
    Encode(img.entry) + (TextBytes(img.name) + (Encode(|img.instructions|) + (Encode(|img.consts|) +
    (InstructionsBytes(img) + ConstsBytes(img)))))
  }

  /** The widths of the C++ types hold what is in the script. */
  ghost predicate FitsInstruction(ins: Instruction) {
    && ins.opCode < 0x1_0000 && ins.key < KEYS && |ins.name| < KEYS && |ins.refs| < KEYS
    && forall i :: 0 <= i < |ins.refs| ==> ins.refs[i] < KEYS
  }

  ghost predicate FitsConst(c: Const) {
    match c
    case ByteConst(_) => true
    case IntegerConst(i) => -LIMIT <= i < LIMIT
    case FloatConst(bits) => |bits| == 8
    case StringConst(text) => |text| < KEYS
  }

  /** A script that was not relocated. */
  ghost predicate Fits(img: Image) {
    && |img.name| < KEYS && img.entry in img.instructions
    && |img.instructions| < KEYS && |img.consts| < KEYS
    && (forall k :: k in img.instructions ==> FitsInstruction(img.instructions[k]) && img.instructions[k].key == k)
    && (forall k :: k in img.consts ==> k < KEYS && FitsConst(img.consts[k]))
  }

  // ----- what is read back -----

  datatype Parsed<+T> = Parsed(value: T, rest: seq<Byte>) | Bad

  /** The cast to an unsigned type with `width` values. */
  function Cut(n: nat, width: nat): (r: nat)
    requires width > 0
    ensures r < width
  {
    if n < width then n else Cut(n - width, width)
  }

  lemma CutSmall(n: nat, width: nat)
    requires n < width
    ensures Cut(n, width) == n
  {
  }

  /** A number cut to its type's width. */
  function ParseNum(s: seq<Byte>, width: nat): Parsed<nat>
    requires width > 0
  {
    var d := Decode(s, 0, 0);
    if d.count == -1 then Bad else Parsed(Cut(d.value, width), d.rest)
  }

  /** A text that is cut short has unspecified contents, which counts as Bad here. */
  function ParseText(s: seq<Byte>): Parsed<seq<Byte>> {
    var n := ParseNum(s, KEYS);
    if n.Bad? then Bad
    else if n.value > |n.rest| then Bad
    else Parsed(n.rest[..n.value], n.rest[n.value..])
  }

  function ParseRefs(n: nat, s: seq<Byte>, refs: seq<nat>): Parsed<seq<nat>>
    decreases n, 1
  {
    if n == 0 then Parsed(refs, s) else MoreRefs(n, ParseNum(s, KEYS), refs)
  }

  function MoreRefs(n: nat, ref: Parsed<nat>, refs: seq<nat>): Parsed<seq<nat>>
    requires n > 0
    decreases n, 0
  {
    if ref.Bad? then Bad else ParseRefs(n - 1, ref.rest, refs + [ref.value])
  }

  function ParseInstruction(s: seq<Byte>): Parsed<Instruction> {
    var op := ParseNum(s, 0x1_0000);
    if op.Bad? then Bad else
    var key := ParseNum(op.rest, KEYS);
    if key.Bad? then Bad else
    var name := ParseText(key.rest);
    if name.Bad? then Bad else
    var n := ParseNum(name.rest, KEYS);
    if n.Bad? then Bad else
    var refs := ParseRefs(n.value, n.rest, []);
    if refs.Bad? then Bad else
    Parsed(Instruction(op.value, key.value, name.value, refs.value), refs.rest)
  }

  function InstructionEntry(s: seq<Byte>): Parsed<Entry<Instruction>> {
    var ins := ParseInstruction(s);
    if ins.Bad? then Bad else Parsed(Entry(ins.value.key, ins.value), ins.rest)
  }

  function ParsePayload(kind: nat, s: seq<Byte>): Parsed<Const> {
    if kind == 1 then
      var b := ParseNum(s, 256);
      if b.Bad? then Bad else Parsed(ByteConst(b.value), b.rest)
    else if kind == 2 then
      var i := ParseNum(s, LIMIT);
      if i.Bad? then Bad else Parsed(IntegerConst(i.value), i.rest)
    else if kind == 3 then
      if |s| < 8 then Bad else Parsed(FloatConst(s[..8]), s[8..])
    else if kind == 4 then
      var t := ParseText(s);
      if t.Bad? then Bad else Parsed(StringConst(t.value), t.rest)
    else Bad
  }

  function ParseConst(s: seq<Byte>): Parsed<Const> {
    var kind := ParseNum(s, KEYS);
    if kind.Bad? then Bad else ParsePayload(kind.value, kind.rest)
  }

  function ConstEntry(s: seq<Byte>): Parsed<Entry<Const>> {
    var key := ParseNum(s, KEYS);
    if key.Bad? then Bad else
    var c := ParseConst(key.rest);
    if c.Bad? then Bad else Parsed(Entry(key.value, c.value), c.rest)
  }

  /** n entries on top of those in `t`. */
  function ParseEntries<T>(item: seq<Byte> -> Parsed<Entry<T>>, n: nat, s: seq<Byte>, t: map<nat,
                           T>): Parsed<map<nat, T>>
    decreases n, 1
  {
    if n == 0 then Parsed(t, s) else MoreEntries(item, n, item(s), t)
  }

  function MoreEntries<T>(item: seq<Byte> -> Parsed<Entry<T>>, n: nat, e: Parsed<Entry<T>>, t: map<nat,
                          T>): Parsed<map<nat, T>>
    requires n > 0
    decreases n, 0
  {
    if e.Bad? then Bad else ParseEntries(item, n - 1, e.rest, t[e.value.key := e.value.value])
  }

  /** What stands in front of the tables. */
  datatype Header = Header(entry: nat, name: seq<Byte>, instructions: nat, consts: nat)

  function ParseHeader(s: seq<Byte>): Parsed<Header> {
    var entry := ParseNum(s, KEYS);
    if entry.Bad? then Bad else
    var name := ParseText(entry.rest);
    if name.Bad? then Bad else
    var n := ParseNum(name.rest, KEYS);
    if n.Bad? then Bad else
    var m := ParseNum(n.rest, KEYS);
    if m.Bad? then Bad else
    Parsed(Header(entry.value, name.value, n.value, m.value), m.rest)
  }

  /** The image built from the two tables. An entry key that is not in the table is Bad. */
  function Assemble(h: Header, t: Parsed<map<nat, Instruction>>, c: Parsed<map<nat, Const>>): Parsed<Image> {
    if t.Bad? || c.Bad? || h.entry !in t.value then Bad else
    Parsed(Image(h.name, h.entry, t.value, c.value, |t.value| + 1, |c.value| + 1, 0, 0), c.rest)
  }

  function ParseTables(h: Header, s: seq<Byte>): Parsed<Image> {
    var t := ParseEntries(InstructionEntry, h.instructions, s, map[]);
    Assemble(h, t, if t.Bad? then Bad else ParseEntries(ConstEntry, h.consts, t.rest, map[]))
  }

  /** ReadFromStream. */
  function ParseImage(s: seq<Byte>): Parsed<Image> {
    var h := ParseHeader(s);
    if h.Bad? then Bad else ParseTables(h.value, h.rest)
  }

  // ----- reading inverts writing -----

  lemma NumInverts(n: nat, width: nat, suffix: seq<Byte>)
    requires n < width <= LIMIT
    ensures ParseNum(Encode(n) + suffix, width) == Parsed(n, suffix)
  {
    FitsNine(n);
    DecodeInverts(n, suffix, 0, 0);
    CutSmall(n, width);
  }

  lemma {:induction false} TextInverts(t: seq<Byte>, suffix: seq<Byte>)
    requires |t| < KEYS
    ensures ParseText(TextBytes(t) + suffix) == Parsed(t, suffix)
  {
    assert TextBytes(t) + suffix == Encode(|t|) + (t + suffix);
    NumInverts(|t|, KEYS, t + suffix);
    assert (t + suffix)[..|t|] == t && (t + suffix)[|t|..] == suffix;
  }

  /** One turn of the loop over the references. */
  lemma RefStep(n: nat, ref: nat, tail: seq<Byte>, acc: seq<nat>)
    requires n > 0 && ref < KEYS
    ensures ParseRefs(n, Encode(ref) + tail, acc) == ParseRefs(n - 1, tail, acc + [ref])
  {
    NumInverts(ref, KEYS, tail);
  }

  lemma {:induction false} RefsInvert(refs: seq<nat>, acc: seq<nat>, suffix: seq<Byte>)
    requires forall i :: 0 <= i < |refs| ==> refs[i] < KEYS
    ensures ParseRefs(|refs|, RefsBytes(refs) + suffix, acc) == Parsed(acc + refs, suffix)
    decreases |refs|
  {
    if |refs| == 0 {
      assert RefsBytes(refs) + suffix == suffix && acc + refs == acc;
    } else {
      Assoc(Encode(refs[0]), RefsBytes(refs[1..]), suffix);
      TakeOne(acc, refs);
      RefStep(|refs|, refs[0], RefsBytes(refs[1..]) + suffix, acc);
      RefsInvert(refs[1..], acc + [refs[0]], suffix);
    }
  }

  lemma TakeOne(acc: seq<nat>, refs: seq<nat>)
    requires |refs| > 0
    ensures acc + [refs[0]] + refs[1..] == acc + refs
  {
  }

  lemma {:induction false} InstructionInverts(ins: Instruction, suffix: seq<Byte>)
    requires FitsInstruction(ins)
    ensures ParseInstruction(InstructionBytes(ins) + suffix) == Parsed(ins, suffix)
  {
    var s4 := RefsBytes(ins.refs) + suffix;
    var s3 := Encode(|ins.refs|) + s4;
    var s2 := TextBytes(ins.name) + s3;
    var s1 := Encode(ins.key) + s2;
    assert InstructionBytes(ins) + suffix == Encode(ins.opCode) + s1;
    NumInverts(ins.opCode, 0x1_0000, s1);
    NumInverts(ins.key, KEYS, s2);
    TextInverts(ins.name, s3);
    NumInverts(|ins.refs|, KEYS, s4);
    RefsInvert(ins.refs, [], suffix);
    assert [] + ins.refs == ins.refs;
  }

  lemma PayloadInverts(c: Const, suffix: seq<Byte>)
    requires FitsConst(c) && Storable(c)
    ensures ParsePayload(Kind(c), PayloadBytes(c) + suffix) == Parsed(c, suffix)
  {
    match c
    case ByteConst(b) => NumInverts(b, 256, suffix);
    case IntegerConst(i) => NumInverts(i, LIMIT, suffix);
    case FloatConst(bits) => assert (bits + suffix)[..8] == bits && (bits + suffix)[8..] == suffix;
    case StringConst(text) => TextInverts(text, suffix);
  }

  lemma {:induction false} ConstInverts(c: Const, suffix: seq<Byte>)
    requires FitsConst(c) && Storable(c)
    ensures ParseConst(ConstBytes(c) + suffix) == Parsed(c, suffix)
  {
    var tail := PayloadBytes(c) + suffix;
    assert ConstBytes(c) + suffix == Encode(Kind(c)) + tail;
    NumInverts(Kind(c), KEYS, tail);
    PayloadInverts(c, suffix);
  }

  lemma ConstEntryInverts(k: nat, c: Const, suffix: seq<Byte>)
    requires k < KEYS && FitsConst(c) && Storable(c)
    ensures ConstEntry(ConstEntryBytes(Entry(k, c)) + suffix) == Parsed(Entry(k, c), suffix)
  {
    var tail := ConstBytes(c) + suffix;
    assert ConstEntryBytes(Entry(k, c)) + suffix == Encode(k) + tail;
    NumInverts(k, KEYS, tail);
    ConstInverts(c, suffix);
  }

  /** An entry reader that inverts the entry writer on every line of the list. */
  ghost predicate Inverts<T>(item: seq<Byte> -> Parsed<Entry<T>>, bytes: Entry<T> -> seq<Byte>, es: seq<Entry<T>>) {
    forall i, tail :: 0 <= i < |es| ==> item(bytes(es[i]) + tail) == Parsed(es[i], tail)
  }

  lemma {:induction false} EntriesInvert<T>(
      item: seq<Byte> -> Parsed<Entry<T>>, bytes: Entry<T> -> seq<Byte>,
      es: seq<Entry<T>>, acc: map<nat, T>, suffix: seq<Byte>)
    requires Inverts(item, bytes, es)
    ensures ParseEntries(item, |es|, EntriesBytes(bytes, es) + suffix, acc) == Parsed(Added(acc, es), suffix)
    decreases |es|
  {
    if |es| == 0 {
      assert EntriesBytes(bytes, es) + suffix == suffix;
    } else {
      var tail := EntriesBytes(bytes, es[1..]) + suffix;
      assert EntriesBytes(bytes, es) + suffix == bytes(es[0]) + tail;
      EntriesInvert(item, bytes, es[1..], acc[es[0].key := es[0].value], suffix);
    }
  }

  lemma InstructionEntriesInvert(es: seq<Entry<Instruction>>)
    requires forall i :: 0 <= i < |es| ==> FitsInstruction(es[i].value) && es[i].value.key == es[i].key
    ensures Inverts(InstructionEntry, InstructionEntryBytes, es)
  {
    forall i, tail | 0 <= i < |es|
      ensures InstructionEntry(InstructionEntryBytes(es[i]) + tail) == Parsed(es[i], tail)
    {
      InstructionInverts(es[i].value, tail);
    }
  }

  lemma ConstEntriesInvert(es: seq<Entry<Const>>)
    requires forall i :: 0 <= i < |es| ==> es[i].key < KEYS && FitsConst(es[i].value) && Storable(es[i].value)
    ensures Inverts(ConstEntry, ConstEntryBytes, es)
  {
    forall i, tail | 0 <= i < |es|
      ensures ConstEntry(ConstEntryBytes(es[i]) + tail) == Parsed(es[i], tail)
    {
      ConstEntryInverts(es[i].key, es[i].value, tail);
    }
  }

  function HeaderOf(img: Image): Header {
    Header(img.entry, img.name, |img.instructions|, |img.consts|)
  }

  lemma TablesParsed(h: Header, s: seq<Byte>, t: Parsed<map<nat, Instruction>>, c: Parsed<map<nat, Const>>)
    requires ParseEntries(InstructionEntry, h.instructions, s, map[]) == t
    requires c == if t.Bad? then Bad else ParseEntries(ConstEntry, h.consts, t.rest, map[])
    ensures ParseTables(h, s) == Assemble(h, t, c)
  {
  }

  lemma InstructionTableInverts(img: Image, suffix: seq<Byte>)
    requires Fits(img)
    ensures ParseEntries(InstructionEntry, |img.instructions|, InstructionsBytes(img) + suffix, map[])
         == Parsed(img.instructions, suffix)
  {
    InstructionEntriesInvert(Listing(img.instructions));
    EntriesInvert(InstructionEntry, InstructionEntryBytes, Listing(img.instructions), map[], suffix);
    ListingAll(img.instructions);
  }

  lemma ConstTableInverts(img: Image, suffix: seq<Byte>)
    requires Fits(img) && Writable(img)
    ensures ParseEntries(ConstEntry, |img.consts|, ConstsBytes(img) + suffix, map[]) == Parsed(img.consts, suffix)
  {
    ConstEntriesInvert(Listing(img.consts));
    EntriesInvert(ConstEntry, ConstEntryBytes, Listing(img.consts), map[], suffix);
    ListingAll(img.consts);
  }

  lemma Assembled(h: Header, img: Image, rest: seq<Byte>, suffix: seq<Byte>)
    requires h.entry == img.entry && h.name == img.name && img.entry in img.instructions
    ensures Assemble(h, Parsed(img.instructions, rest), Parsed(img.consts, suffix)) == Parsed(Reread(img), suffix)
  {
  }

  lemma TablesInvert(img: Image, suffix: seq<Byte>)
    requires Fits(img) && Writable(img)
    ensures ParseTables(HeaderOf(img), InstructionsBytes(img) + (ConstsBytes(img) + suffix))
      == Parsed(Reread(img), suffix)
  {
    var consts := ConstsBytes(img) + suffix;
    InstructionTableInverts(img, consts);
    ConstTableInverts(img, suffix);
    TablesParsed(HeaderOf(img), InstructionsBytes(img) + consts,
                 Parsed(img.instructions, consts), Parsed(img.consts, suffix));
    Assembled(HeaderOf(img), img, consts, suffix);
  }

  lemma HeaderInverts(h: Header, suffix: seq<Byte>)
    requires h.entry < KEYS && |h.name| < KEYS && h.instructions < KEYS && h.consts < KEYS
    ensures ParseHeader(Encode(h.entry) + (TextBytes(h.name) + (Encode(h.instructions) + (Encode(h.consts) + suffix))))
         == Parsed(h, suffix)
  {
    var s3 := Encode(h.consts) + suffix;
    var s2 := Encode(h.instructions) + s3;
    var s1 := TextBytes(h.name) + s2;
    NumInverts(h.entry, KEYS, s1);
    TextInverts(h.name, s2);
    NumInverts(h.instructions, KEYS, s3);
    NumInverts(h.consts, KEYS, suffix);
  }

  lemma Regroup(a: seq<Byte>, b: seq<Byte>, c: seq<Byte>, d: seq<Byte>, e: seq<Byte>, f: seq<Byte>, suffix: seq<Byte>)
    ensures a + (b + (c + (d + (e + f)))) + suffix == a + (b + (c + (d + (e + (f + suffix)))))
  {
  }

  /** Reading what was written gives back name, entry point and both tables, and leaves
      whatever follows unread. */
  lemma {:induction false} ImageInverts(img: Image, suffix: seq<Byte>)
    requires Fits(img) && Writable(img)
    ensures ParseImage(ImageBytes(img) + suffix) == Parsed(Reread(img), suffix)
  {
    Regroup(Encode(img.entry), TextBytes(img.name), Encode(|img.instructions|), Encode(|img.consts|),
      InstructionsBytes(img), ConstsBytes(img), suffix);
    HeaderInverts(HeaderOf(img), InstructionsBytes(img) + (ConstsBytes(img) + suffix));
    TablesInvert(img, suffix);
  }
}
