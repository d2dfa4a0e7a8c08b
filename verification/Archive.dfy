/** The archive of encoded scripts: blocks one after the other in one file, their index in
    another, and what a reader finds after the writer has closed both. */
module Archive {
  import opened Common
  import opened Varint
  import opened Images
  import opened ScriptStream

  type Name = seq<Byte>

  datatype Index = Index(offset: nat, size: nat, crc: nat, name: Name)

  /** The mark at the end of an index file. */
  const END := Index(0, 0, 0, [])

  predicate IsZero(e: Index) {
    e.offset == 0 && e.size == 0 && |e.name| == 0
  }

  // ----- the index file -----

  function IndexBytes(e: Index): seq<Byte> {
    Encode(e.offset) + (Encode(e.size) + (Encode(e.crc) + TextBytes(e.name)))
  }

  function IndexFileBytes(es: seq<Index>): seq<Byte>
    decreases |es|
  {
    if |es| == 0 then IndexBytes(END) else IndexBytes(es[0]) + IndexFileBytes(es[1..])
  }

  function ParseIndex(s: seq<Byte>): Parsed<Index> {
    var offset := ParseNum(s, LIMIT);
    if offset.Bad? then Bad else
    var size := ParseNum(offset.rest, KEYS);
    if size.Bad? then Bad else
    var crc := ParseNum(size.rest, KEYS);
    if crc.Bad? then Bad else
    var name := ParseText(crc.rest);
    if name.Bad? then Bad else
    Parsed(Index(offset.value, size.value, crc.value, name.value), name.rest)
  }

  /** LoadIndexFile: entries up to a zero one. */
  function ParseIndexFile(s: seq<Byte>, t: map<Name, Index>): Parsed<map<Name, Index>>
    decreases |s|, 1
  {
    AfterIndex(ParseIndex(s), |s|, t)
  }

  /** An entry that is not zero has used up bytes, see IndexConsumes. */
  function AfterIndex(e: Parsed<Index>, n: nat, t: map<Name, Index>): Parsed<map<Name, Index>>
    decreases n, 0
  {
    if e.Bad? then Bad
    else if IsZero(e.value) then Parsed(t, e.rest)
    else if |e.rest| < n then ParseIndexFile(e.rest, t[e.value.name := e.value])
    else Bad
  }

  lemma {:induction false} DecodeConsumes(s: seq<Byte>, i: nat, last: Byte)
    requires i <= 9
    ensures |Decode(s, i, last).rest| <= |s|
    ensures i < 9 && |s| > 0 ==> |Decode(s, i, last).rest| < |s|
    decreases 9 - i
  {
    if i < 9 {
      var b := if |s| == 0 then last else s[0];
      var rest := if |s| == 0 then [] else s[1..];
      if b >= 128 {
        DecodeConsumes(rest, i + 1, b);
      }
    }
  }

  lemma NumConsumes(s: seq<Byte>, width: nat)
    requires width > 0 && ParseNum(s, width).Parsed?
    ensures |ParseNum(s, width).rest| <= |s|
    ensures |s| > 0 ==> |ParseNum(s, width).rest| < |s|
    ensures |s| == 0 ==> ParseNum(s, width) == Parsed(0, [])
  {
    DecodeConsumes(s, 0, 0);
    if |s| == 0 {
      assert s == [];
      CutSmall(0, width);
    }
  }

  /** Reading at the end of the file yields the end mark; so the loop over the index always
      ends. */
  lemma {:induction false} IndexConsumes(s: seq<Byte>)
    requires ParseIndex(s).Parsed?
    ensures |s| > 0 ==> |ParseIndex(s).rest| < |s|
    ensures |s| == 0 ==> ParseIndex(s) == Parsed(END, [])
  {
    var offset := ParseNum(s, LIMIT);
    var size := ParseNum(offset.rest, KEYS);
    var crc := ParseNum(size.rest, KEYS);
    NumConsumes(s, LIMIT);
    NumConsumes(offset.rest, KEYS);
    NumConsumes(size.rest, KEYS);
    NumConsumes(crc.rest, KEYS);
  }

  ghost predicate FitsIndex(e: Index) {
    e.offset < LIMIT && e.size < KEYS && e.crc < KEYS && |e.name| < KEYS
  }

  lemma IndexInverts(e: Index, suffix: seq<Byte>)
    requires FitsIndex(e)
    ensures ParseIndex(IndexBytes(e) + suffix) == Parsed(e, suffix)
  {
    var s3 := TextBytes(e.name) + suffix;
    var s2 := Encode(e.crc) + s3;
    var s1 := Encode(e.size) + s2;
    assert IndexBytes(e) + suffix == Encode(e.offset) + s1;
    NumInverts(e.offset, LIMIT, s1);
    NumInverts(e.size, KEYS, s2);
    NumInverts(e.crc, KEYS, s3);
    TextInverts(e.name, suffix);
  }

  /** The table after putting in the entries one after the other. */
  function Tabled(t: map<Name, Index>, es: seq<Index>): map<Name, Index>
    decreases |es|
  {
    if |es| == 0 then t else Tabled(t[es[0].name := es[0]], es[1..])
  }

  lemma {:induction false} IndexFileInverts(es: seq<Index>, t: map<Name, Index>)
    requires forall i :: 0 <= i < |es| ==> FitsIndex(es[i]) && !IsZero(es[i])
    ensures ParseIndexFile(IndexFileBytes(es), t) == Parsed(Tabled(t, es), [])
    decreases |es|
  {
    if |es| == 0 {
      IndexInverts(END, []);
      assert IndexBytes(END) + [] == IndexBytes(END);
    } else {
      IndexInverts(es[0], IndexFileBytes(es[1..]));
      IndexFileInverts(es[1..], t[es[0].name := es[0]]);
    }
  }

  lemma {:induction false} IndexFileCut(es: seq<Index>, t: map<Name, Index>, i: nat)
    requires i < |es| && IsZero(es[i])
    requires forall i :: 0 <= i < |es| ==> FitsIndex(es[i])
    ensures ParseIndexFile(IndexFileBytes(es), t).Parsed? && |ParseIndexFile(IndexFileBytes(es), t).rest| > 0
    decreases |es|
  {
    IndexInverts(es[0], IndexFileBytes(es[1..]));
    if IsZero(es[0]) {
      assert |IndexFileBytes(es[1..])| > 0;
    } else {
      assert es[1..][i - 1] == es[i];
      IndexFileCut(es[1..], t[es[0].name := es[0]], i - 1);
    }
  }

  /** The index file is read to its end, and gives back all entries, exactly when none of
      them looks like the end mark. */
  lemma {:induction false} IndexReloads(es: seq<Index>)
    requires forall i :: 0 <= i < |es| ==> FitsIndex(es[i])
    ensures ParseIndexFile(IndexFileBytes(es), map[]) == Parsed(Tabled(map[], es), [])
       <==> forall i :: 0 <= i < |es| ==> !IsZero(es[i])
  {
    if forall i :: 0 <= i < |es| ==> !IsZero(es[i]) {
      IndexFileInverts(es, map[]);
    } else {
      var i :| 0 <= i < |es| && IsZero(es[i]);
      IndexFileCut(es, map[], i);
    }
  }

  // ----- the block file -----

  /** The file, and the entries in the order they were written. */
  datatype Blocks = Blocks(data: seq<Byte>, entries: seq<Index>)

  function TableOf(b: Blocks): map<Name, Index> {
    Tabled(map[], b.entries)
  }

  function AppendBlock(b: Blocks, name: Name, content: seq<Byte>): Blocks {
    Blocks(b.data + content, b.entries + [Index(|b.data|, |content|, 0, name)])
  }

  /** A script whose name is already there is not written again. */
  function Store(b: Blocks, name: Name, content: seq<Byte>): Blocks {
    if name in TableOf(b) then b else AppendBlock(b, name, content)
  }

  datatype Item = Item(name: Name, content: seq<Byte>)

  function StoreAll(b: Blocks, log: seq<Item>): Blocks
    decreases |log|
  {
    if |log| == 0 then b else StoreAll(Store(b, log[0].name, log[0].content), log[1..])
  }

  function Slice(data: seq<Byte>, e: Index): Option<seq<Byte>> {
    if e.offset + e.size <= |data| then Some(data[e.offset..e.offset + e.size]) else None
  }

  function ReadBlock(data: seq<Byte>, t: map<Name, Index>, name: Name): Option<seq<Byte>> {
    if name in t then Slice(data, t[name]) else None
  }

  /** Each block starts where the one before it ends, the first at 0, the last ends with
      the file; no name occurs twice. */
  ghost predicate Tiled(b: Blocks) {
    && (|b.entries| == 0 ==> |b.data| == 0)
    && (|b.entries| > 0 ==> b.entries[0].offset == 0)
    && (forall i :: 0 < i < |b.entries| ==> b.entries[i].offset == b.entries[i - 1].offset + b.entries[i - 1].size)
    && (|b.entries| > 0 ==> var e := b.entries[|b.entries| - 1]; e.offset + e.size == |b.data|)
  }

  ghost predicate NamesDiffer(es: seq<Index>) {
    forall i, j :: 0 <= i < j < |es| ==> es[i].name != es[j].name
  }

  lemma {:induction false} TabledHas(t: map<Name, Index>, es: seq<Index>)
    requires NamesDiffer(es) && forall i :: 0 <= i < |es| ==> es[i].name !in t
    ensures forall i :: 0 <= i < |es| ==> es[i].name in Tabled(t, es) && Tabled(t, es)[es[i].name] == es[i]
    ensures forall n :: n in t ==> n in Tabled(t, es) && Tabled(t, es)[n] == t[n]
    ensures forall n :: n in Tabled(t, es) ==> n in t || exists i :: 0 <= i < |es| && es[i].name == n
    decreases |es|
  {
    if |es| > 0 {
      var rest, t' := es[1..], t[es[0].name := es[0]];
      TabledHas(t', rest);
      forall i | 0 <= i < |es| ensures es[i].name in Tabled(t, es) && Tabled(t, es)[es[i].name] == es[i] {
        if i > 0 {
          assert rest[i - 1] == es[i];
        } else {
          assert es[0].name in t';
        }
      }
      forall n | n in Tabled(t, es) ensures n in t || exists i :: 0 <= i < |es| && es[i].name == n {
        if n !in t && n != es[0].name {
          var i :| 0 <= i < |rest| && rest[i].name == n;
          assert es[i + 1].name == n;
        }
      }
    }
  }

  ghost predicate Stored(data: seq<Byte>, es: seq<Index>, contents: map<Name, seq<Byte>>) {
    forall i :: 0 <= i < |es| ==>
      && es[i].name in contents && es[i].crc == 0 && Slice(data, es[i]) == Some(contents[es[i].name])
  }

  ghost predicate Named(es: seq<Index>, n: Name) {
    exists i :: 0 <= i < |es| && es[i].name == n
  }

  /** What the archive holds: under every name the content, in the file between its offset
      and its end. */
  ghost predicate Holds(b: Blocks, contents: map<Name, seq<Byte>>) {
    && Tiled(b) && NamesDiffer(b.entries) && Stored(b.data, b.entries, contents)
    && forall n :: n in contents ==> Named(b.entries, n)
  }

  /** The first content logged under each name. */
  function FirstStored(contents: map<Name, seq<Byte>>, log: seq<Item>): map<Name, seq<Byte>>
    decreases |log|
  {
    if |log| == 0 then contents
    else FirstStored(if log[0].name in contents then contents else contents[log[0].name := log[0].content], log[1..])
  }

  lemma TableKeys(b: Blocks, contents: map<Name, seq<Byte>>)
    requires Holds(b, contents)
    ensures TableOf(b).Keys == contents.Keys
    ensures forall n :: n in contents ==> ReadBlock(b.data, TableOf(b), n) == Some(contents[n])
  {
    TabledHas(map[], b.entries);
    forall n | n in contents ensures n in TableOf(b) && ReadBlock(b.data, TableOf(b), n) == Some(contents[n]) {
      assert Named(b.entries, n);
      var i :| 0 <= i < |b.entries| && b.entries[i].name == n;
    }
  }

  /** A block already there is still there when more is written behind it. */
  lemma SliceStays(data: seq<Byte>, more: seq<Byte>, e: Index)
    requires Slice(data, e).Some?
    ensures Slice(data + more, e) == Slice(data, e)
  {
    assert (data + more)[e.offset..e.offset + e.size] == data[e.offset..e.offset + e.size];
  }

  lemma SliceLast(data: seq<Byte>, more: seq<Byte>, name: Name)
    ensures Slice(data + more, Index(|data|, |more|, 0, name)) == Some(more)
  {
    assert (data + more)[|data|..|data| + |more|] == more;
  }

  lemma AppendStored(b: Blocks, contents: map<Name, seq<Byte>>, name: Name, content: seq<Byte>)
    requires Stored(b.data, b.entries, contents) && name !in contents
    ensures var r := AppendBlock(b, name, content); Stored(r.data, r.entries, contents[name := content])
  {
    var r, c := AppendBlock(b, name, content), contents[name := content];
    forall i | 0 <= i < |r.entries|
      ensures r.entries[i].name in c && r.entries[i].crc == 0
      ensures Slice(r.data, r.entries[i]) == Some(c[r.entries[i].name])
    {
      if i < |b.entries| {
        assert b.entries[i] == r.entries[i];
        SliceStays(b.data, content, b.entries[i]);
      } else {
        SliceLast(b.data, content, name);
      }
    }
  }

  lemma AppendTiled(b: Blocks, name: Name, content: seq<Byte>)
    requires Tiled(b) && NamesDiffer(b.entries) && !Named(b.entries, name)
    ensures Tiled(AppendBlock(b, name, content)) && NamesDiffer(AppendBlock(b, name, content).entries)
  {
    var es := AppendBlock(b, name, content).entries;
    forall i, j | 0 <= i < j < |es| ensures es[i].name != es[j].name {
      assert es[i] == b.entries[i];
    }
  }

  lemma AppendHolds(b: Blocks, contents: map<Name, seq<Byte>>, name: Name, content: seq<Byte>)
    requires Holds(b, contents) && name !in contents
    ensures Holds(AppendBlock(b, name, content), contents[name := content])
  {
    var r, c := AppendBlock(b, name, content), contents[name := content];
    AppendStored(b, contents, name, content);
    assert !Named(b.entries, name);
    AppendTiled(b, name, content);
    forall n | n in c ensures Named(r.entries, n) {
      if n == name {
        assert r.entries[|b.entries|].name == n;
      } else {
        assert Named(b.entries, n);
        var i :| 0 <= i < |b.entries| && b.entries[i].name == n;
        assert r.entries[i].name == n;
      }
    }
  }

  lemma {:induction false} StoreAllHolds(b: Blocks, contents: map<Name, seq<Byte>>, log: seq<Item>)
    requires Holds(b, contents)
    ensures Holds(StoreAll(b, log), FirstStored(contents, log))
    decreases |log|
  {
    if |log| > 0 {
      var name, content := log[0].name, log[0].content;
      TableKeys(b, contents);
      if name in contents {
        StoreAllHolds(b, contents, log[1..]);
      } else {
        AppendHolds(b, contents, name, content);
        StoreAllHolds(AppendBlock(b, name, content), contents[name := content], log[1..]);
      }
    }
  }

  /** An enumeration of the table, in whatever order. */
  ghost predicate Lists(es: seq<Index>, t: map<Name, Index>) {
    && (forall i :: 0 <= i < |es| ==> es[i].name in t && t[es[i].name] == es[i])
    && (forall n :: n in t ==> exists i :: 0 <= i < |es| && es[i].name == n)
    && NamesDiffer(es)
  }

  lemma ListedTable(es: seq<Index>, t: map<Name, Index>)
    requires Lists(es, t)
    ensures Tabled(map[], es) == t
  {
    TabledHas(map[], es);
    forall n | n in t ensures n in Tabled(map[], es) && Tabled(map[], es)[n] == t[n] {
      var i :| 0 <= i < |es| && es[i].name == n;
    }
    forall n | n in Tabled(map[], es) ensures n in t {
      var i :| 0 <= i < |es| && es[i].name == n;
    }
  }

  const EMPTY := Blocks([], [])

  /** Storing any sequence of named contents, closing, and opening again: the index is the
      one that was written, every name gives the content first stored under it, and other
      names give nothing. */
  lemma {:induction false} ReopenedArchive(log: seq<Item>, es: seq<Index>)
    requires Lists(es, TableOf(StoreAll(EMPTY, log)))
    requires forall i :: 0 <= i < |es| ==> FitsIndex(es[i]) && !IsZero(es[i])
    ensures ParseIndexFile(IndexFileBytes(es), map[]) == Parsed(TableOf(StoreAll(EMPTY, log)), [])
    ensures TableOf(StoreAll(EMPTY, log)).Keys == FirstStored(map[], log).Keys
    ensures forall n :: n in FirstStored(map[], log) ==>
      ReadBlock(StoreAll(EMPTY, log).data, TableOf(StoreAll(EMPTY, log)), n) == Some(FirstStored(map[], log)[n])
    ensures Tiled(StoreAll(EMPTY, log))
  {
    IndexFileInverts(es, map[]);
    ListedTable(es, TableOf(StoreAll(EMPTY, log)));
    StoreAllHolds(EMPTY, map[], log);
    TableKeys(StoreAll(EMPTY, log), FirstStored(map[], log));
  }

  // ----- archives of scripts -----

  /** Offering a script to the archive: it is refused only when its name is new and it cannot be
      written, and then nothing is stored. */
  ghost predicate Offered(b: Blocks, img: Image, ok: bool, after: Blocks) {
    && (ok <==> img.name in TableOf(b) || Writable(img))
    && after == if ok then Store(b, img.name, ImageBytes(img)) else b
  }

  /** What the scripts leave in the archive: a block for each one that can be written. */
  ghost function LogOf(imgs: seq<Image>): (log: seq<Item>)
    ensures forall i :: 0 <= i < |log| ==> |log[i].content| > 0
  {
    if imgs == [] then []
    else
      var k := |imgs| - 1;
      if Writable(imgs[k]) then LogOf(imgs[..k]) + [ItemOf(imgs[k])] else LogOf(imgs[..k])
  }

  ghost function ItemOf(img: Image): (it: Item)
    ensures |it.content| > 0
  {
    Item(img.name, ImageBytes(img))
  }

  lemma {:induction false} StoreAllLast(b: Blocks, log: seq<Item>, last: Item)
    ensures StoreAll(b, log + [last]) == Store(StoreAll(b, log), last.name, last.content)
    decreases |log|
  {
    if log == [] {
      assert StoreAll(Store(b, last.name, last.content), []) == Store(b, last.name, last.content);
      assert ([] + [last])[1..] == [];
    } else {
      assert (log + [last])[1..] == log[1..] + [last];
      StoreAllLast(Store(b, log[0].name, log[0].content), log[1..], last);
    }
  }

  lemma OfferedNext(front: seq<Image>, img: Image, b: Blocks, ok: bool, after: Blocks)
    requires b == StoreAll(EMPTY, LogOf(front)) && Offered(b, img, ok, after)
    ensures after == StoreAll(EMPTY, LogOf(front + [img]))
  {
    assert (front + [img])[..|front|] == front;
    if Writable(img) {
      StoreAllLast(EMPTY, LogOf(front), ItemOf(img));
    }
  }

  ghost predicate OfferedAt(states: seq<Blocks>, imgs: seq<Image>, oks: seq<bool>, k: nat)
    requires k < |imgs| && |states| == |imgs| + 1 == |oks| + 1
  {
    Offered(states[k], imgs[k], oks[k], states[k + 1])
  }

  /** One script after another is offered to an archive that starts empty. */
  ghost predicate CachingRun(states: seq<Blocks>, imgs: seq<Image>, oks: seq<bool>) {
    && |states| == |imgs| + 1 == |oks| + 1 && states[0] == EMPTY
    && forall k :: 0 <= k < |imgs| ==> OfferedAt(states, imgs, oks, k)
  }

  /** Refused scripts included, the archive is what the log stores. */
  lemma {:induction false} RunStored(states: seq<Blocks>, imgs: seq<Image>, oks: seq<bool>, n: nat)
    requires CachingRun(states, imgs, oks) && n <= |imgs|
    ensures states[n] == StoreAll(EMPTY, LogOf(imgs[..n]))
  {
    if n > 0 {
      RunStored(states, imgs, oks, n - 1);
      assert OfferedAt(states, imgs, oks, n - 1);
      OfferedNext(imgs[..n - 1], imgs[n - 1], states[n - 1], oks[n - 1], states[n]);
      assert imgs[..n] == imgs[..n - 1] + [imgs[n - 1]];
    } else {
      assert imgs[..0] == [];
    }
  }

  /** Loading an encoded script: an empty block counts as an error. */
  function LoadEncoded(data: seq<Byte>, t: map<Name, Index>, name: Name): Option<Image> {
    var block := ReadBlock(data, t, name);
    if block.None? || |block.value| == 0 then None
    else
      var p := ParseImage(block.value);
      if p.Bad? then None else Some(p.value)
  }

  /** The position of the first script of that name that can be written. */
  ghost predicate FirstNamed(imgs: seq<Image>, i: nat) {
    i < |imgs| && Writable(imgs[i]) && forall j :: 0 <= j < i && Writable(imgs[j]) ==> imgs[j].name != imgs[i].name
  }

  /** What is stored under a name once something is. */
  lemma {:induction false} FirstStoredMore(contents: map<Name, seq<Byte>>, log: seq<Item>, last: Item)
    ensures FirstStored(contents, log + [last]) ==
      var c := FirstStored(contents, log);
      if last.name in c then c else c[last.name := last.content]
    decreases |log|
  {
    if log == [] {
      assert ([] + [last])[1..] == [];
    } else {
      assert (log + [last])[1..] == log[1..] + [last];
      var c := if log[0].name in contents then contents else contents[log[0].name := log[0].content];
      FirstStoredMore(c, log[1..], last);
    }
  }

  lemma {:induction false} LoadsBlock(data: seq<Byte>, t: map<Name, Index>, img: Image)
    requires Fits(img) && Writable(img) && ReadBlock(data, t, img.name) == Some(ImageBytes(img))
    ensures LoadEncoded(data, t, img.name) == Some(Reread(img))
  {
    ImageInverts(img, []);
    assert ImageBytes(img) + [] == ImageBytes(img);
  }

  ghost predicate NamesWritable(imgs: seq<Image>, n: Name) {
    exists j :: 0 <= j < |imgs| && Writable(imgs[j]) && imgs[j].name == n
  }

  /** What the log of one more script stores. */
  lemma FirstStoredNext(front: seq<Image>, img: Image)
    ensures var c := FirstStored(map[], LogOf(front));
      FirstStored(map[], LogOf(front + [img])) ==
      if Writable(img) && img.name !in c then c[img.name := ImageBytes(img)] else c
  {
    assert (front + [img])[..|front|] == front;
    if Writable(img) {
      FirstStoredMore(map[], LogOf(front), ItemOf(img));
    }
  }

  /** Nothing is stored under a name when no script of that name can be written. */
  lemma {:induction false} NoneStored(imgs: seq<Image>, n: Name)
    requires !NamesWritable(imgs, n)
    ensures n !in FirstStored(map[], LogOf(imgs))
    decreases |imgs|
  {
    if imgs != [] {
      var k := |imgs| - 1;
      var front := imgs[..k];
      assert imgs == front + [imgs[k]];
      forall j | 0 <= j < k ensures front[j] == imgs[j] {}
      NoneStored(front, n);
      FirstStoredNext(front, imgs[k]);
    }
  }

  /** Under a name the archive keeps the first script that could be written. */
  lemma {:induction false} FirstScriptStored(imgs: seq<Image>, i: nat)
    requires FirstNamed(imgs, i)
    ensures var contents := FirstStored(map[], LogOf(imgs));
      imgs[i].name in contents && contents[imgs[i].name] == ImageBytes(imgs[i])
    decreases |imgs|
  {
    var k := |imgs| - 1;
    var front := imgs[..k];
    assert imgs == front + [imgs[k]];
    FirstStoredNext(front, imgs[k]);
    if i == k {
      NoneStored(front, imgs[i].name);
    } else {
      assert front[i] == imgs[i];
      FirstScriptStored(front, i);
    }
  }

  lemma {:induction false} FirstNonEmpty(contents: map<Name, seq<Byte>>, log: seq<Item>)
    requires forall n :: n in contents ==> |contents[n]| > 0
    requires forall i :: 0 <= i < |log| ==> |log[i].content| > 0
    ensures forall n :: n in FirstStored(contents, log) ==> |FirstStored(contents, log)[n]| > 0
    decreases |log|
  {
    if |log| > 0 {
      FirstNonEmpty(if log[0].name in contents then contents else contents[log[0].name := log[0].content], log[1..]);
    }
  }

  /** No script is mistaken for the end mark. */
  lemma {:induction false} ScriptsNotZero(imgs: seq<Image>, es: seq<Index>)
    requires Lists(es, TableOf(StoreAll(EMPTY, LogOf(imgs))))
    ensures forall j :: 0 <= j < |es| ==> !IsZero(es[j])
  {
    var b, contents := StoreAll(EMPTY, LogOf(imgs)), FirstStored(map[], LogOf(imgs));
    StoreAllHolds(EMPTY, map[], LogOf(imgs));
    TableKeys(b, contents);
    FirstNonEmpty(map[], LogOf(imgs));
    forall j | 0 <= j < |es| ensures !IsZero(es[j]) {
      assert ReadBlock(b.data, TableOf(b), es[j].name) == Some(contents[es[j].name]);
    }
  }

  /** The archive of a log, reopened: a script that was the first of its name to be written. */
  lemma {:induction false} ReopenedScript(imgs: seq<Image>, b: Blocks, es: seq<Index>, i: nat)
    requires FirstNamed(imgs, i) && Fits(imgs[i])
    requires b == StoreAll(EMPTY, LogOf(imgs)) && Lists(es, TableOf(b))
    requires forall j :: 0 <= j < |es| ==> FitsIndex(es[j])
    ensures LoadEncoded(b.data, TableOf(b), imgs[i].name) == Some(Reread(imgs[i]))
  {
    ScriptsNotZero(imgs, es);
    ReopenedArchive(LogOf(imgs), es);
    FirstScriptStored(imgs, i);
    LoadsBlock(b.data, TableOf(b), imgs[i]);
  }

  lemma {:induction false} NothingReopened(imgs: seq<Image>, b: Blocks, n: Name)
    requires !NamesWritable(imgs, n) && b == StoreAll(EMPTY, LogOf(imgs))
    ensures LoadEncoded(b.data, TableOf(b), n) == None
  {
    NoneStored(imgs, n);
    StoreAllHolds(EMPTY, map[], LogOf(imgs));
    TableKeys(b, FirstStored(map[], LogOf(imgs)));
  }

  /** Caching scripts in any order, refused ones included, and reopening: the written index is
      read back, loading a name gives the first script of that name that could be written, and
      nothing when none could. */
  lemma {:induction false} ReopenedScripts(states: seq<Blocks>, imgs: seq<Image>, oks: seq<bool>, es: seq<Index>)
    requires CachingRun(states, imgs, oks)
    requires Lists(es, TableOf(states[|imgs|])) && forall j :: 0 <= j < |es| ==> FitsIndex(es[j])
    ensures ParseIndexFile(IndexFileBytes(es), map[]) == Parsed(TableOf(states[|imgs|]), [])
    ensures forall i: nat :: FirstNamed(imgs, i) && Fits(imgs[i]) ==>
      LoadEncoded(states[|imgs|].data, TableOf(states[|imgs|]), imgs[i].name) == Some(Reread(imgs[i]))
    ensures forall n :: !NamesWritable(imgs, n) ==>
      LoadEncoded(states[|imgs|].data, TableOf(states[|imgs|]), n) == None
  {
    var b := states[|imgs|];
    RunStored(states, imgs, oks, |imgs|);
    assert imgs[..|imgs|] == imgs;
    ScriptsNotZero(imgs, es);
    ReopenedArchive(LogOf(imgs), es);
    forall i: nat | FirstNamed(imgs, i) && Fits(imgs[i])
      ensures LoadEncoded(b.data, TableOf(b), imgs[i].name) == Some(Reread(imgs[i]))
    {
      ReopenedScript(imgs, b, es, i);
    }
    forall n | !NamesWritable(imgs, n) ensures LoadEncoded(b.data, TableOf(b), n) == None {
      NothingReopened(imgs, b, n);
    }
  }
}
