/** The archive as objects: the block file's writer and reader, the cache that writes every
    new script into it, and the loader of encoded scripts. */
module BlockFiles {
  import opened Common
  import opened Varint
  import opened Images
  import opened KeyResolution
  import opened ScriptLoading
  import opened ScriptStream
  import opened Scripts
  import opened Archive
  import Loader

  /** The two files of an archive. */
  class Disk {
    var file: seq<Byte>
    var index: seq<Byte>

    constructor () {
      file, index := [], [];
    }
  }

  lemma {:induction false} TabledOneMore(t: map<Name, Index>, es: seq<Index>, e: Index)
    ensures Tabled(t, es + [e]) == Tabled(t, es)[e.name := e]
    decreases |es|
  {
    if |es| == 0 {
      assert es + [e] == [e];
      assert Tabled(t[e.name := e], [e][1..]) == t[e.name := e];
    } else {
      assert (es + [e])[0] == es[0] && (es + [e])[1..] == es[1..] + [e];
      TabledOneMore(t[es[0].name := es[0]], es[1..], e);
    }
  }

  lemma {:induction false} IndexFileOneMore(es: seq<Index>, e: Index)
    ensures EntriesOnly(es + [e]) == EntriesOnly(es) + IndexBytes(e)
    ensures IndexFileBytes(es) == EntriesOnly(es) + IndexBytes(END)
    decreases |es|
  {
    if |es| == 0 {
      assert es + [e] == [e];
      assert EntriesOnly([e][1..]) == [];
    } else {
      assert (es + [e])[0] == es[0] && (es + [e])[1..] == es[1..] + [e];
      IndexFileOneMore(es[1..], e);
      Assoc(IndexBytes(es[0]), EntriesOnly(es[1..]), IndexBytes(e));
      Assoc(IndexBytes(es[0]), EntriesOnly(es[1..]), IndexBytes(END));
    }
  }

  /** The index file without its end mark. */
  function EntriesOnly(es: seq<Index>): seq<Byte>
    decreases |es|
  {
    if |es| == 0 then [] else IndexBytes(es[0]) + EntriesOnly(es[1..])
  }

  method WriteIndex(o: OutStream, e: Index)
    requires FitsIndex(e)
    modifies o
    ensures o.data == old(o.data) + IndexBytes(e)
  {
    var _ := WriteNum(o, e.offset);
    var _ := WriteNum(o, e.size);
    var _ := WriteNum(o, e.crc);
    WriteText(o, e.name);
    Regrouped(old(o.data), Encode(e.offset), Encode(e.size), Encode(e.crc), TextBytes(e.name), []);
    assert TextBytes(e.name) + [] == TextBytes(e.name);
  }

  method ReadIndex(i: InStream) returns (r: Option<Index>)
    requires i.Valid()
    modifies i
    ensures i.Valid() && Reads(ParseIndex(old(i.Rest())), r, i.Rest())
  {
    r := None;
    var offset := ReadNum(i, LIMIT);
    if offset.None? { return; }
    var size := ReadNum(i, KEYS);
    if size.None? { return; }
    var crc := ReadNum(i, KEYS);
    if crc.None? { return; }
    var name := ReadText(i);
    if name.None? { return; }
    r := Some(Index(offset.value, size.value, crc.value, name.value));
  }

  class BlockFile {
    const disk: Disk
    var table: map<Name, Index>
    var offset: nat
    ghost var blocks: Blocks

    /** A writer's table and offset follow from the blocks in the file. */
    ghost predicate Writer()
      reads this, disk
    {
      disk.file == blocks.data && table == TableOf(blocks) && offset == |blocks.data|
    }

    constructor NewWriter(disk: Disk)
      modifies disk
      ensures this.disk == disk && Writer() && blocks == EMPTY
      ensures disk.index == old(disk.index)
    {
      this.disk, table, offset, blocks := disk, map[], 0, EMPTY;
      new;
      disk.file := [];
    }

    constructor Opened(disk: Disk, table: map<Name, Index>)
      ensures this.disk == disk && this.table == table
    {
      this.disk, this.table, offset, blocks := disk, table, 0, EMPTY;
    }

    method Write(name: Name, content: seq<Byte>)
      requires Writer()
      modifies this, disk
      ensures Writer() && blocks == AppendBlock(old(blocks), name, content) && disk.index == old(disk.index)
    {
      var e := Index(offset, |content|, 0, name);
      TabledOneMore(map[], blocks.entries, e);
      disk.file := disk.file + content;
      table := table[name := e];
      offset := offset + |content|;
      blocks := AppendBlock(blocks, name, content);
    }

    /** WriteIndexFile: the entries of the table, each once, and the end mark. */
    method Close() returns (ghost es: seq<Index>)
      requires forall n :: n in table ==> FitsIndex(table[n]) && table[n].name == n
      modifies disk
      ensures disk.file == old(disk.file)
      ensures Lists(es, table) && disk.index == IndexFileBytes(es)
    {
      var o := new OutStream();
      var todo := table.Keys;
      es := [];
      while todo != {}
        invariant todo <= table.Keys && o.data == EntriesOnly(es)
        invariant ListsBut(es, table, todo) && fresh(o) && unchanged(disk)
      {
        var n :| n in todo;
        todo := todo - {n};
        WriteIndex(o, table[n]);
        IndexFileOneMore(es, table[n]);
        ListMore(es, table, todo, n);
        es := es + [table[n]];
      }
      IndexFileOneMore(es, END);
      WriteIndex(o, END);
      disk.index := o.data;
    }

    /** None where reading the index throws or finds no entry. */
    static method NewReader(disk: Disk) returns (b: BlockFile?)
      ensures var p := ParseIndexFile(disk.index, map[]);
        && (b != null <==> p.Parsed? && |p.value| > 0)
        && (b != null ==> fresh(b) && b.disk == disk && b.table == p.value)
    {
      b := null;
      var t := LoadIndexFile(disk);
      if t.Some? && |t.value| > 0 {
        b := new BlockFile.Opened(disk, t.value);
      }
    }

    static method LoadIndexFile(disk: Disk) returns (r: Option<map<Name, Index>>)
      ensures var p := ParseIndexFile(disk.index, map[]);
        r == if p.Parsed? then Some(p.value) else None
    {
      var i := new InStream(disk.index);
      var t: map<Name, Index> := map[];
      var reading := true;
      r := None;
      ghost var goal := ParseIndexFile(disk.index, map[]);
      while reading
        invariant i.Valid() && fresh(i)
        invariant reading ==> r == None && goal == ParseIndexFile(i.Rest(), t)
        invariant !reading ==> r == if goal.Parsed? then Some(goal.value) else None
        decreases if reading then |i.Rest()| + 1 else 0
      {
        ghost var rest := i.Rest();
        var e := ReadIndex(i);
        if e.None? {
          reading := false;
        } else {
          IndexConsumes(rest);
          if IsZero(e.value) {
            r, reading := Some(t), false;
          } else {
            t := t[e.value.name := e.value];
          }
        }
      }
    }

    method Read(name: Name) returns (r: Option<seq<Byte>>)
      ensures r == ReadBlock(disk.file, table, name)
    {
      r := None;
      if name in table {
        var e := table[name];
        if e.offset + e.size <= |disk.file| {
          r := Some(disk.file[e.offset..e.offset + e.size]);
        }
      }
    }

    /** LoadScriptFromEncodedFile */
    method LoadScript(name: Name) returns (s: Script?)
      ensures s != null ==> fresh(s)
      ensures LoadEncoded(disk.file, table, name) == if s == null then None else Some(s.Img())
    {
      s := null;
      var block := Read(name);
      if block.Some? && |block.value| > 0 {
        var i := new InStream(block.value);
        assert i.Rest() == block.value;
        var script := new Script([]);
        var ok := script.ReadFromStream(i);
        if ok {
          s := script;
        }
      }
    }
  }

  /** All lines of the table but those under the names still to do. */
  ghost predicate ListsBut(es: seq<Index>, t: map<Name, Index>, todo: set<Name>) {
    && NamesDiffer(es)
    && (forall i :: 0 <= i < |es| ==> es[i].name in t && es[i].name !in todo && t[es[i].name] == es[i])
    && (forall n :: n in t && n !in todo ==> Named(es, n))
  }

  lemma ListMore(es: seq<Index>, t: map<Name, Index>, todo: set<Name>, n: Name)
    requires n in t && n !in todo && t[n].name == n && ListsBut(es, t, todo + {n})
    ensures ListsBut(es + [t[n]], t, todo)
  {
    var r := es + [t[n]];
    forall m | m in t && m !in todo ensures Named(r, m) {
      if m == n {
        assert r[|es|].name == m;
      } else {
        assert Named(es, m);
        var i :| 0 <= i < |es| && es[i].name == m;
        assert r[i].name == m;
      }
    }
  }

  class CodeCacheWriter {
    const storage: BlockFile
    const shared: Loader.ScriptCache

    constructor (storage: BlockFile, shared: Loader.ScriptCache)
      ensures this.storage == storage && this.shared == shared
    {
      this.storage, this.shared := storage, shared;
    }

    /** Writes the script unless its name is already there, then offers it to the cache.
        False when the script cannot be written. */
    method OnNewScript(s: Script) returns (ok: bool, taken: bool)
      requires storage.Writer() && shared.Valid() && s !in shared.Objects()
      requires Fits(s.Img()) && Sound(s.Img())
      modifies storage, storage.disk, shared, s
      ensures storage.Writer()
      ensures Offered(old(storage.blocks), old(s.Img()), ok, storage.blocks)
      ensures ok ==> shared.Valid() && taken == GoesToCache(old(shared.model), old(s.Img()))
      ensures ok && !taken ==> s.Img() == old(s.Img())
    {
      ok := Archived(s);
      taken := Shared(s, ok);
    }

    /** The cache is offered the script unless the writing failed. */
    method Shared(s: Script, ok: bool) returns (taken: bool)
      requires shared.Valid() && s !in shared.Objects() && Sound(s.Img())
      modifies shared, s
      ensures ok ==> shared.Valid() && taken == GoesToCache(old(shared.model), old(s.Img()))
      ensures !taken ==> s.Img() == old(s.Img())
    {
      taken := false;
      if ok {
        taken := shared.OnNewScript(s);
      }
    }

    method Archived(s: Script) returns (ok: bool)
      requires storage.Writer() && Fits(s.Img())
      modifies storage, storage.disk
      ensures storage.Writer()
      ensures Offered(old(storage.blocks), s.Img(), ok, storage.blocks)
    {
      ok := true;
      if s.name !in storage.table {
        var o := new OutStream();
        ok := s.WriteToStream(o);
        if ok {
          assert o.data == ImageBytes(s.Img());
          storage.Write(s.name, o.data);
        }
      }
    }
  }
}
