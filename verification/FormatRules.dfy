/** The binary formats byte by byte: what numbers, scripts and index files look like to
    whoever reads them without this code. */
module FormatRules {
  import opened Common
  import opened Varint
  import opened Images
  import opened ScriptStream
  import opened Archive

  // ----- numbers -----

  /** Seven bits a byte, the low ones first. */
  ghost function Number(s: seq<Byte>): nat {
    if |s| == 0 then 0 else s[0] % 128 + 128 * Number(s[1..])
  }

  /** The high bit is set on all bytes but the last. */
  ghost predicate Chained(s: seq<Byte>) {
    |s| > 0 && s[|s| - 1] < 128 && forall i :: 0 <= i < |s| - 1 ==> s[i] >= 128
  }

  /** The shortest chain of bytes for n. */
  ghost predicate Stands(s: seq<Byte>, n: nat) {
    Chained(s) && Number(s) == n && (|s| > 1 ==> s[|s| - 1] > 0)
  }

  lemma ChainedStep(b: Byte, s: seq<Byte>)
    requires b >= 128 && Chained(s)
    ensures Chained([b] + s) && Number([b] + s) == b - 128 + 128 * Number(s)
  {
    assert ([b] + s)[1..] == s;
  }

  lemma {:induction false} EncodeStands(n: nat)
    ensures Stands(Encode(n), n)
    ensures n > 0 ==> Encode(n)[|Encode(n)| - 1] > 0
    decreases n
  {
    if n < 128 {
      assert Encode(n)[1..] == [];
    } else {
      EncodeStands(n / 128);
      ChainedStep(n % 128 + 128, Encode(n / 128));
    }
  }

  lemma OneByte(s: seq<Byte>)
    requires |s| == 1
    ensures Number(s) == s[0] % 128 && s == [s[0]]
  {
    assert s[1..] == [];
  }

  lemma {:induction false} TopCounts(s: seq<Byte>)
    requires Chained(s) && s[|s| - 1] > 0
    ensures Number(s) > 0
    decreases |s|
  {
    if |s| > 1 {
      TopCounts(s[1..]);
    } else {
      OneByte(s);
    }
  }

  lemma {:induction false} StandsIsEncode(s: seq<Byte>, n: nat)
    requires Stands(s, n)
    ensures s == Encode(n)
    decreases |s|
  {
    OneByteOrMore(s);
    if |s| > 1 {
      StandsIsEncode(s[1..], Number(s[1..]));
      assert n % 128 + 128 == s[0] && n / 128 == Number(s[1..]);
      assert s == [s[0]] + s[1..];
    }
  }

  lemma OneByteOrMore(s: seq<Byte>)
    requires Chained(s) && (|s| > 1 ==> s[|s| - 1] > 0)
    ensures |s| == 1 ==> s == [Number(s)] && Number(s) < 128
    ensures |s| > 1 ==> s[0] >= 128 && Stands(s[1..], Number(s[1..])) && Number(s) >= 128
  {
    if |s| == 1 {
      OneByte(s);
    } else {
      TopCounts(s[1..]);
      assert Number(s) == s[0] % 128 + 128 * Number(s[1..]);
    }
  }

  /** The encoding of a number is its unsigned LEB128 form: seven bits a byte, the low ones first,
      the high bit on all bytes but the last, and no byte more than needed. */
  lemma {:induction false} EncodeIsLeb128(s: seq<Byte>, n: nat)
    ensures Stands(s, n) <==> s == Encode(n)
  {
    EncodeStands(n);
    if Stands(s, n) {
      StandsIsEncode(s, n);
    }
  }

  // ----- decoding any bytes -----

  /** Decoding stops at the first byte below 128, and takes the number of the bytes up to it. */
  lemma {:induction false} DecodeStops(s: seq<Byte>, k: nat, i: nat, last: Byte)
    requires k < |s| && i + k < 9 && s[k] < 128 && forall j :: 0 <= j < k ==> s[j] >= 128
    ensures Decode(s, i, last) == Decoding(i + k + 1, Number(s[..k + 1]), s[k + 1..])
    decreases k
  {
    var t := s[..k + 1];
    if k > 0 {
      DecodeStops(s[1..], k - 1, i + 1, s[0]);
      assert t[1..] == s[1..][..k] && s[1..][k..] == s[k + 1..];
    } else {
      OneByte(t);
    }
  }

  /** Nine bytes from 128 up are refused; at the end of the stream the last byte is taken again,
      so an unfinished number is refused as well, and nothing at all counts as zero. */
  lemma {:induction false} DecodeRefuses(s: seq<Byte>, i: nat, last: Byte)
    requires i <= 9 && (forall j :: 0 <= j < 9 - i && j < |s| ==> s[j] >= 128)
    requires |s| == 0 ==> last >= 128
    ensures Decode(s, i, last).count == -1
    ensures Decode([], 0, 0) == Decoding(1, 0, [])
    decreases 9 - i
  {
    if i < 9 {
      if |s| == 0 {
        DecodeRefuses([], i + 1, last);
      } else {
        DecodeRefuses(s[1..], i + 1, s[0]);
      }
    }
  }

  // ----- instructions and constants -----

  ghost function Flat(pieces: seq<seq<Byte>>): seq<Byte> {
    if |pieces| == 0 then [] else pieces[0] + Flat(pieces[1..])
  }

  ghost predicate AllStand(pieces: seq<seq<Byte>>, ns: seq<nat>) {
    |pieces| == |ns| && forall i :: 0 <= i < |ns| ==> Stands(pieces[i], ns[i])
  }

  lemma {:induction false} RefsForm(pieces: seq<seq<Byte>>, refs: seq<nat>)
    requires AllStand(pieces, refs)
    ensures RefsBytes(refs) == Flat(pieces)
    decreases |refs|
  {
    if |refs| > 0 {
      EncodeIsLeb128(pieces[0], refs[0]);
      RefsForm(pieces[1..], refs[1..]);
    }
  }

  /** An instruction: operation code, key, length and bytes of the name, number of references, and
      the references. */
  lemma {:induction false} InstructionForm(ins: Instruction, op: seq<Byte>, key: seq<Byte>, length: seq<Byte>,
                                           count: seq<Byte>, refs: seq<seq<Byte>>)
    requires Stands(op, ins.opCode) && Stands(key, ins.key) && Stands(length, |ins.name|)
    requires Stands(count, |ins.refs|) && AllStand(refs, ins.refs)
    ensures InstructionBytes(ins) == op + key + length + ins.name + count + Flat(refs)
  {
    EncodeIsLeb128(op, ins.opCode);
    EncodeIsLeb128(key, ins.key);
    EncodeIsLeb128(length, |ins.name|);
    EncodeIsLeb128(count, |ins.refs|);
    RefsForm(refs, ins.refs);
    Grouped(op, key, length, ins.name, count, Flat(refs));
  }

  lemma Grouped(a: seq<Byte>, b: seq<Byte>, c: seq<Byte>, d: seq<Byte>, e: seq<Byte>, f: seq<Byte>)
    ensures a + (b + ((c + d) + (e + f))) == a + b + c + d + e + f
  {
  }

  /** A constant: 1 and the byte, 2 and the number, 3 and the eight bytes of a double, or 4 and
      length and bytes of the text. */
  lemma {:induction false} ConstForm(c: Const, n: seq<Byte>)
    requires c.ByteConst? ==> Stands(n, c.b)
    requires c.IntegerConst? ==> c.i >= 0 && Stands(n, c.i)
    requires c.StringConst? ==> Stands(n, |c.text|)
    ensures Storable(c)
    ensures c.ByteConst? || c.IntegerConst? ==> ConstBytes(c) == [if c.ByteConst? then 1 else 2] + n
    ensures c.FloatConst? ==> ConstBytes(c) == [3] + c.bits
    ensures c.StringConst? ==> ConstBytes(c) == [4] + n + c.text
  {
    match c
    case ByteConst(b) => EncodeIsLeb128(n, b);
    case IntegerConst(i) => EncodeIsLeb128(n, i);
    case FloatConst(_) =>
    case StringConst(text) =>
      EncodeIsLeb128(n, |text|);
      assert [4] + (n + text) == [4] + n + text;
  }

  // ----- whole scripts -----

  ghost predicate Rising(keys: seq<nat>) {
    forall i, j :: 0 <= i < j < |keys| ==> keys[i] < keys[j]
  }

  /** The keys of a table, each once, in ascending order. */
  ghost predicate Lines<T>(keys: seq<nat>, t: map<nat, T>) {
    Rising(keys) && forall k :: k in keys <==> k in t
  }

  ghost predicate SameKeys(a: seq<nat>, b: seq<nat>) {
    forall k :: k in a <==> k in b
  }

  lemma {:induction false} AscendingRises(keys: seq<nat>)
    requires Ascending(keys)
    ensures Rising(keys)
    decreases |keys|
  {
    if |keys| > 0 {
      var rest := keys[1..];
      AscendingRises(rest);
      forall i, j | 0 <= i < j < |keys| ensures keys[i] < keys[j] {
        assert keys[j] == rest[j - 1] && rest[j - 1] in rest;
        assert i > 0 ==> keys[i] == rest[i - 1];
      }
    }
  }

  lemma FirstSame(a: seq<nat>, b: seq<nat>)
    requires Rising(a) && Rising(b) && SameKeys(a, b) && |a| > 0
    ensures |b| > 0 && a[0] == b[0]
  {
    assert a[0] in b;
    assert b[0] in a;
  }

  lemma RestSame(a: seq<nat>, b: seq<nat>)
    requires Rising(a) && Rising(b) && SameKeys(a, b) && |a| > 0 && |b| > 0 && a[0] == b[0]
    ensures Rising(a[1..]) && Rising(b[1..]) && SameKeys(a[1..], b[1..])
  {
    InRest(a);
    InRest(b);
  }

  lemma InRest(a: seq<nat>)
    requires Rising(a) && |a| > 0
    ensures Rising(a[1..]) && forall k :: k in a[1..] <==> k in a && k != a[0]
  {
    assert a == [a[0]] + a[1..];
    assert forall i :: 0 <= i < |a[1..]| ==> a[1..][i] == a[i + 1];
  }

  lemma {:induction false} RisingOnce(a: seq<nat>, b: seq<nat>)
    requires Rising(a) && Rising(b) && SameKeys(a, b)
    ensures a == b
    decreases |a|
  {
    if |a| > 0 {
      FirstSame(a, b);
      RestSame(a, b);
      RisingOnce(a[1..], b[1..]);
      assert a == [a[0]] + a[1..] && b == [b[0]] + b[1..];
    } else if |b| > 0 {
      FirstSame(b, a);
      assert false;
    }
  }

  lemma ListingIs<T>(keys: seq<nat>, t: map<nat, T>)
    requires Lines(keys, t)
    ensures |Listing(t)| == |keys|
    ensures forall i :: 0 <= i < |keys| ==> Listing(t)[i].key == keys[i]
  {
    KeysAscend(t.Keys);
    AscendingRises(SortedKeys(t.Keys));
    RisingOnce(keys, SortedKeys(t.Keys));
  }

  lemma {:induction false} EntriesForm<T>(bytes: Entry<T> -> seq<Byte>, es: seq<Entry<T>>, pieces: seq<seq<Byte>>)
    requires |pieces| == |es| && forall i :: 0 <= i < |es| ==> bytes(es[i]) == pieces[i]
    ensures EntriesBytes(bytes, es) == Flat(pieces)
    decreases |es|
  {
    if |es| > 0 {
      EntriesForm(bytes, es[1..], pieces[1..]);
    }
  }

  /** The two tables: instructions in ascending order of their keys, each with its key inside, and
      constants in ascending order, each behind its key. */
  lemma {:induction false} TablesForm(img: Image, ks: seq<nat>, instructions: seq<seq<Byte>>,
                                      cs: seq<nat>, keys: seq<seq<Byte>>, consts: seq<seq<Byte>>)
    requires Writable(img) && Lines(ks, img.instructions) && Lines(cs, img.consts)
    requires |instructions| == |ks| && |consts| == |cs| && AllStand(keys, cs)
    requires forall i :: 0 <= i < |ks| ==> ks[i] in img.instructions
    requires forall i :: 0 <= i < |cs| ==> cs[i] in img.consts
    requires forall i :: 0 <= i < |ks| ==> instructions[i] == InstructionBytes(img.instructions[ks[i]])
    requires forall i :: 0 <= i < |cs| ==> consts[i] == keys[i] + ConstBytes(img.consts[cs[i]])
    ensures InstructionsBytes(img) == Flat(instructions) && ConstsBytes(img) == Flat(consts)
  {
    ListingIs(ks, img.instructions);
    ListingIs(cs, img.consts);
    EntriesForm(InstructionEntryBytes, Listing(img.instructions), instructions);
    forall i | 0 <= i < |cs| ensures ConstEntryBytes(Listing(img.consts)[i]) == consts[i] {
      EncodeIsLeb128(keys[i], cs[i]);
    }
    EntriesForm(ConstEntryBytes, Listing(img.consts), consts);
  }

  /** A script: entry key, length and bytes of the name, sizes of the two tables, the tables. */
  lemma {:induction false} ImageForm(img: Image, entry: seq<Byte>, length: seq<Byte>, n: seq<Byte>, m: seq<Byte>)
    requires Stands(entry, img.entry) && Stands(length, |img.name|)
    requires Stands(n, |img.instructions|) && Stands(m, |img.consts|)
    ensures ImageBytes(img) == entry + length + img.name + n + m + InstructionsBytes(img) + ConstsBytes(img)
  {
    EncodeIsLeb128(entry, img.entry);
    EncodeIsLeb128(length, |img.name|);
    EncodeIsLeb128(n, |img.instructions|);
    EncodeIsLeb128(m, |img.consts|);
    GroupedSeven(entry, length, img.name, n, m, InstructionsBytes(img), ConstsBytes(img));
  }

  lemma GroupedSeven(a: seq<Byte>, b: seq<Byte>, c: seq<Byte>, d: seq<Byte>, e: seq<Byte>, f: seq<Byte>, g: seq<Byte>)
    ensures a + ((b + c) + (d + (e + (f + g)))) == a + b + c + d + e + f + g
  {
  }

  /** Reading it back gives the name, the entry key and both tables, unmoved. */
  lemma {:induction false} ReadsBack(img: Image, suffix: seq<Byte>)
    requires Fits(img) && Writable(img)
    ensures var p := ParseImage(ImageBytes(img) + suffix);
      && p.Parsed? && p.rest == suffix && p.value.name == img.name && p.value.entry == img.entry
      && p.value.instructions == img.instructions && p.value.consts == img.consts
      && p.value.instructionBase == 0 && p.value.constBase == 0
  {
    ImageInverts(img, suffix);
  }

  // ----- the index of an archive -----

  /** An entry: offset, size, checksum, length and bytes of the name. */
  lemma {:induction false} IndexForm(e: Index, offset: seq<Byte>, size: seq<Byte>, crc: seq<Byte>, length: seq<Byte>)
    requires Stands(offset, e.offset) && Stands(size, e.size) && Stands(crc, e.crc) && Stands(length, |e.name|)
    ensures IndexBytes(e) == offset + size + crc + length + e.name
  {
    EncodeIsLeb128(offset, e.offset);
    EncodeIsLeb128(size, e.size);
    EncodeIsLeb128(crc, e.crc);
    EncodeIsLeb128(length, |e.name|);
    GroupedFive(offset, size, crc, length, e.name);
  }

  lemma GroupedFive(a: seq<Byte>, b: seq<Byte>, c: seq<Byte>, d: seq<Byte>, e: seq<Byte>)
    ensures a + (b + (c + (d + e))) == a + b + c + d + e
  {
  }

  /** The index file: the entries one after the other, and four zeros. */
  lemma {:induction false} IndexFileForm(es: seq<Index>, pieces: seq<seq<Byte>>)
    requires |pieces| == |es| && forall i :: 0 <= i < |es| ==> pieces[i] == IndexBytes(es[i])
    ensures IndexFileBytes(es) == Flat(pieces) + [0, 0, 0, 0]
    decreases |es|
  {
    if |es| == 0 {
      assert IndexBytes(END) == [0] + ([0] + ([0] + ([0] + [])));
    } else {
      IndexFileForm(es[1..], pieces[1..]);
      Assoc(pieces[0], Flat(pieces[1..]), [0, 0, 0, 0]);
    }
  }
}
