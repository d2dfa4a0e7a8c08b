/** What escaping, unescaping and query parsing do to any text, digit by digit. */
module UrlRules {
  import opened Common
  import opened Varint
  import opened Url

  // ----- hexadecimal digits -----

  /** `a` is the character of the hexadecimal digit n, in either case. */
  ghost predicate Spells(a: Byte, n: nat) {
    || (n < 10 && a == 48 + n)
    || (10 <= n < 16 && (a == 65 + (n - 10) || a == 97 + (n - 10)))
  }

  lemma SpellsIsHex(a: Byte)
    ensures IsHex(a) <==> exists n: nat :: n < 16 && Spells(a, n)
    ensures forall n: nat :: Spells(a, n) ==> Unhex(a) == n
  {
    if IsHex(a) {
      assert Spells(a, Unhex(a));
    }
  }

  /** An escape in front of a text, in the modes without rules of their own: however its digits
      are written, it stands for its byte. */
  lemma {:induction false} AnyCaseUnescapes(c: Byte, a: Byte, b: Byte, rest: seq<Byte>, mode: Mode)
    requires Spells(a, c / 16) && Spells(b, c % 16) && !mode.Host? && !mode.Zone?
    ensures var r := Unescaped(rest, mode);
      Unescaped([37, a, b] + rest, mode) == if r.None? then None else Some([c] + r.value)
  {
    EscapeFirst(a, b, rest, mode);
    SpellsIsHex(a);
    SpellsIsHex(b);
    assert Value(a, b) == c;
  }

  /** In a host only a percent sign and bytes from 0x80 up may be escaped. */
  lemma {:induction false} HostEscapes(c: Byte, a: Byte, b: Byte, rest: seq<Byte>)
    requires Spells(a, c / 16) && Spells(b, c % 16)
    ensures var r := Unescaped(rest, Host);
      Unescaped([37, a, b] + rest, Host) ==
      if r.None? || !(c >= 0x80 || c == 37) then None else Some([c] + r.value)
  {
    EscapeFirst(a, b, rest, Host);
    SpellsIsHex(a);
    SpellsIsHex(b);
    assert Unhex(a) >= 8 <==> c >= 0x80;
    assert a == 50 && b == 53 <==> c == 37;
  }

  /** In a zone a percent sign, a blank, and what a host leaves as it is. */
  lemma {:induction false} ZoneEscapes(c: Byte, a: Byte, b: Byte, rest: seq<Byte>)
    requires Spells(a, c / 16) && Spells(b, c % 16)
    ensures var r := Unescaped(rest, Zone);
      Unescaped([37, a, b] + rest, Zone) ==
      if r.None? || !(c == 37 || c == 32 || LeftIn(c, HOST_MARKS)) then None else Some([c] + r.value)
  {
    EscapeFirst(a, b, rest, Zone);
    SpellsIsHex(a);
    SpellsIsHex(b);
    assert Value(a, b) == c;
    assert a == 50 && b == 53 <==> c == 37;
    HostLeaves(c);
  }

  lemma EscapeFirst(a: Byte, b: Byte, rest: seq<Byte>, mode: Mode)
    ensures var r := Unescaped(rest, mode);
      Unescaped([37, a, b] + rest, mode) ==
      if r.None? || !GoodEscape(a, b, mode) then None else Some([Value(a, b)] + r.value)
  {
    var s := [37, a, b] + rest;
    assert s[0] == Code('%') && s[1] == a && s[2] == b && s[3..] == rest;
  }

  /** A percent sign without two hexadecimal digits behind it is refused, in every mode. */
  lemma {:induction false} BadEscapeRefused(s: seq<Byte>, mode: Mode)
    requires |s| > 0 && s[0] == 37
    requires |s| < 3 || (forall n: nat :: !Spells(s[1], n)) || (forall n: nat :: !Spells(s[2], n))
    ensures Unescaped(s, mode) == None
  {
    if |s| >= 3 {
      SpellsIsHex(s[1]);
      SpellsIsHex(s[2]);
    }
  }

  /** Nothing stands for nothing, and any other byte for itself, but a plus sign for a blank in a query; hosts and zones
      refuse the bytes they would have escaped. */
  lemma {:induction false} PlainByte(c: Byte, rest: seq<Byte>, mode: Mode)
    requires c != 37
    ensures Unescaped([], mode) == Some([])
    ensures var r := Unescaped(rest, mode);
      Unescaped([c] + rest, mode) ==
      if r.None? || ((mode.Host? || mode.Zone?) && c != 43 && !LeftIn(c, HOST_MARKS)) then None
      else Some([if c == 43 && mode.QueryComponent? then 32 else c] + r.value)
  {
    assert ([c] + rest)[0] == c && ([c] + rest)[1..] == rest;
    HostLeaves(c);
  }

  /** The same text, but for the case of the digits in its escapes. */
  ghost predicate SameButCase(s: seq<Byte>, t: seq<Byte>)
    decreases |s|
  {
    if |s| == 0 || |t| == 0 then s == t
    else if s[0] == 37 && t[0] == 37 && |s| >= 3 && |t| >= 3 then
      && (exists n: nat :: Spells(s[1], n) && Spells(t[1], n))
      && (exists n: nat :: Spells(s[2], n) && Spells(t[2], n))
      && SameButCase(s[3..], t[3..])
    else s[0] == t[0] && s[0] != 37 && SameButCase(s[1..], t[1..])
  }

  lemma {:induction false} CaseIgnored(s: seq<Byte>, t: seq<Byte>, mode: Mode)
    requires SameButCase(s, t)
    ensures Unescaped(s, mode) == Unescaped(t, mode)
    decreases |s|
  {
    if |s| > 0 && |t| > 0 {
      if s[0] == 37 {
        CaseIgnored(s[3..], t[3..], mode);
        var m: nat :| Spells(s[1], m) && Spells(t[1], m);
        var n: nat :| Spells(s[2], n) && Spells(t[2], n);
        SpellsIsHex(s[1]);
        SpellsIsHex(s[2]);
        SpellsIsHex(t[1]);
        SpellsIsHex(t[2]);
      } else {
        CaseIgnored(s[1..], t[1..], mode);
      }
    }
  }

  // ----- which bytes are left as they are -----

  ghost predicate In(c: Byte, s: string) {
    exists i :: 0 <= i < |s| && s[i] as int == c
  }

  /** A letter, a digit, or one of the marks. */
  ghost predicate LeftIn(c: Byte, marks: string) {
    65 <= c <= 90 || 97 <= c <= 122 || 48 <= c <= 57 || In(c, marks)
  }

  const PATH_MARKS: string := "-_.~$&+,/:;=@"
  const SEGMENT_MARKS: string := "-_.~$&+:=@"
  const USER_MARKS: string := "-_.~$&+,;="
  const QUERY_MARKS: string := "-_.~"
  const FRAGMENT_MARKS: string := "-_.~$&+,/:;=?@!()*"
  const HOST_MARKS: string := "-_.~!$&'()*+,;=:[]<>\""

  function Marks(mode: Mode): string {
    match mode
    case Path => PATH_MARKS
    case PathSegment => SEGMENT_MARKS
    case UserPassword => USER_MARKS
    case QueryComponent => QUERY_MARKS
    case Fragment => FRAGMENT_MARKS
    case Host => HOST_MARKS
    case Zone => HOST_MARKS
  }

  lemma HostLeaves(c: Byte)
    ensures ShouldEscape(c, Host) <==> !LeftIn(c, HOST_MARKS)
    ensures ShouldEscape(c, Zone) <==> !LeftIn(c, HOST_MARKS)
  {
    var s := HOST_MARKS;
    assert In(c, s) <==>
      c == s[0] as int || c == s[1] as int || c == s[2] as int || c == s[3] as int || c == s[4] as int
      || c == s[5] as int || c == s[6] as int || c == s[7] as int || c == s[8] as int || c == s[9] as int
      || c == s[10] as int || c == s[11] as int || c == s[12] as int || c == s[13] as int || c == s[14] as int
      || c == s[15] as int || c == s[16] as int || c == s[17] as int || c == s[18] as int || c == s[19] as int
      || c == s[20] as int;
  }

  lemma PathLeaves(c: Byte)
    ensures ShouldEscape(c, Path) <==> !LeftIn(c, PATH_MARKS)
  {
    var s := PATH_MARKS;
    assert In(c, s) <==>
      c == s[0] as int || c == s[1] as int || c == s[2] as int || c == s[3] as int || c == s[4] as int
      || c == s[5] as int || c == s[6] as int || c == s[7] as int || c == s[8] as int || c == s[9] as int
      || c == s[10] as int || c == s[11] as int || c == s[12] as int;
  }

  lemma SegmentLeaves(c: Byte)
    ensures ShouldEscape(c, PathSegment) <==> !LeftIn(c, SEGMENT_MARKS)
  {
    var s := SEGMENT_MARKS;
    assert In(c, s) <==>
      c == s[0] as int || c == s[1] as int || c == s[2] as int || c == s[3] as int || c == s[4] as int
      || c == s[5] as int || c == s[6] as int || c == s[7] as int || c == s[8] as int || c == s[9] as int;
  }

  lemma UserLeaves(c: Byte)
    ensures ShouldEscape(c, UserPassword) <==> !LeftIn(c, USER_MARKS)
  {
    var s := USER_MARKS;
    assert In(c, s) <==>
      c == s[0] as int || c == s[1] as int || c == s[2] as int || c == s[3] as int || c == s[4] as int
      || c == s[5] as int || c == s[6] as int || c == s[7] as int || c == s[8] as int || c == s[9] as int;
  }

  lemma QueryLeaves(c: Byte)
    ensures ShouldEscape(c, QueryComponent) <==> !LeftIn(c, QUERY_MARKS)
  {
    var s := QUERY_MARKS;
    assert In(c, s) <==>
      c == s[0] as int || c == s[1] as int || c == s[2] as int || c == s[3] as int;
  }

  lemma FragmentLeaves(c: Byte)
    ensures ShouldEscape(c, Fragment) <==> !LeftIn(c, FRAGMENT_MARKS)
  {
    var s := FRAGMENT_MARKS;
    assert In(c, s) <==>
      c == s[0] as int || c == s[1] as int || c == s[2] as int || c == s[3] as int || c == s[4] as int
      || c == s[5] as int || c == s[6] as int || c == s[7] as int || c == s[8] as int || c == s[9] as int
      || c == s[10] as int || c == s[11] as int || c == s[12] as int || c == s[13] as int || c == s[14] as int
      || c == s[15] as int || c == s[16] as int || c == s[17] as int;
  }

  /** Letters and digits are left as they are, and beside them the marks of each mode. */
  lemma {:induction false} LeftAsIs(c: Byte, mode: Mode)
    ensures ShouldEscape(c, mode) <==> !LeftIn(c, Marks(mode))
  {
    match mode
    case Path => PathLeaves(c);
    case PathSegment => SegmentLeaves(c);
    case UserPassword => UserLeaves(c);
    case QueryComponent => QueryLeaves(c);
    case Fragment => FragmentLeaves(c);
    case _ => HostLeaves(c);
  }

  /** `a` is the digit n, in upper case. */
  ghost predicate Upper(a: Byte, n: nat) {
    a == if n < 10 then 48 + n else 65 + (n - 10)
  }

  /** What one byte is written as. */
  ghost predicate Writes(e: seq<Byte>, c: Byte, mode: Mode) {
    if c == 32 && mode.QueryComponent? then e == [43]
    else if LeftIn(c, Marks(mode)) then e == [c]
    else |e| == 3 && e[0] == 37 && Upper(e[1], c / 16) && Upper(e[2], c % 16)
  }

  /** Escaping writes byte after byte: a blank in a query as a plus sign, the bytes a mode leaves
      alone as they are, all others as a percent sign and two upper-case digits. */
  lemma {:induction false} EscapesEach(c: Byte, rest: seq<Byte>, mode: Mode)
    ensures Escaped([], mode) == []
    ensures exists e :: Writes(e, c, mode) && Escaped([c] + rest, mode) == e + Escaped(rest, mode)
  {
    var s, e := [c] + rest, EscapedByte(c, mode);
    assert s[0] == c && s[1..] == rest;
    LeftAsIs(c, mode);
    assert Writes(e, c, mode);
    assert Escaped(s, mode) == e + Escaped(rest, mode);
  }

  // ----- query strings -----

  /** The parts, each with the separator behind it. */
  ghost function Closed(parts: seq<seq<Byte>>, c: Byte): seq<Byte> {
    if |parts| == 0 then [] else parts[0] + [c] + Closed(parts[1..], c)
  }

  /** The separator that is missing at the end of a text. */
  ghost function Missing(text: seq<Byte>, c: Byte): seq<Byte> {
    if |text| == 0 || text[|text| - 1] == c then [] else [c]
  }

  ghost predicate Free(part: seq<Byte>, c: Byte) {
    forall i :: 0 <= i < |part| ==> part[i] != c
  }

  ghost predicate AllFree(parts: seq<seq<Byte>>, c: Byte) {
    forall i :: 0 <= i < |parts| ==> Free(parts[i], c)
  }

  lemma ClosedStep(part: seq<Byte>, text: seq<Byte>, more: seq<seq<Byte>>, c: Byte)
    requires |text| > 0 && text[0] == c && AllFree(more, c) && Free(part, c)
    requires Closed(more, c) == text[1..] + Missing(text[1..], c)
    ensures AllFree([part] + more, c)
    ensures Closed([part] + more, c) == part + text + Missing(part + text, c)
  {
    assert ([part] + more)[1..] == more;
    assert Closed([part] + more, c) == part + [c] + (text[1..] + Missing(text[1..], c));
    assert Missing(part + text, c) == Missing(text[1..], c);
    Rejoined(part, text, Missing(text[1..], c));
  }

  lemma Rejoined(part: seq<Byte>, text: seq<Byte>, end: seq<Byte>)
    requires |text| > 0
    ensures part + [text[0]] + (text[1..] + end) == part + text + end
  {
    assert text == [text[0]] + text[1..];
  }

  lemma {:induction false} SplitFrom(part: seq<Byte>, text: seq<Byte>, c: Byte)
    requires Free(part, c)
    ensures AllFree(Split(part, text, c), c)
    ensures Closed(Split(part, text, c), c) == part + text + Missing(part + text, c)
    decreases |text|
  {
    if |text| == 0 {
      assert part + text == part;
      if |part| > 0 {
        assert [part][1..] == [];
      }
    } else if text[0] == c {
      SplitFrom([], text[1..], c);
      assert [] + text[1..] == text[1..];
      ClosedStep(part, text, Split([], text[1..], c), c);
    } else {
      SplitFrom(part + [text[0]], text[1..], c);
      assert part + [text[0]] + text[1..] == part + text;
    }
  }

  /** Splitting gives the parts between the separators, all of them, in order; behind a separator
      at the end there is no part. */
  lemma {:induction false} SplitMeans(text: seq<Byte>, c: Byte)
    ensures AllFree(Split([], text, c), c)
    ensures Closed(Split([], text, c), c) == text + Missing(text, c)
  {
    SplitFrom([], text, c);
    assert [] + text == text;
  }

  /** A part of a query is split at its first equals sign; it is dropped when there is none, or
      when one of the two sides does not unescape. */
  lemma {:induction false} PairMeans(k: seq<Byte>, v: seq<Byte>)
    requires Free(k, 61)
    ensures ParsePair(k) == None
    ensures var key, value := Unescaped(k, QueryComponent), Unescaped(v, QueryComponent);
      ParsePair(k + [61] + v) ==
      if key.Some? && value.Some? then Some(Pair(key.value, value.value)) else None
  {
    var part := k + [61] + v;
    assert part[|k|] == 61;
    assert forall i :: 0 <= i < |k| ==> part[i] == k[i];
    assert Find(part, 61) == |k| && part[..|k|] == k && part[|k| + 1..] == v;
  }

  /** The pairs of the parts that are not dropped, in order. */
  ghost function Kept(parts: seq<seq<Byte>>): seq<Pair> {
    if |parts| == 0 then []
    else
      var p := ParsePair(parts[0]);
      (if p.Some? then [p.value] else []) + Kept(parts[1..])
  }

  lemma {:induction false} ParsedFrom(parts: seq<seq<Byte>>, done: seq<Pair>)
    ensures ParsePairs(parts, done) == if AllFree(parts, 59) then Some(done + Kept(parts)) else None
    decreases |parts|
  {
    if |parts| == 0 {
      assert done + [] == done;
    } else {
      var p := ParsePair(parts[0]);
      var now := if p.Some? then done + [p.value] else done;
      ParsedFrom(parts[1..], now);
      FreeOrNot(parts);
      assert now + Kept(parts[1..]) == done + Kept(parts);
    }
  }

  lemma FreeOrNot(parts: seq<seq<Byte>>)
    requires |parts| > 0
    ensures AllFree(parts, 59) <==> !Contains(parts[0], 59) && AllFree(parts[1..], 59)
  {
    var rest := parts[1..];
    assert Free(parts[0], 59) <==> !Contains(parts[0], 59);
    if AllFree(rest, 59) && Free(parts[0], 59) {
      forall i | 0 <= i < |parts| ensures Free(parts[i], 59) {
        assert i > 0 ==> parts[i] == rest[i - 1];
      }
    }
  }

  lemma {:induction false} ClosedFree(parts: seq<seq<Byte>>, c: Byte, d: Byte)
    requires c != d
    ensures Free(Closed(parts, c), d) <==> AllFree(parts, d)
    decreases |parts|
  {
    if |parts| > 0 {
      var first, rest := parts[0] + [c], Closed(parts[1..], c);
      ClosedFree(parts[1..], c, d);
      FreeAppend(first, rest, d);
      FreeAppend(parts[0], [c], d);
      assert AllFree(parts, d) <==> Free(parts[0], d) && AllFree(parts[1..], d) by {
        assert forall i :: 0 < i < |parts| ==> parts[i] == parts[1..][i - 1];
      }
    }
  }

  lemma FreeAppend(s: seq<Byte>, t: seq<Byte>, d: Byte)
    ensures Free(s + t, d) <==> Free(s, d) && Free(t, d)
  {
    if Free(s + t, d) {
      assert forall i :: 0 <= i < |s| ==> s[i] == (s + t)[i];
      assert forall i :: 0 <= i < |t| ==> t[i] == (s + t)[|s| + i];
    }
  }

  /** Parsing fails exactly on a query that has a semicolon; otherwise it gives the pairs of the
      parts between the ampersands, in order, but for the parts that are dropped. */
  lemma {:induction false} ParseMeans(query: seq<Byte>)
    ensures ParseQuery(query) == if Free(query, 59) then Some(Kept(Split([], query, 38))) else None
  {
    var parts := Split([], query, 38);
    SplitMeans(query, 38);
    ParsedFrom(parts, []);
    ClosedFree(parts, 38, 59);
    FreeAppend(query, Missing(query, 38), 59);
    assert [] + Kept(parts) == Kept(parts);
  }
}
