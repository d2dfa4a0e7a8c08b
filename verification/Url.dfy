/** Percent encoding and query strings. A byte string is a sequence of bytes 0..255. */
module Url {
  import opened Common
  import opened Varint

  datatype Mode = Path | PathSegment | Host | Zone | UserPassword | QueryComponent | Fragment

  function Code(c: char): (b: Byte)
    requires c as int < 256
  {
    c as int
  }

  predicate IsHex(c: Byte) {
    Code('0') <= c <= Code('9') || Code('a') <= c <= Code('f') || Code('A') <= c <= Code('F')
  }

  function Unhex(c: Byte): nat {
    if Code('0') <= c <= Code('9') then c - Code('0')
    else if Code('a') <= c <= Code('f') then c - Code('a') + 10
    else if Code('A') <= c <= Code('F') then c - Code('A') + 10
    else 0
  }

  /** upperhex[n] */
  function Hex(n: nat): (c: Byte)
    requires n < 16
    ensures IsHex(c) && Unhex(c) == n
    ensures c != Code('%') && c != Code('+') && c != Code('&') && c != Code(';') && c != Code('=')
  {
    if n < 10 then Code('0') + n else Code('A') + n - 10
  }

  /** Letters and digits are never escaped. */
  predicate IsAlphanumeric(c: Byte) {
    Code('a') <= c <= Code('z') || Code('A') <= c <= Code('Z') || Code('0') <= c <= Code('9')
  }

  predicate IsHostMark(c: Byte) {
    || c == Code('!') || c == Code('$') || c == Code('&') || c == Code('\'') || c == Code('(') || c == Code(')')
    || c == Code('*') || c == Code('+') || c == Code(',') || c == Code(';') || c == Code('=') || c == Code(':')
    || c == Code('[') || c == Code(']') || c == Code('<') || c == Code('>') || c == Code('\"')
  }

  predicate IsUnreservedMark(c: Byte) {
    c == Code('-') || c == Code('_') || c == Code('.') || c == Code('~')
  }

  predicate IsReserved(c: Byte) {
    || c == Code('$') || c == Code('&') || c == Code('+') || c == Code(',') || c == Code('/')
    || c == Code(':') || c == Code(';') || c == Code('=') || c == Code('?') || c == Code('@')
  }

  predicate ShouldEscape(c: Byte, mode: Mode) {
    if IsAlphanumeric(c) then false
    else if (mode.Host? || mode.Zone?) && IsHostMark(c) then false
    else if IsUnreservedMark(c) then false
    else if IsReserved(c) && !mode.Host? && !mode.Zone? then
      match mode
      case Path => c == Code('?')
      case PathSegment => c == Code('/') || c == Code(';') || c == Code(',') || c == Code('?')
      case UserPassword => c == Code('@') || c == Code('/') || c == Code('?') || c == Code(':')
      case QueryComponent => true
      case _ => false
    else if mode.Fragment? && (c == Code('!') || c == Code('(') || c == Code(')') || c == Code('*')) then false
    else true
  }

  // ----- escaping -----

  function EscapedByte(c: Byte, mode: Mode): seq<Byte> {
    if c == Code(' ') && mode.QueryComponent? then [Code('+')]
    else if ShouldEscape(c, mode) then [Code('%'), Hex(c / 16), Hex(c % 16)]
    else [c]
  }

  function Escaped(s: seq<Byte>, mode: Mode): seq<Byte>
    decreases |s|
  {
    if |s| == 0 then [] else EscapedByte(s[0], mode) + Escaped(s[1..], mode)
  }

  lemma EscapedFirst(s: seq<Byte>, t: seq<Byte>, mode: Mode)
    requires |s| > 0
    ensures Escaped(s + t, mode) == EscapedByte(s[0], mode) + Escaped(s[1..] + t, mode)
  {
    assert (s + t)[0] == s[0] && (s + t)[1..] == s[1..] + t;
  }

  lemma {:induction false} EscapedAppend(s: seq<Byte>, t: seq<Byte>, mode: Mode)
    ensures Escaped(s + t, mode) == Escaped(s, mode) + Escaped(t, mode)
    decreases |s|
  {
    if |s| == 0 {
      assert s + t == t;
    } else {
      EscapedAppend(s[1..], t, mode);
      EscapedFirst(s, t, mode);
      Assoc(EscapedByte(s[0], mode), Escaped(s[1..], mode), Escaped(t, mode));
    }
  }

  lemma EscapedMore(s: seq<Byte>, i: nat, mode: Mode)
    requires i < |s|
    ensures Escaped(s[..i + 1], mode) == Escaped(s[..i], mode) + EscapedByte(s[i], mode)
  {
    assert s[..i + 1] == s[..i] + [s[i]];
    EscapedAppend(s[..i], [s[i]], mode);
    assert [s[i]][1..] == [];
  }

  /** A string of bytes that are left alone, but for blanks in a query. */
  lemma {:induction false} EscapedPlain(s: seq<Byte>, t: seq<Byte>, mode: Mode)
    requires |t| == |s| && forall i :: 0 <= i < |s| ==> EscapedByte(s[i], mode) == [t[i]]
    ensures Escaped(s, mode) == t
    decreases |s|
  {
    if |s| > 0 {
      EscapedPlain(s[1..], t[1..], mode);
    }
  }

  method Escape(s: seq<Byte>, mode: Mode) returns (t: seq<Byte>)
    ensures t == Escaped(s, mode)
  {
    var spaceCount, hexCount := 0, 0;
    for i := 0 to |s|
      invariant spaceCount >= 0 && hexCount >= 0
      invariant hexCount == 0 ==>
        forall j :: 0 <= j < i && ShouldEscape(s[j], mode) ==> s[j] == Code(' ') && mode.QueryComponent?
      invariant spaceCount == 0 ==>
        forall j :: 0 <= j < i && ShouldEscape(s[j], mode) ==> !(s[j] == Code(' ') && mode.QueryComponent?)
      invariant spaceCount > 0 ==> mode.QueryComponent?
    {
      if ShouldEscape(s[i], mode) {
        if s[i] == Code(' ') && mode.QueryComponent? {
          spaceCount := spaceCount + 1;
        } else {
          hexCount := hexCount + 1;
        }
      }
    }
    if spaceCount == 0 && hexCount == 0 {
      EscapedPlain(s, s, mode);
      return s;
    }
    if hexCount == 0 {
      t := BlanksToPlus(s);
      EscapedPlain(s, t, mode);
      return t;
    }
    t := EscapeAll(s, mode);
  }

  /** The copying loop. */
  method EscapeAll(s: seq<Byte>, mode: Mode) returns (t: seq<Byte>)
    ensures t == Escaped(s, mode)
  {
    t := [];
    for i := 0 to |s|
      invariant t == Escaped(s[..i], mode)
    {
      var c := s[i];
      EscapedMore(s, i, mode);
      if c == Code(' ') && mode.QueryComponent? {
        t := t + [Code('+')];
      } else if ShouldEscape(c, mode) {
        t := t + [Code('%'), Hex(c / 16), Hex(c % 16)];
      } else {
        t := t + [c];
      }
    }
    assert s[..|s|] == s;
  }

  method BlanksToPlus(s: seq<Byte>) returns (t: seq<Byte>)
    ensures |t| == |s| && forall i :: 0 <= i < |s| ==> t[i] == if s[i] == Code(' ') then Code('+') else s[i]
  {
    t := s;
    for i := 0 to |t|
      invariant |t| == |s|
      invariant forall j :: 0 <= j < |s| ==> t[j] == if j < i && s[j] == Code(' ') then Code('+') else s[j]
    {
      if s[i] == Code(' ') {
        t := t[i := Code('+')];
      }
    }
  }

  // ----- unescaping -----

  /** The two bytes after a percent sign are acceptable. */
  predicate GoodEscape(a: Byte, b: Byte, mode: Mode) {
    && IsHex(a) && IsHex(b)
    && (mode.Host? ==> Unhex(a) >= 8 || (a == Code('2') && b == Code('5')))
    && (mode.Zone? ==>
         (a == Code('2') && b == Code('5')) || Value(a, b) == Code(' ') || !ShouldEscape(Value(a, b), Host))
  }

  /** unhex(a) << 4 | unhex(b) */
  function Value(a: Byte, b: Byte): Byte {
    Unhex(a) * 16 + Unhex(b)
  }

  /** A signed char is below 0x80 whatever its bits, so bytes from 0x80 up are rejected in
      a host as well. */
  predicate GoodPlain(c: Byte, mode: Mode) {
    (mode.Host? || mode.Zone?) && c != Code('+') ==> !ShouldEscape(c, mode)
  }

  /** A plus sign stands for a blank in a query. */
  function Blank(c: Byte, mode: Mode): Byte {
    if c == Code('+') && mode.QueryComponent? then Code(' ') else c
  }

  /** None when the text is not well formed. */
  function Unescaped(s: seq<Byte>, mode: Mode): Option<seq<Byte>>
    decreases |s|
  {
    if |s| == 0 then Some([])
    else if s[0] == Code('%') then
      if |s| < 3 || !GoodEscape(s[1], s[2], mode) then None
      else Then(Value(s[1], s[2]), Unescaped(s[3..], mode))
    else if !GoodPlain(s[0], mode) then None
    else Then(Blank(s[0], mode), Unescaped(s[1..], mode))
  }

  // ----- the round trip -----

  /** What a byte's escape must meet to be read back. */
  predicate Survives(c: Byte, mode: Mode) {
    ShouldEscape(c, mode) ==>
      && (mode.Host? ==> c >= 0x80 || c == Code('%'))
      && (mode.Zone? ==> c == Code(' ') || c == Code('%'))
  }

  lemma NibblesJoin(c: Byte)
    ensures Value(Hex(c / 16), Hex(c % 16)) == c
  {
  }

  lemma PercentSurvives(c: Byte, mode: Mode)
    requires ShouldEscape(c, mode)
    ensures GoodEscape(Hex(c / 16), Hex(c % 16), mode) <==> Survives(c, mode)
  {
    NibblesJoin(c);
  }

  lemma PercentInverts(c: Byte, rest: seq<Byte>, mode: Mode)
    requires ShouldEscape(c, mode)
    ensures Unescaped([Code('%'), Hex(c / 16), Hex(c % 16)] + rest, mode)
         == if Survives(c, mode) then Then(c, Unescaped(rest, mode)) else None
  {
    var s := [Code('%'), Hex(c / 16), Hex(c % 16)] + rest;
    assert s[0] == Code('%') && s[1] == Hex(c / 16) && s[2] == Hex(c % 16) && s[3..] == rest;
    NibblesJoin(c);
    PercentSurvives(c, mode);
  }

  lemma ByteInverts(c: Byte, rest: seq<Byte>, mode: Mode)
    ensures Unescaped(EscapedByte(c, mode) + rest, mode) ==
      if Survives(c, mode) then Then(c, Unescaped(rest, mode)) else None
  {
    var e := EscapedByte(c, mode);
    if |e| == 3 {
      PercentInverts(c, rest, mode);
    } else {
      assert (e + rest)[0] == e[0] && (e + rest)[1..] == rest;
    }
  }

  /** Unescaping inverts escaping exactly on the strings whose bytes survive. */
  lemma {:induction false} UnescapeInverts(s: seq<Byte>, mode: Mode)
    ensures Unescaped(Escaped(s, mode), mode) ==
      if forall i :: 0 <= i < |s| ==> Survives(s[i], mode) then Some(s) else None
    decreases |s|
  {
    if |s| > 0 {
      UnescapeInverts(s[1..], mode);
      ByteInverts(s[0], Escaped(s[1..], mode), mode);
      assert s == [s[0]] + s[1..];
      if !(forall i :: 0 <= i < |s[1..]| ==> Survives(s[1..][i], mode)) {
        var i :| 0 <= i < |s[1..]| && !Survives(s[1..][i], mode);
        assert s[i + 1] == s[1..][i];
      }
    }
  }

  /** In every mode but host and zone, and so in paths and queries, every string survives. */
  lemma {:induction false} UnescapeInvertsAll(s: seq<Byte>, mode: Mode)
    requires !mode.Host? && !mode.Zone?
    ensures Unescaped(Escaped(s, mode), mode) == Some(s)
  {
    UnescapeInverts(s, mode);
  }

  /** A host keeps any string without ASCII bytes that would have to be escaped; a slash,
      for one, is lost. */
  lemma {:induction false} HostLosesSlash()
    ensures Unescaped(Escaped([Code('/')], Host), Host) == None
  {
    UnescapeInverts([Code('/')], Host);
    assert !Survives([Code('/')][0], Host);
  }

  // ----- what an escaped text is made of -----

  /** The characters of an escaped query: letters, digits, four marks, percent and plus. */
  predicate QuerySafe(c: Byte) {
    IsAlphanumeric(c) || IsUnreservedMark(c) || c == Code('%') || c == Code('+')
  }

  lemma {:induction false} QueryAlphabet(s: seq<Byte>)
    ensures forall i :: 0 <= i < |Escaped(s, QueryComponent)| ==> QuerySafe(Escaped(s, QueryComponent)[i])
    decreases |s|
  {
    if |s| > 0 {
      QueryAlphabet(s[1..]);
      HexAlphanumeric(s[0] / 16);
      HexAlphanumeric(s[0] % 16);
      var e, rest := EscapedByte(s[0], QueryComponent), Escaped(s[1..], QueryComponent);
      forall i | 0 <= i < |e + rest| ensures QuerySafe((e + rest)[i]) {
        assert (e + rest)[i] == if i < |e| then e[i] else rest[i - |e|];
      }
    }
  }

  lemma HexAlphanumeric(n: nat)
    requires n < 16
    ensures IsAlphanumeric(Hex(n))
  {
  }

  /** An escaped path never ends a path early: no question mark, no number sign, no blank and
      only ASCII. */
  predicate PathSafe(c: Byte) {
    c != Code('?') && c != Code('#') && 0x20 < c < 0x7F
  }

  lemma {:induction false} PathAlphabet(s: seq<Byte>)
    ensures forall i :: 0 <= i < |Escaped(s, Path)| ==> PathSafe(Escaped(s, Path)[i])
    decreases |s|
  {
    if |s| > 0 {
      PathAlphabet(s[1..]);
      HexAlphanumeric(s[0] / 16);
      HexAlphanumeric(s[0] % 16);
      var e, rest := EscapedByte(s[0], Path), Escaped(s[1..], Path);
      forall i | 0 <= i < |e + rest| ensures PathSafe((e + rest)[i]) {
        assert (e + rest)[i] == if i < |e| then e[i] else rest[i - |e|];
      }
    }
  }

  // ----- unescape's two loops -----

  /** The first loop: is everything from here on well formed. */
  predicate WellFormed(s: seq<Byte>, mode: Mode)
    decreases |s|
  {
    if |s| == 0 then true
    else if s[0] == Code('%') then |s| >= 3 && GoodEscape(s[1], s[2], mode) && WellFormed(s[3..], mode)
    else GoodPlain(s[0], mode) && WellFormed(s[1..], mode)
  }

  lemma {:induction false} WellFormedUnescapes(s: seq<Byte>, mode: Mode)
    ensures WellFormed(s, mode) <==> Unescaped(s, mode).Some?
    decreases |s|
  {
    if |s| > 0 {
      if s[0] == Code('%') {
        if |s| >= 3 {
          WellFormedUnescapes(s[3..], mode);
        }
      } else {
        WellFormedUnescapes(s[1..], mode);
      }
    }
  }

  /** Neither percent signs nor, in a query, plus signs. */
  lemma {:induction false} PlainUnescapes(s: seq<Byte>, mode: Mode)
    requires WellFormed(s, mode)
    requires forall i :: 0 <= i < |s| ==> s[i] != Code('%') && !(s[i] == Code('+') && mode.QueryComponent?)
    ensures Unescaped(s, mode) == Some(s)
    decreases |s|
  {
    if |s| > 0 {
      PlainUnescapes(s[1..], mode);
      assert [s[0]] + s[1..] == s;
    }
  }

  /** s[i], and the terminating zero behind the end. */
  function At(s: seq<Byte>, i: nat): Byte {
    if i < |s| then s[i] else 0
  }

  method IsWellFormed(s: seq<Byte>, mode: Mode) returns (ok: bool, escapes: nat, plus: bool)
    ensures ok == WellFormed(s, mode)
    ensures ok && escapes == 0 && !plus ==>
      forall i :: 0 <= i < |s| ==> s[i] != Code('%') && !(s[i] == Code('+') && mode.QueryComponent?)
  {
    ok, escapes, plus := true, 0, false;
    var i := 0;
    while i < |s| && ok
      invariant 0 <= i && (ok ==> i <= |s|)
      invariant WellFormed(s, mode) == (ok && WellFormed(s[i..], mode))
      invariant plus ==> mode.QueryComponent?
      invariant ok && escapes == 0 && !plus ==>
        forall j :: 0 <= j < i ==> s[j] != Code('%') && !(s[j] == Code('+') && mode.QueryComponent?)
      decreases |s| - i, ok
    {
      if s[i] == Code('%') {
        escapes := escapes + 1;
        ok := !(i + 2 > |s| || !GoodEscape(At(s, i + 1), At(s, i + 2), mode));
        Shape(s, i, mode);
        if ok {
          i := i + 3;
        }
      } else {
        Shape(s, i, mode);
        ok := GoodPlain(s[i], mode);
        if s[i] == Code('+') {
          plus := mode.QueryComponent?;
        }
        if ok {
          i := i + 1;
        }
      }
    }
  }

  /** One turn of the first loop. A percent sign one byte before the end is caught by the
      zero behind it. */
  lemma Shape(s: seq<Byte>, i: nat, mode: Mode)
    requires i < |s|
    ensures s[i] == Code('%') ==>
      var good := i + 2 <= |s| && GoodEscape(At(s, i + 1), At(s, i + 2), mode);
      (good ==> i + 3 <= |s|) && WellFormed(s[i..], mode) == (good && WellFormed(s[i + 3..], mode))
    ensures s[i] != Code('%') ==> WellFormed(s[i..], mode) == (GoodPlain(s[i], mode) && WellFormed(s[i + 1..], mode))
  {
    var r := s[i..];
    assert r[0] == s[i] && r[1..] == s[i + 1..];
    if |r| >= 3 {
      assert r[1] == s[i + 1] && r[2] == s[i + 2] && r[3..] == s[i + 3..];
    }
  }

  /** One turn of the second loop. */
  lemma UnescapeStep(done: seq<Byte>, s: seq<Byte>, i: nat, mode: Mode)
    requires i < |s| && WellFormed(s[i..], mode)
    ensures s[i] == Code('%') ==> i + 3 <= |s| && WellFormed(s[i + 3..], mode)
    ensures s[i] != Code('%') ==> WellFormed(s[i + 1..], mode)
    ensures Prepended(done, Unescaped(s[i..], mode)) == if s[i] == Code('%')
      then Prepended(done + [Value(s[i + 1], s[i + 2])], Unescaped(s[i + 3..], mode))
      else Prepended(done + [Blank(s[i], mode)], Unescaped(s[i + 1..], mode))
  {
    var r := s[i..];
    Shape(s, i, mode);
    assert r[0] == s[i] && r[1..] == s[i + 1..];
    if s[i] == Code('%') {
      assert r[1] == s[i + 1] && r[2] == s[i + 2] && r[3..] == s[i + 3..];
      PrependOne(done, Value(s[i + 1], s[i + 2]), Unescaped(s[i + 3..], mode));
    } else {
      PrependOne(done, Blank(s[i], mode), Unescaped(s[i + 1..], mode));
    }
  }

  method Unescape(s: seq<Byte>, mode: Mode) returns (t: Option<seq<Byte>>)
    ensures t == Unescaped(s, mode)
  {
    var ok, escapes, plus := IsWellFormed(s, mode);
    WellFormedUnescapes(s, mode);
    if !ok {
      return None;
    }
    if escapes == 0 && !plus {
      PlainUnescapes(s, mode);
      return Some(s);
    }
    var r: seq<Byte> := [];
    var i := 0;
    assert s[0..] == s && Prepended(r, Unescaped(s, mode)) == Unescaped(s, mode) by {
      assert [] + Unescaped(s, mode).value == Unescaped(s, mode).value;
    }
    while i < |s|
      invariant 0 <= i <= |s| && WellFormed(s[i..], mode)
      invariant Unescaped(s, mode) == Prepended(r, Unescaped(s[i..], mode))
    {
      UnescapeStep(r, s, i, mode);
      if s[i] == Code('%') {
        r := r + [Value(s[i + 1], s[i + 2])];
        i := i + 3;
      } else {
        r := r + [Blank(s[i], mode)];
        i := i + 1;
      }
    }
    assert r + [] == r;
    t := Some(r);
  }

  // ----- query strings -----

  datatype Pair = Pair(key: seq<Byte>, value: seq<Byte>)

  function PairText(p: Pair): seq<Byte> {
    Escaped(p.key, QueryComponent) + [Code('=')] + Escaped(p.value, QueryComponent)
  }

  /** The pairs in order, each after the first with an ampersand in front. */
  function QueryText(ps: seq<Pair>): seq<Byte>
    decreases |ps|
  {
    if |ps| == 0 then [] else QueryText(ps[..|ps| - 1]) + Separator(|ps|) + PairText(ps[|ps| - 1])
  }

  function Separator(n: nat): seq<Byte> {
    if n > 1 then [Code('&')] else []
  }

  /** query_encode on the map's entries in iteration order. */
  method QueryEncode(ps: seq<Pair>) returns (r: seq<Byte>)
    ensures r == QueryText(ps)
  {
    r := [];
    for i := 0 to |ps|
      invariant r == QueryText(ps[..i]) && (|r| > 0 <==> i > 0)
    {
      ghost var before := r;
      if |r| > 0 {
        r := r + [Code('&')];
      }
      var k := Escape(ps[i].key, QueryComponent);
      var v := Escape(ps[i].value, QueryComponent);
      r := r + k + [Code('=')] + v;
      QueryGrows(ps, i, before, r);
    }
    assert ps[..|ps|] == ps;
  }

  lemma QueryGrows(ps: seq<Pair>, i: nat, before: seq<Byte>, r: seq<Byte>)
    requires i < |ps| && before == QueryText(ps[..i])
    requires r == before + Separator(i + 1) + Escaped(ps[i].key, QueryComponent) + [Code('=')]
      + Escaped(ps[i].value, QueryComponent)
    ensures r == QueryText(ps[..i + 1]) && |r| > 0
  {
    assert ps[..i + 1][..i] == ps[..i] && ps[..i + 1][i] == ps[i];
    PairJoined(before + Separator(i + 1), Escaped(ps[i].key, QueryComponent), Escaped(ps[i].value, QueryComponent));
  }

  lemma PairJoined(b: seq<Byte>, k: seq<Byte>, v: seq<Byte>)
    ensures b + k + [Code('=')] + v == b + (k + [Code('=')] + v)
  {
  }

  /** split: the parts before each separator, and what is left unless it is empty. */
  function Split(part: seq<Byte>, text: seq<Byte>, c: Byte): seq<seq<Byte>>
    decreases |text|
  {
    if |text| == 0 then (if |part| > 0 then [part] else [])
    else if text[0] == c then [part] + Split([], text[1..], c)
    else Split(part + [text[0]], text[1..], c)
  }

  method SplitText(text: seq<Byte>, c: Byte) returns (r: seq<seq<Byte>>)
    ensures r == Split([], text, c)
  {
    r := [];
    var part := [];
    for i := 0 to |text|
      invariant Split([], text, c) == r + Split(part, text[i..], c)
    {
      assert text[i..][0] == text[i] && text[i..][1..] == text[i + 1..];
      if text[i] == c {
        assert r + ([part] + Split([], text[i + 1..], c)) == r + [part] + Split([], text[i + 1..], c);
        r, part := r + [part], [];
      } else {
        part := part + [text[i]];
      }
    }
    if |part| > 0 {
      r := r + [part];
    }
  }

  /** The first position of c, or the length. */
  function Find(s: seq<Byte>, c: Byte): (i: nat)
    ensures i <= |s| && (i < |s| ==> s[i] == c)
    ensures forall j :: 0 <= j < i ==> s[j] != c
    decreases |s|
  {
    if |s| == 0 || s[0] == c then 0 else Find(s[1..], c) + 1
  }

  predicate Contains(s: seq<Byte>, c: Byte) {
    Find(s, c) < |s|
  }

  /** A part without an equals sign, or that does not unescape, is dropped. */
  function ParsePair(part: seq<Byte>): Option<Pair> {
    var i := Find(part, Code('='));
    if i == |part| then None
    else
      var value, key := Unescaped(part[i + 1..], QueryComponent), Unescaped(part[..i], QueryComponent);
      if value.Some? && key.Some? then Some(Pair(key.value, value.value)) else None
  }

  /** A semicolon anywhere fails. */
  function ParsePairs(parts: seq<seq<Byte>>, done: seq<Pair>): Option<seq<Pair>>
    decreases |parts|
  {
    if |parts| == 0 then Some(done)
    else if Contains(parts[0], Code(';')) then None
    else
      var p := ParsePair(parts[0]);
      ParsePairs(parts[1..], if p.Some? then done + [p.value] else done)
  }

  function ParseQuery(query: seq<Byte>): Option<seq<Pair>> {
    ParsePairs(Split([], query, Code('&')), [])
  }

  method ParserQuerys(query: seq<Byte>) returns (r: Option<seq<Pair>>)
    ensures r == ParseQuery(query)
  {
    var parts := SplitText(query, Code('&'));
    var result := [];
    for n := 0 to |parts|
      invariant ParseQuery(query) == ParsePairs(parts[n..], result)
    {
      var part := parts[n];
      assert parts[n..][0] == part && parts[n..][1..] == parts[n + 1..];
      if Contains(part, Code(';')) {
        return None;
      }
      if |part| != 0 {
        var i := Find(part, Code('='));
        if i < |part| {
          var value := Unescape(part[i + 1..], QueryComponent);
          var key := Unescape(part[..i], QueryComponent);
          if value.Some? && key.Some? {
            result := result + [Pair(key.value, value.value)];
          }
        }
      }
    }
    r := Some(result);
  }

  // ----- the query round trip -----

  /** An escaped text has none of the characters that give a query its structure. */
  ghost predicate Quiet(s: seq<Byte>) {
    forall i :: 0 <= i < |s| ==> s[i] != Code('&') && s[i] != Code(';') && s[i] != Code('=')
  }

  lemma ByteQuiet(c: Byte)
    ensures Quiet(EscapedByte(c, QueryComponent))
  {
  }

  lemma {:induction false} EscapedQuiet(s: seq<Byte>)
    ensures Quiet(Escaped(s, QueryComponent))
    decreases |s|
  {
    if |s| > 0 {
      ByteQuiet(s[0]);
      EscapedQuiet(s[1..]);
    }
  }

  /** A part up to a separator, or up to the end. */
  lemma {:induction false} SplitPart(part: seq<Byte>, s: seq<Byte>, rest: seq<Byte>, c: Byte)
    requires forall i :: 0 <= i < |s| ==> s[i] != c
    requires |rest| > 0 ==> rest[0] == c
    requires |part| + |s| > 0
    ensures Split(part, s + rest, c) == [part + s] + if |rest| > 0 then Split([], rest[1..], c) else []
    decreases |s|
  {
    if |s| == 0 {
      assert s + rest == rest && part + s == part;
    } else {
      assert (s + rest)[0] == s[0] && (s + rest)[1..] == s[1..] + rest;
      SplitPart(part + [s[0]], s[1..], rest, c);
      assert part + [s[0]] + s[1..] == part + s;
    }
  }

  lemma FoundBetween(k: seq<Byte>, v: seq<Byte>)
    requires Quiet(k)
    ensures var s := k + [Code('=')] + v; Find(s, Code('=')) == |k| && s[..|k|] == k && s[|k| + 1..] == v
  {
    var s := k + [Code('=')] + v;
    assert s[|k|] == Code('=');
    assert forall i :: 0 <= i < |k| ==> s[i] == k[i];
  }

  lemma PairQuiet(p: Pair)
    ensures !Contains(PairText(p), Code(';'))
    ensures forall i :: 0 <= i < |PairText(p)| ==> PairText(p)[i] != Code('&')
  {
    var k, v := Escaped(p.key, QueryComponent), Escaped(p.value, QueryComponent);
    EscapedQuiet(p.key);
    EscapedQuiet(p.value);
    forall i | 0 <= i < |PairText(p)| ensures PairText(p)[i] != Code('&') && PairText(p)[i] != Code(';') {
      assert PairText(p)[i] == if i < |k| then k[i] else if i == |k| then Code('=') else v[i - |k| - 1];
    }
  }

  lemma PairParses(p: Pair)
    ensures ParsePair(PairText(p)) == Some(p)
  {
    EscapedQuiet(p.key);
    FoundBetween(Escaped(p.key, QueryComponent), Escaped(p.value, QueryComponent));
    UnescapeInvertsAll(p.key, QueryComponent);
    UnescapeInvertsAll(p.value, QueryComponent);
  }

  /** The parts of a query text are the pairs' texts. */
  function Texts(ps: seq<Pair>): (r: seq<seq<Byte>>)
    ensures |r| == |ps| && forall i :: 0 <= i < |ps| ==> r[i] == PairText(ps[i])
  {
    seq(|ps|, i requires 0 <= i < |ps| => PairText(ps[i]))
  }

  /** A query text, and more behind an ampersand. */
  lemma {:induction false} QuerySplits(ps: seq<Pair>, rest: seq<Byte>)
    requires |ps| > 0 && (|rest| > 0 ==> rest[0] == Code('&'))
    ensures Split([], QueryText(ps) + rest, Code('&')) ==
      Texts(ps) + if |rest| > 0 then Split([], rest[1..], Code('&')) else []
    decreases |ps|
  {
    var p, front := ps[|ps| - 1], ps[..|ps| - 1];
    LastPair(ps, rest);
    PairSplits(p, rest);
    TextsGrow(front, ps);
    if |ps| > 1 {
      QuerySplits(front, [Code('&')] + (PairText(p) + rest));
      assert ([Code('&')] + (PairText(p) + rest))[1..] == PairText(p) + rest;
    }
  }

  lemma PairSplits(p: Pair, rest: seq<Byte>)
    requires |rest| > 0 ==> rest[0] == Code('&')
    ensures Split([], PairText(p) + rest, Code('&'))
         == [PairText(p)] + if |rest| > 0 then Split([], rest[1..], Code('&')) else []
  {
    PairQuiet(p);
    SplitPart([], PairText(p), rest, Code('&'));
    assert [] + PairText(p) == PairText(p);
  }

  lemma LastPair(ps: seq<Pair>, rest: seq<Byte>)
    requires |ps| > 0
    ensures var last := PairText(ps[|ps| - 1]);
      QueryText(ps) + rest ==
      if |ps| == 1 then last + rest else QueryText(ps[..|ps| - 1]) + ([Code('&')] + (last + rest))
  {
    Grouped(QueryText(ps[..|ps| - 1]), Separator(|ps|), PairText(ps[|ps| - 1]), rest);
  }

  lemma TextsGrow(front: seq<Pair>, ps: seq<Pair>)
    requires |ps| > 0 && front == ps[..|ps| - 1]
    ensures Texts(ps) == Texts(front) + [PairText(ps[|ps| - 1])]
  {
  }

  lemma Grouped(a: seq<Byte>, b: seq<Byte>, c: seq<Byte>, d: seq<Byte>)
    ensures a + b + c + d == a + (b + (c + d))
  {
  }

  /** One turn of the loop over the parts. */
  lemma TextParses(p: Pair, rest: seq<seq<Byte>>, done: seq<Pair>)
    ensures ParsePairs([PairText(p)] + rest, done) == ParsePairs(rest, done + [p])
  {
    PairParses(p);
    PairQuiet(p);
    var parts := [PairText(p)] + rest;
    assert parts[0] == PairText(p) && parts[1..] == rest;
  }

  lemma {:induction false} TextsParse(ps: seq<Pair>, done: seq<Pair>)
    ensures ParsePairs(Texts(ps), done) == Some(done + ps)
    decreases |ps|
  {
    if |ps| == 0 {
      assert done + ps == done;
    } else {
      assert Texts(ps) == [PairText(ps[0])] + Texts(ps[1..]);
      TextParses(ps[0], Texts(ps[1..]), done);
      TextsParse(ps[1..], done + [ps[0]]);
      assert done + [ps[0]] + ps[1..] == done + ps;
    }
  }

  /** Parsing an encoded query gives back all pairs in order. */
  lemma {:induction false} QueryInverts(ps: seq<Pair>)
    ensures ParseQuery(QueryText(ps)) == Some(ps)
  {
    if |ps| > 0 {
      QuerySplits(ps, []);
      assert QueryText(ps) + [] == QueryText(ps) && Texts(ps) + [] == Texts(ps);
      TextsParse(ps, []);
      assert [] + ps == ps;
    }
  }
}
