/** Two base64 codecs: one that collects bits in an accumulator, one that works on blocks of
    three bytes. */
module Base64 {
  import opened Common
  import opened Varint
  import opened Words

  const PAD: Byte := 61

  /** The digit's character. */
  function Digit(n: nat): (c: Byte)
    requires n < 64
  {
    if n < 26 then 65 + n
    else if n < 52 then 97 + (n - 26)
    else if n < 62 then 48 + (n - 52)
    else if n == 62 then 43
    else 47
  }

  /** The reverse tables; 64 and more stand for characters that are no digits. */
  function Sextet(c: Byte): (n: nat)
    ensures n <= 64
  {
    if 65 <= c <= 90 then c - 65
    else if 97 <= c <= 122 then c - 97 + 26
    else if 48 <= c <= 57 then c - 48 + 52
    else if c == 43 then 62
    else if c == 47 then 63
    else 64
  }

  lemma DigitInverts(n: nat)
    requires n < 64
    ensures Sextet(Digit(n)) == n && !Skipped(Digit(n))
  {
  }

  /** White space and padding, which the first decoder skips. */
  predicate Skipped(c: Byte) {
    9 <= c <= 13 || c == 32 || c == PAD
  }

  // ----- the text of a byte string, block by block -----

  function Block(a: Byte, b: Byte, c: Byte): seq<Byte> {
    [Digit(a / 4), Digit(a % 4 * 16 + b / 16), Digit(b % 16 * 4 + c / 64), Digit(c % 64)]
  }

  function Last(s: seq<Byte>): seq<Byte>
    requires |s| < 3
  {
    if |s| == 0 then []
    else if |s| == 1 then [Digit(s[0] / 4), Digit(s[0] % 4 * 16), PAD, PAD]
    else [Digit(s[0] / 4), Digit(s[0] % 4 * 16 + s[1] / 16), Digit(s[1] % 16 * 4), PAD]
  }

  function Encoded(s: seq<Byte>): (t: seq<Byte>)
    ensures |t| == (|s| + 2) / 3 * 4
    decreases |s|
  {
    if |s| < 3 then Last(s) else Block(s[0], s[1], s[2]) + Encoded(s[3..])
  }

  // ----- the bit accumulator -----

  /** v >> low, and the bits shifted out. */
  function High(v: nat, low: nat): nat {
    Quot(v, Pow2(low))
  }

  function Low(v: nat, low: nat): (r: nat)
    ensures r < Pow2(low)
  {
    Rem(v, Pow2(low))
  }

  /** v << n */
  function Up(v: nat, n: nat): nat {
    v * Pow2(n)
  }

  /** Emits the text of the low `bits` bits of v followed by s. */
  function Stream(v: nat, bits: nat, s: seq<Byte>): seq<Byte>
    requires v < Pow2(bits)
    decreases |s|, bits
  {
    if bits >= 6 then
      HighBound(v, bits - 6, 6);
      [Digit(High(v, bits - 6))] + Stream(Low(v, bits - 6), bits - 6, s)
    else if |s| > 0 then
      JoinBound(v, bits, s[0]);
      Stream(v * 256 + s[0], bits + 8, s[1..])
    else if bits > 0 then
      UpBound(v, bits);
      [Digit(Up(v, 6 - bits))]
    else []
  }

  lemma HighBound(v: nat, low: nat, high: nat)
    requires v < Pow2(low + high)
    ensures High(v, low) < Pow2(high) && v == High(v, low) * Pow2(low) + Low(v, low)
    ensures high == 6 ==> High(v, low) < 64
    ensures high == 8 ==> High(v, low) < 256
  {
    Pow2Add(low, high);
    HighLow(v, low);
    QuotBound(v, Pow2(low), Pow2(high));
    assert Pow2(6) == 64 && Pow2(8) == 256;
  }

  lemma QuotBound(v: nat, n: nat, m: nat)
    requires n > 0 && v < n * m
    ensures Quot(v, n) < m
  {
    DivMod(v, n);
    if m <= Quot(v, n) {
      MulMono(m, Quot(v, n), n);
    }
  }

  lemma HighLow(v: nat, low: nat)
    ensures v == High(v, low) * Pow2(low) + Low(v, low)
  {
    DivMod(v, Pow2(low));
  }

  lemma DivMod(v: nat, n: nat)
    requires n > 0
    ensures v == Quot(v, n) * n + Rem(v, n)
  {
  }

  lemma JoinBound(v: nat, bits: nat, b: Byte)
    requires v < Pow2(bits)
    ensures v * 256 + b < Pow2(bits + 8)
  {
    Pow2Add(bits, 8);
    assert Pow2(8) == 256;
    MulMono(v + 1, Pow2(bits), 256);
  }

  lemma UpBound(v: nat, bits: nat)
    requires v < Pow2(bits) && bits <= 6
    ensures Up(v, 6 - bits) < 64
  {
    Pow2Add(bits, 6 - bits);
    assert Pow2(6) == 64;
    MulMono(v + 1, Pow2(bits), Pow2(6 - bits));
    assert (v + 1) * Pow2(6 - bits) == v * Pow2(6 - bits) + Pow2(6 - bits);
  }

  lemma SmallPowers()
    ensures Pow2(0) == 1 && Pow2(2) == 4 && Pow2(4) == 16 && Pow2(6) == 64
    ensures Pow2(8) == 256 && Pow2(10) == 1024 && Pow2(12) == 4096
  {
    Pow2Add(6, 6);
    Pow2Add(4, 6);
  }

  /** The first byte of a block: six bits go out, two stay. */
  lemma StreamFirst(a: Byte, s: seq<Byte>)
    ensures a % 4 < Pow2(2) && Stream(0, 0, [a] + s) == [Digit(a / 4)] + Stream(a % 4, 2, s)
  {
    SmallPowers();
    assert ([a] + s)[1..] == s;
    assert Stream(0, 0, [a] + s) == Stream(a, 8, s);
  }

  lemma StreamSecond(v: nat, b: Byte, s: seq<Byte>)
    requires v < 4
    ensures v < Pow2(2) && b % 16 < Pow2(4) && Stream(v, 2, [b] + s) == [Digit(v * 16 + b / 16)] + Stream(b % 16, 4, s)
  {
    SmallPowers();
    assert ([b] + s)[1..] == s;
    assert Stream(v, 2, [b] + s) == Stream(v * 256 + b, 10, s);
    assert High(v * 256 + b, 4) == v * 16 + b / 16 && Low(v * 256 + b, 4) == b % 16;
  }

  lemma StreamThird(v: nat, c: Byte, s: seq<Byte>)
    requires v < 16
    ensures v < Pow2(4) && Stream(v, 4, [c] + s) == [Digit(v * 4 + c / 64), Digit(c % 64)] + Stream(0, 0, s)
  {
    SmallPowers();
    assert ([c] + s)[1..] == s;
    assert Stream(v, 4, [c] + s) == Stream(v * 256 + c, 12, s);
    assert High(v * 256 + c, 6) == v * 4 + c / 64 && Low(v * 256 + c, 6) == c % 64;
    assert High(c % 64, 0) == c % 64 && Low(c % 64, 0) == 0;
  }

  function Padding(n: nat): seq<Byte> {
    if n % 3 == 1 then [PAD, PAD] else if n % 3 == 2 then [PAD] else []
  }

  lemma OneByte(a: Byte)
    ensures Encoded([a]) == Stream(0, 0, [a]) + [PAD, PAD]
  {
    StreamFirst(a, []);
    StreamEnd(a % 4, 2);
    assert [a] + [] == [a];
  }

  lemma TwoBytes(a: Byte, b: Byte)
    ensures Encoded([a, b]) == Stream(0, 0, [a, b]) + [PAD]
  {
    StreamFirst(a, [b]);
    StreamSecond(a % 4, b, []);
    StreamEnd(b % 16, 4);
    assert [a] + [b] == [a, b] && [b] + [] == [b];
  }

  lemma ThreeBytes(a: Byte, b: Byte, c: Byte, rest: seq<Byte>, pad: seq<Byte>)
    requires Encoded(rest) == Stream(0, 0, rest) + pad
    ensures Encoded([a, b, c] + rest) == Stream(0, 0, [a, b, c] + rest) + pad
  {
    var s := [a, b, c] + rest;
    assert s[0] == a && s[1] == b && s[2] == c && s[3..] == rest;
    assert s == [a] + ([b] + ([c] + rest));
    StreamBlock(a, b, c, rest);
    assert Block(a, b, c) + Stream(0, 0, rest) + pad == Block(a, b, c) + (Stream(0, 0, rest) + pad);
  }

  lemma PaddingRepeats(n: nat)
    ensures Padding(n + 3) == Padding(n)
  {
  }

  /** Both ways of encoding give the same text, but for the padding. */
  lemma {:induction false} StreamIsBlocks(s: seq<Byte>)
    ensures Encoded(s) == Stream(0, 0, s) + Padding(|s|)
    decreases |s|
  {
    if |s| == 0 {
    } else if |s| == 1 {
      OneByte(s[0]);
      assert s == [s[0]];
    } else if |s| == 2 {
      TwoBytes(s[0], s[1]);
      assert s == [s[0], s[1]];
    } else {
      StreamIsBlocks(s[3..]);
      PaddingRepeats(|s| - 3);
      ThreeBytes(s[0], s[1], s[2], s[3..], Padding(|s|));
      assert s == [s[0], s[1], s[2]] + s[3..];
    }
  }

  lemma StreamEnd(v: nat, bits: nat)
    requires (bits == 2 && v < 4) || (bits == 4 && v < 16)
    ensures v < Pow2(bits) && Stream(v, bits, []) == [Digit(if bits == 2 then v * 16 else v * 4)]
  {
    SmallPowers();
  }

  lemma StreamBlock(a: Byte, b: Byte, c: Byte, s: seq<Byte>)
    ensures Stream(0, 0, [a] + ([b] + ([c] + s))) == Block(a, b, c) + Stream(0, 0, s)
  {
    StreamFirst(a, [b] + ([c] + s));
    StreamSecond(a % 4, b, [c] + s);
    StreamThird(b % 16, c, s);
  }

  // ----- decoding with the accumulator -----

  /** None when a character is neither a digit nor skipped. */
  function Unstream(v: nat, bits: nat, t: seq<Byte>): Option<seq<Byte>>
    requires v < Pow2(bits) && bits < 8
    decreases |t|
  {
    if |t| == 0 then Some([])
    else if Skipped(t[0]) then Unstream(v, bits, t[1..])
    else if Sextet(t[0]) > 63 then None
    else
      SextetBound(v, bits, Sextet(t[0]));
      var w := v * 64 + Sextet(t[0]);
      if bits >= 2 then
        HighBound(w, bits - 2, 8);
        Then(High(w, bits - 2), Unstream(Low(w, bits - 2), bits - 2, t[1..]))
      else Unstream(w, bits + 6, t[1..])
  }

  lemma SextetBound(v: nat, bits: nat, d: nat)
    requires v < Pow2(bits) && d < 64
    ensures v * 64 + d < Pow2(bits + 6)
  {
    Pow2Add(bits, 6);
    assert Pow2(6) == 64;
    MulMono(v + 1, Pow2(bits), 64);
  }

  /** Without the characters that are skipped. */
  function Stripped(t: seq<Byte>): seq<Byte>
    decreases |t|
  {
    if |t| == 0 then [] else (if Skipped(t[0]) then [] else [t[0]]) + Stripped(t[1..])
  }

  /** What a digit leaves in the accumulator, and how many bits of it. */
  function Kept(v: nat, bits: nat, d: nat): (r: (nat, nat))
    requires v < Pow2(bits) && bits < 8 && d < 64
    ensures r.0 < Pow2(r.1) && r.1 < 8
  {
    SextetBound(v, bits, d);
    if bits >= 2 then (Low(v * 64 + d, bits - 2), bits - 2) else (v * 64 + d, bits + 6)
  }

  /** Behind the same digit only what follows counts. */
  lemma SameDigit(v: nat, bits: nat, t: seq<Byte>, u: seq<Byte>)
    requires v < Pow2(bits) && bits < 8 && |t| > 0 && |u| > 0 && t[0] == u[0]
    requires !Skipped(t[0]) && Sextet(t[0]) < 64
    requires var k := Kept(v, bits, Sextet(t[0])); Unstream(k.0, k.1, t[1..]) == Unstream(k.0, k.1, u[1..])
    ensures Unstream(v, bits, t) == Unstream(v, bits, u)
  {
  }

  /** White space and padding anywhere make no difference to the first decoder. */
  lemma {:induction false} OnlyStrippedMatters(v: nat, bits: nat, t: seq<Byte>)
    requires v < Pow2(bits) && bits < 8
    ensures Unstream(v, bits, t) == Unstream(v, bits, Stripped(t))
    decreases |t|
  {
    if |t| > 0 {
      var rest := Stripped(t[1..]);
      if Skipped(t[0]) {
        assert [] + rest == rest;
        OnlyStrippedMatters(v, bits, t[1..]);
      } else {
        assert ([t[0]] + rest)[1..] == rest;
        if Sextet(t[0]) <= 63 {
          var k := Kept(v, bits, Sextet(t[0]));
          OnlyStrippedMatters(k.0, k.1, t[1..]);
          SameDigit(v, bits, t, [t[0]] + rest);
        }
      }
    }
  }

  lemma {:induction false} StripInserted(a: seq<Byte>, w: Byte, b: seq<Byte>)
    requires Skipped(w)
    ensures Stripped(a + [w] + b) == Stripped(a + b)
    decreases |a|
  {
    if |a| == 0 {
      assert a + [w] + b == [w] + b && a + b == b && ([w] + b)[1..] == b;
      assert [] + Stripped(b) == Stripped(b);
    } else {
      StripInserted(a[1..], w, b);
      assert (a + [w] + b)[0] == a[0] && (a + [w] + b)[1..] == a[1..] + [w] + b;
      assert (a + b)[0] == a[0] && (a + b)[1..] == a[1..] + b;
    }
  }

  /** Inserting white space anywhere in a text, base64 or not, does not change the result. */
  lemma {:induction false} WhiteSpaceIgnored(a: seq<Byte>, w: Byte, b: seq<Byte>)
    requires Skipped(w)
    ensures Unstream(0, 0, a + [w] + b) == Unstream(0, 0, a + b)
  {
    StripInserted(a, w, b);
    OnlyStrippedMatters(0, 0, a + [w] + b);
    OnlyStrippedMatters(0, 0, a + b);
  }

  /** A digit that completes no byte: the first of a block. */
  lemma UnstreamFirst(n: nat, t: seq<Byte>)
    requires n < 64
    ensures n < Pow2(6) && Unstream(0, 0, [Digit(n)] + t) == Unstream(n, 6, t)
  {
    SmallPowers();
    DigitInverts(n);
    assert ([Digit(n)] + t)[1..] == t;
  }

  /** A digit that completes a byte; `bits` and `v` are what was left before it. */
  lemma UnstreamNext(v: nat, bits: nat, n: nat, t: seq<Byte>)
    requires v < Pow2(bits) && 2 <= bits < 8 && n < 64
    ensures Low(v * 64 + n, bits - 2) < Pow2(bits - 2) && High(v * 64 + n, bits - 2) < 256
    ensures Unstream(v, bits, [Digit(n)] + t)
         == Then(High(v * 64 + n, bits - 2), Unstream(Low(v * 64 + n, bits - 2), bits - 2, t))
  {
    SextetBound(v, bits, n);
    HighBound(v * 64 + n, bits - 2, 8);
    DigitInverts(n);
    assert ([Digit(n)] + t)[1..] == t;
  }

  lemma UnstreamTwo(a: Byte, n: nat, t: seq<Byte>)
    requires n < 16
    ensures n < Pow2(4)
    ensures Unstream(0, 0, [Digit(a / 4)] + ([Digit(a % 4 * 16 + n)] + t)) == Then(a, Unstream(n, 4, t))
  {
    SmallPowers();
    UnstreamFirst(a / 4, [Digit(a % 4 * 16 + n)] + t);
    UnstreamNext(a / 4, 6, a % 4 * 16 + n, t);
    assert a / 4 * 64 + (a % 4 * 16 + n) == a * 16 + n;
    assert High(a * 16 + n, 4) == a && Low(a * 16 + n, 4) == n;
  }

  lemma UnstreamThree(b: Byte, n: nat, t: seq<Byte>)
    requires n < 4
    ensures n < Pow2(2) && b / 16 < Pow2(4)
    ensures Unstream(b / 16, 4, [Digit(b % 16 * 4 + n)] + t) == Then(b, Unstream(n, 2, t))
  {
    SmallPowers();
    UnstreamNext(b / 16, 4, b % 16 * 4 + n, t);
    assert b / 16 * 64 + (b % 16 * 4 + n) == b * 4 + n;
    assert High(b * 4 + n, 2) == b && Low(b * 4 + n, 2) == n;
  }

  lemma UnstreamFour(c: Byte, t: seq<Byte>)
    ensures c / 64 < Pow2(2) && Unstream(c / 64, 2, [Digit(c % 64)] + t) == Then(c, Unstream(0, 0, t))
  {
    SmallPowers();
    UnstreamNext(c / 64, 2, c % 64, t);
    assert High(c, 0) == c && Low(c, 0) == 0;
  }

  lemma UnstreamBlock(a: Byte, b: Byte, c: Byte, t: seq<Byte>)
    ensures Unstream(0, 0, Block(a, b, c) + t) == Then(a, Then(b, Then(c, Unstream(0, 0, t))))
  {
    var t3 := [Digit(c % 64)] + t;
    var t2 := [Digit(b % 16 * 4 + c / 64)] + t3;
    assert Block(a, b, c) + t == [Digit(a / 4)] + ([Digit(a % 4 * 16 + b / 16)] + t2);
    UnstreamTwo(a, b / 16, t2);
    UnstreamThree(b, c / 64, t3);
    UnstreamFour(c, t);
  }

  lemma UnstreamPad(n: nat, t: seq<Byte>)
    requires n == 2 || n == 4
    requires t == [PAD] || t == [PAD, PAD]
    ensures 0 < Pow2(n) && Unstream(0, n, t) == Some([])
  {
    if t == [PAD, PAD] {
      assert t[1..] == [PAD];
      UnstreamPad(n, [PAD]);
    } else {
      assert t[1..] == [];
    }
  }

  lemma UnstreamOne(a: Byte)
    ensures Unstream(0, 0, Last([a])) == Some([a])
  {
    UnstreamTwo(a, 0, [PAD, PAD]);
    assert Last([a]) == [Digit(a / 4)] + ([Digit(a % 4 * 16 + 0)] + [PAD, PAD]);
    UnstreamPad(4, [PAD, PAD]);
    assert [a] + [] == [a];
  }

  lemma UnstreamPair(a: Byte, b: Byte)
    ensures Unstream(0, 0, Last([a, b])) == Some([a, b])
  {
    var t2 := [Digit(b % 16 * 4 + 0)] + [PAD];
    UnstreamTwo(a, b / 16, t2);
    UnstreamThree(b, 0, [PAD]);
    UnstreamPad(2, [PAD]);
    assert Last([a, b]) == [Digit(a / 4)] + ([Digit(a % 4 * 16 + b / 16)] + t2);
    assert [a] + ([b] + []) == [a, b];
  }

  /** The accumulator decoder inverts the encoders. */
  lemma {:induction false} UnstreamInverts(s: seq<Byte>)
    ensures Unstream(0, 0, Encoded(s)) == Some(s)
    decreases |s|
  {
    if |s| == 0 {
    } else if |s| == 1 {
      UnstreamOne(s[0]);
      assert s == [s[0]];
    } else if |s| == 2 {
      UnstreamPair(s[0], s[1]);
      assert s == [s[0], s[1]];
    } else {
      UnstreamBlock(s[0], s[1], s[2], Encoded(s[3..]));
      UnstreamInverts(s[3..]);
      assert [s[0]] + ([s[1]] + ([s[2]] + s[3..])) == s;
    }
  }

  // ----- the accumulator's 32 bits -----

  const WORD32: nat := 0x1_0000_0000

  /** An unsigned int. */
  function Wrap(x: nat): (r: nat)
    ensures r < WORD32
  {
    x % WORD32
  }

  lemma WrapKeepsLow(x: nat, k: nat)
    requires k <= 32
    ensures Low(Wrap(x), k) == Low(x, k)
  {
    assert Pow2(8) == 256;
    Pow2Add(8, 8);
    Pow2Add(16, 16);
    Pow2Add(32 - k, k);
    ModOfMod(x, Pow2(k), Pow2(32 - k));
  }

  lemma SplitProduct(q: nat, n: nat, v: nat, m: nat)
    ensures (q * n + v) * m == v * m + q * (n * m)
  {
    assert (q * n) * m == q * (n * m);
  }

  /** Only the low bits of an accumulator count: shifting in `more` bits. */
  lemma LowShift(acc: nat, bits: nat, more: nat, d: nat)
    requires bits + more <= 32 && Up(Low(acc, bits), more) + d < Pow2(bits + more)
    ensures Low(Wrap(Up(acc, more) + d), bits + more) == Up(Low(acc, bits), more) + d
  {
    var x := Up(Low(acc, bits), more) + d;
    ShiftSplit(acc, bits, more);
    ModShift(x, High(acc, bits), Pow2(bits + more));
    WrapKeepsLow(Up(acc, more) + d, bits + more);
    DivModUnique(x, 0, x, Pow2(bits + more));
  }

  lemma ShiftSplit(acc: nat, bits: nat, more: nat)
    ensures Up(acc, more) == Up(Low(acc, bits), more) + High(acc, bits) * Pow2(bits + more)
  {
    HighLow(acc, bits);
    Pow2Add(bits, more);
    SplitProduct(High(acc, bits), Pow2(bits), Low(acc, bits), Pow2(more));
  }

  /** (acc >> low) masked to `high` bits. */
  function Field(acc: nat, low: nat, high: nat): (r: nat)
    ensures r < Pow2(high)
  {
    Low(High(acc, low), high)
  }

  lemma FieldOfInts(q: nat, h: nat, r: nat, n: nat, m: nat)
    requires r < n && h < m
    ensures (q * (n * m) + (h * n + r)) / n % m == h && (q * (n * m) + (h * n + r)) % n == r
  {
    var acc, a := q * (n * m) + (h * n + r), q * m + h;
    assert q * (n * m) == (q * m) * n;
    assert a * n == (q * m) * n + h * n;
    DivModUnique(acc, a, r, n);
    DivModUnique(a, q, h, m);
  }

  lemma FieldIsHigh(acc: nat, low: nat, high: nat)
    ensures Field(acc, low, high) == High(Low(acc, low + high), low)
    ensures Low(Low(acc, low + high), low) == Low(acc, low)
  {
    var v := Low(acc, low + high);
    HighLow(acc, low + high);
    Pow2Add(low, high);
    HighBound(v, low, high);
    FieldOfInts(High(acc, low + high), High(v, low), Low(v, low), Pow2(low), Pow2(high));
  }

  lemma ZeroLow(acc: nat)
    ensures Low(acc, 0) == 0
  {
    assert Pow2(0) == 1;
  }

  lemma AddByte(acc: nat, bits: nat, b: Byte)
    requires bits < 6
    ensures Low(acc, bits) * 256 + b < Pow2(bits + 8)
    ensures Low(Wrap(acc * 256 + b), bits + 8) == Low(acc, bits) * 256 + b
  {
    assert Pow2(8) == 256;
    JoinBound(Low(acc, bits), bits, b);
    LowShift(acc, bits, 8, b);
  }

  lemma AddSextet(acc: nat, bits: nat, d: nat)
    requires bits < 8 && d < 64
    ensures Low(acc, bits) * 64 + d < Pow2(bits + 6)
    ensures Low(Wrap(acc * 64 + d), bits + 6) == Low(acc, bits) * 64 + d
  {
    assert Pow2(6) == 64;
    SextetBound(Low(acc, bits), bits, d);
    LowShift(acc, bits, 6, d);
  }

  /** One turn of the inner loop of the encoder. */
  lemma Emit(acc: nat, bits: nat, s: seq<Byte>)
    ensures Field(acc, bits, 6) < 64
    ensures Stream(Low(acc, bits + 6), bits + 6, s) == [Digit(Field(acc, bits, 6))] + Stream(Low(acc, bits), bits, s)
  {
    assert Pow2(6) == 64;
    FieldIsHigh(acc, bits, 6);
  }

  /** One digit taken in by the decoder. */
  lemma TakeIn(acc: nat, bits: nat, c: Byte, t: seq<Byte>)
    requires bits < 8 && !Skipped(c) && Sextet(c) < 64
    ensures var r := Wrap(acc * 64 + Sextet(c));
      && Field(r, if bits >= 2 then bits - 2 else 0, 8) < 256
      && Unstream(Low(acc, bits), bits, [c] + t) ==
           if bits >= 2 then Then(Field(r, bits - 2, 8), Unstream(Low(r, bits - 2), bits - 2, t))
           else Unstream(Low(r, bits + 6), bits + 6, t)
  {
    assert ([c] + t)[0] == c && ([c] + t)[1..] == t;
    AddSextet(acc, bits, Sextet(c));
    assert Pow2(8) == 256;
    if bits >= 2 {
      FieldIsHigh(Wrap(acc * 64 + Sextet(c)), bits - 2, 8);
    }
  }

  /** What has been written so far, in a buffer that was filled with padding. */
  ghost predicate Written(out: seq<Byte>, outpos: nat, text: seq<Byte>) {
    outpos <= |out| && out[..outpos] == text && forall k :: outpos <= k < |out| ==> out[k] == PAD
  }

  lemma WriteOne(out: seq<Byte>, outpos: nat, text: seq<Byte>, c: Byte)
    requires Written(out, outpos, text) && outpos < |out|
    ensures Written(out[outpos := c], outpos + 1, text + [c])
  {
  }

  /** base64_encode of modules/base64.cc. None where its assertion on the length fails. */
  method EncodeStream(s: seq<Byte>) returns (t: Option<seq<Byte>>)
    ensures t == if |s| == 0 then None else Some(Encoded(s))
  {
    var out: seq<Byte> := seq((|s| + 2) / 3 * 4, i => PAD);
    var outpos: nat, bits: nat, acc: nat := 0, 0, 0;
    ghost var text: seq<Byte> := [];
    StreamIsBlocks(s);
    ZeroLow(0);
    assert s[0..] == s;
    for i := 0 to |s|
      invariant bits < 6 && |out| == (|s| + 2) / 3 * 4 && Written(out, outpos, text)
      invariant Stream(0, 0, s) == text + Stream(Low(acc, bits), bits, s[i..])
    {
      assert s[i..][0] == s[i] && s[i..][1..] == s[i + 1..];
      out, outpos, bits, acc, text := EncodeByte(out, outpos, bits, acc, s, i, text);
    }
    if bits > 0 {
      UpBound(Low(acc, bits), bits);
      LastDigit(acc, bits);
      acc := Wrap(Up(acc, 6 - bits));
      WriteOne(out, outpos, text, Digit(Field(acc, 0, 6)));
      out := out[outpos := Digit(Field(acc, 0, 6))];
      outpos := outpos + 1;
    }
    // outpos >= retval.size() - 2, in unsigned arithmetic
    if |out| < 2 {
      return None;
    }
    assert outpos >= |out| - 2;
    assert out == Encoded(s);
    t := Some(out);
  }

  lemma LastDigit(acc: nat, bits: nat)
    requires 0 < bits < 6
    ensures Field(Wrap(Up(acc, 6 - bits)), 0, 6) == Up(Low(acc, bits), 6 - bits)
  {
    UpBound(Low(acc, bits), bits);
    assert Pow2(6) == 64;
    LowShift(acc, bits, 6 - bits, 0);
    var x := Wrap(Up(acc, 6 - bits));
    FieldIsHigh(x, 0, 6);
    assert Pow2(0) == 1;
  }

  /** One turn of the loop over the bytes. */
  method EncodeByte(out0: seq<Byte>, outpos0: nat, bits0: nat, acc0: nat, s: seq<Byte>, i: nat, ghost text0: seq<Byte>)
    returns (out: seq<Byte>, outpos: nat, bits: nat, acc: nat, ghost text: seq<Byte>)
    requires i < |s| && bits0 < 6 && Written(out0, outpos0, text0)
    requires |out0| >= |text0 + Stream(Low(acc0, bits0), bits0, s[i..])|
    ensures bits < 6 && |out| == |out0| && Written(out, outpos, text)
    ensures text + Stream(Low(acc, bits), bits, s[i + 1..]) == text0 + Stream(Low(acc0, bits0), bits0, s[i..])
  {
    ShiftIn(acc0, bits0, s, i);
    acc := Wrap(acc0 * 256 + s[i]);
    out, outpos, bits, text := EmitDigits(out0, outpos0, bits0 + 8, acc, s[i + 1..], text0);
  }

  lemma ShiftIn(acc: nat, bits: nat, s: seq<Byte>, i: nat)
    requires i < |s| && bits < 6
    ensures Stream(Low(Wrap(acc * 256 + s[i]), bits + 8), bits + 8, s[i + 1..]) == Stream(Low(acc, bits), bits, s[i..])
  {
    assert s[i..][0] == s[i] && s[i..][1..] == s[i + 1..];
    AddByte(acc, bits, s[i]);
  }

  /** The inner loop: digits go out while six bits are there. */
  method EmitDigits(out0: seq<Byte>, outpos0: nat, bits0: nat, acc: nat, ghost rest: seq<Byte>, ghost text0: seq<Byte>)
    returns (out: seq<Byte>, outpos: nat, bits: nat, ghost text: seq<Byte>)
    requires Written(out0, outpos0, text0) && |out0| >= |text0 + Stream(Low(acc, bits0), bits0, rest)|
    ensures bits < 6 && |out| == |out0| && Written(out, outpos, text)
    ensures text + Stream(Low(acc, bits), bits, rest) == text0 + Stream(Low(acc, bits0), bits0, rest)
  {
    out, outpos, bits, text := out0, outpos0, bits0, text0;
    ghost var goal := text0 + Stream(Low(acc, bits0), bits0, rest);
    while bits >= 6
      invariant |out| == |out0| >= |goal| && Written(out, outpos, text)
      invariant goal == text + Stream(Low(acc, bits), bits, rest)
    {
      bits := bits - 6;
      Emit(acc, bits, rest);
      var c := Digit(Field(acc, bits, 6));
      Shifted(text, c, Stream(Low(acc, bits), bits, rest));
      WriteOne(out, outpos, text, c);
      out := out[outpos := c];
      outpos := outpos + 1;
      text := text + [c];
    }
  }

  lemma Shifted(a: seq<Byte>, c: Byte, b: seq<Byte>)
    ensures a + ([c] + b) == a + [c] + b
  {
  }

  /** base64_decode of modules/base64.cc: the empty text when a character is no digit. */
  method DecodeStream(t: seq<Byte>) returns (s: seq<Byte>)
    ensures s == match Unstream(0, 0, t) case Some(r) => r case None => []
  {
    s := [];
    var bits: nat, acc: nat := 0, 0;
    ZeroLow(0);
    assert t[0..] == t;
    ghost var goal := Unstream(0, 0, t);
    assert goal.Some? ==> [] + goal.value == goal.value;
    for i := 0 to |t|
      invariant bits < 8
      invariant goal == Prepended(s, Unstream(Low(acc, bits), bits, t[i..]))
    {
      var c := t[i];
      ghost var rest := t[i + 1..];
      assert t[i..] == [c] + rest && t[i..][1..] == rest;
      if !Skipped(c) {
        if Sextet(c) > 63 {
          return [];
        }
        TakeIn(acc, bits, c, rest);
        acc := Wrap(acc * 64 + Sextet(c));
        bits := bits + 6;
        if bits >= 8 {
          bits := bits - 8;
          PrependOne(s, Field(acc, bits, 8), Unstream(Low(acc, bits), bits, rest));
          s := s + [Field(acc, bits, 8)];
        }
      }
    }
    assert s + [] == s;
  }

  // ----- the block codec -----

  /** src[0] << 16 | src[1] << 8 | src[2] */
  function Word24(a: Byte, b: Byte, c: Byte): nat {
    a * 65536 + b * 256 + c
  }

  lemma TopDigits(a: Byte, b: Byte, c: Byte)
    ensures Quot(Word24(a, b, c), 262144) % 64 == a / 4
    ensures Quot(Word24(a, b, c), 4096) % 64 == a % 4 * 16 + b / 16
  {
    var n := Word24(a, b, c);
    assert n == a / 4 * 262144 + (a % 4 * 65536 + b * 256 + c);
    DivModUnique(n, a / 4, a % 4 * 65536 + b * 256 + c, 262144);
    assert n == (a * 16 + b / 16) * 4096 + (b % 16 * 256 + c);
    DivModUnique(n, a * 16 + b / 16, b % 16 * 256 + c, 4096);
    DivModUnique(a * 16 + b / 16, a / 4, a % 4 * 16 + b / 16, 64);
  }

  lemma BottomDigits(a: Byte, b: Byte, c: Byte)
    ensures Quot(Word24(a, b, c), 64) % 64 == b % 16 * 4 + c / 64
    ensures Word24(a, b, c) % 64 == c % 64
  {
    var n := Word24(a, b, c);
    assert n == (a * 1024 + b * 4 + c / 64) * 64 + c % 64;
    DivModUnique(n, a * 1024 + b * 4 + c / 64, c % 64, 64);
    DivModUnique(a * 1024 + b * 4 + c / 64, a * 16 + b / 16, b % 16 * 4 + c / 64, 64);
  }

  /** b64[(n >> 18) & 0x3F] and so on. */
  function FourDigits(n: nat): (r: seq<Byte>)
    ensures |r| == 4
  {
    [Digit(Quot(n, 262144) % 64), Digit(Quot(n, 4096) % 64), Digit(Quot(n, 64) % 64), Digit(n % 64)]
  }

  lemma BlockDigits(a: Byte, b: Byte, c: Byte)
    ensures FourDigits(Word24(a, b, c)) == Block(a, b, c)
  {
    var w, x, y, z := a / 4, a % 4 * 16 + b / 16, b % 16 * 4 + c / 64, c % 64;
    TopDigits(a, b, c);
    BottomDigits(a, b, c);
    FourAre(Word24(a, b, c), w, x, y, z);
    BlockIs(a, b, c, w, x, y, z);
  }

  lemma FourAre(n: nat, w: nat, x: nat, y: nat, z: nat)
    requires w == Quot(n, 262144) % 64 && x == Quot(n, 4096) % 64 && y == Quot(n, 64) % 64 && z == n % 64
    ensures FourDigits(n) == [Digit(w), Digit(x), Digit(y), Digit(z)]
  {
  }

  lemma BlockIs(a: Byte, b: Byte, c: Byte, w: nat, x: nat, y: nat, z: nat)
    requires w < 64 && x < 64 && y < 64 && z < 64
    requires w == a / 4 && x == a % 4 * 16 + b / 16 && y == b % 16 * 4 + c / 64 && z == c % 64
    ensures Block(a, b, c) == [Digit(w), Digit(x), Digit(y), Digit(z)]
  {
  }

  /** The length written when only whole blocks fit. */
  function Fitting(length: nat, room: nat): nat {
    if length <= room then length else room / 4 * 4
  }

  /** The whole text, or as many blocks of four as there is room for. */
  lemma {:induction false} FittingBlocks(length: nat, room: nat)
    ensures length <= room ==> Fitting(length, room) == length
    ensures length > room ==> var n := Fitting(length, room); n % 4 == 0 && n <= room < n + 4
  {
  }

  /** Not even the next block fits. */
  lemma NoRoom(text: seq<Byte>, done: seq<Byte>, blocks: nat, rest: seq<Byte>, room: nat)
    requires text == done + Encoded(rest) && |rest| > 0
    requires |done| == 4 * blocks && |done| <= room < |done| + 4
    ensures Fitting(|text|, room) == |done| <= |text| && text[..|done|] == done
  {
    DivModUnique(room, blocks, room - |done|, 4);
    LongEnough(rest);
  }

  lemma LongEnough(rest: seq<Byte>)
    requires |rest| > 0
    ensures |Encoded(rest)| >= 4
  {
  }

  /** base64_encode of crypto-base64.c. */
  method EncodeBlocks(dst: array<Byte>, src: seq<Byte>) returns (d: nat)
    modifies dst
    ensures d == Fitting(|Encoded(src)|, dst.Length) && d <= |Encoded(src)|
    ensures dst[..d] == Encoded(src)[..d]
  {
    ghost var text := Encoded(src);
    ghost var blocks: nat := 0;
    var i: nat := 0;
    d := 0;
    assert src[0..] == src && dst[..0] == [] && [] + text == text;
    while i + 3 <= |src|
      invariant i <= |src| && d <= dst.Length && d == 4 * blocks
      invariant text == dst[..d] + Encoded(src[i..])
    {
      if d + 4 > dst.Length {
        NoRoom(text, dst[..d], blocks, src[i..], dst.Length);
        return;
      }
      EncodeThree(dst, d, src, i);
      i := i + 3;
      d := d + 4;
      blocks := blocks + 1;
    }
    d := EncodeRest(dst, d, src[i..], blocks, text);
  }

  /** One turn of its loop. */
  method EncodeThree(dst: array<Byte>, d: nat, src: seq<Byte>, i: nat)
    requires i + 3 <= |src| && d + 4 <= dst.Length
    modifies dst
    ensures dst[..d + 4] + Encoded(src[i + 3..]) == old(dst[..d]) + Encoded(src[i..])
  {
    ghost var before := dst[..d];
    BlockAt(src, i);
    BlockDigits(src[i], src[i + 1], src[i + 2]);
    PutBlock(dst, d, FourDigits(Word24(src[i], src[i + 1], src[i + 2])));
    Assoc(before, Block(src[i], src[i + 1], src[i + 2]), Encoded(src[i + 3..]));
  }

  lemma BlockAt(src: seq<Byte>, i: nat)
    requires i + 3 <= |src|
    ensures Encoded(src[i..]) == Block(src[i], src[i + 1], src[i + 2]) + Encoded(src[i + 3..])
  {
    var rest := src[i..];
    assert rest[0] == src[i] && rest[1] == src[i + 1] && rest[2] == src[i + 2] && rest[3..] == src[i + 3..];
  }

  /** The one or two bytes that are left, if there is room. */
  method EncodeRest(dst: array<Byte>, d0: nat, rest: seq<Byte>, ghost blocks: nat, ghost text: seq<Byte>)
    returns (d: nat)
    requires |rest| < 3 && d0 <= dst.Length && d0 == 4 * blocks && text == dst[..d0] + Encoded(rest)
    modifies dst
    ensures d == Fitting(|text|, dst.Length) && d <= |text| && dst[..d] == text[..d]
  {
    d := d0;
    if |rest| > 0 && d + 4 > dst.Length {
      NoRoom(text, dst[..d], blocks, rest, dst.Length);
    }
    if |rest| >= 2 && d + 4 <= dst.Length {
      BlockDigits(rest[0], rest[1], 0);
      var q := FourDigits(Word24(rest[0], rest[1], 0));
      PutBlock(dst, d, [q[0], q[1], q[2], PAD]);
      d := d + 4;
    } else if |rest| >= 1 && d + 4 <= dst.Length {
      BlockDigits(rest[0], 0, 0);
      var q := FourDigits(Word24(rest[0], 0, 0));
      PutBlock(dst, d, [q[0], q[1], PAD, PAD]);
      d := d + 4;
    }
  }

  method PutBlock(dst: array<Byte>, d: nat, q: seq<Byte>)
    requires d + 4 <= dst.Length && |q| == 4
    modifies dst
    ensures dst[..d + 4] == old(dst[..d]) + q
  {
    dst[d], dst[d + 1], dst[d + 2], dst[d + 3] := q[0], q[1], q[2], q[3];
  }

  // ----- decoding blocks -----

  /** Stuck is a loop without a body on a character that is no digit: it never ends. */
  datatype Outcome = Done(out: seq<Byte>) | Stuck

  function After(done: seq<Byte>, o: Outcome): Outcome {
    if o.Stuck? then Stuck else Done(done + o.out)
  }

  /** In front of the first two digits of a block anything else is skipped. */
  function SkipBad(t: seq<Byte>): (r: seq<Byte>)
    ensures |r| <= |t| && (|r| > 0 ==> Sextet(r[0]) < 64)
    decreases |t|
  {
    if |t| > 0 && Sextet(t[0]) > 63 then SkipBad(t[1..]) else t
  }

  function FirstDigit(t: seq<Byte>): Outcome
    decreases |t|, 2
  {
    var r := SkipBad(t);
    if |r| == 0 then Done([]) else SecondDigit(Sextet(r[0]), r[1..])
  }

  function SecondDigit(c: nat, t: seq<Byte>): Outcome
    requires c < 64
    decreases |t|, 1
  {
    var r := SkipBad(t);
    if |r| == 0 then Done([])
    else After([c * 4 + Sextet(r[0]) / 16], ThirdDigit(Sextet(r[0]), r[1..]))
  }

  function ThirdDigit(c: nat, t: seq<Byte>): Outcome
    requires c < 64
    decreases |t|
  {
    if |t| == 0 || t[0] == PAD then Done([])
    else if Sextet(t[0]) > 63 then Stuck
    else After([c % 16 * 16 + Sextet(t[0]) / 4], FourthDigit(Sextet(t[0]), t[1..]))
  }

  function FourthDigit(c: nat, t: seq<Byte>): Outcome
    requires c < 64
    decreases |t|
  {
    if |t| == 0 || t[0] == PAD then Done([])
    else if Sextet(t[0]) > 63 then Stuck
    else After([c % 4 * 64 + Sextet(t[0])], FirstDigit(t[1..]))
  }

  lemma FirstTwo(m: nat, n: nat, b: Byte, t: seq<Byte>)
    requires m < 64 && n < 64 && b == m * 4 + n / 16
    ensures FirstDigit([Digit(m), Digit(n)] + t) == After([b], ThirdDigit(n, t))
  {
    var s, r := [Digit(m), Digit(n)] + t, [Digit(n)] + t;
    DigitInverts(m);
    DigitInverts(n);
    assert s[0] == Digit(m) && s[1..] == r && r[0] == Digit(n) && r[1..] == t;
    assert SkipBad(s) == s && SkipBad(r) == r;
  }

  lemma LastTwo(c: nat, m: nat, n: nat, b1: Byte, b2: Byte, t: seq<Byte>)
    requires c < 64 && m < 64 && n < 64 && b1 == c % 16 * 16 + m / 4 && b2 == m % 4 * 64 + n
    ensures ThirdDigit(c, [Digit(m), Digit(n)] + t) == After([b1], After([b2], FirstDigit(t)))
  {
    var s, r := [Digit(m), Digit(n)] + t, [Digit(n)] + t;
    DigitInverts(m);
    DigitInverts(n);
    assert s[0] == Digit(m) && s[1..] == r && r[0] == Digit(n) && r[1..] == t;
  }

  lemma DecodesBlock(a: Byte, b: Byte, c: Byte, t: seq<Byte>)
    ensures FirstDigit(Block(a, b, c) + t) == After([a], After([b], After([c], FirstDigit(t))))
  {
    var x, y, z := a % 4 * 16 + b / 16, b % 16 * 4 + c / 64, c % 64;
    BytesBack(a, b, c);
    FourSplit(Digit(a / 4), Digit(x), Digit(y), Digit(z), t);
    FirstTwo(a / 4, x, a, [Digit(y), Digit(z)] + t);
    LastTwo(x, y, z, b, c, t);
  }

  lemma FourSplit(w: Byte, x: Byte, y: Byte, z: Byte, t: seq<Byte>)
    ensures [w, x, y, z] + t == [w, x] + ([y, z] + t)
  {
  }

  lemma BytesBack(a: Byte, b: Byte, c: Byte)
    ensures var x, y := a % 4 * 16 + b / 16, b % 16 * 4 + c / 64;
      a / 4 * 4 + x / 16 == a && x % 16 * 16 + y / 4 == b && y % 4 * 64 + c % 64 == c
  {
  }

  lemma DecodesOne(a: Byte)
    ensures FirstDigit(Last([a])) == Done([a])
  {
    BytesBack(a, 0, 0);
    assert Last([a]) == [Digit(a / 4), Digit(a % 4 * 16)] + [PAD, PAD];
    FirstTwo(a / 4, a % 4 * 16, a, [PAD, PAD]);
    assert [a] + [] == [a];
  }

  lemma DecodesTwo(a: Byte, b: Byte)
    ensures FirstDigit(Last([a, b])) == Done([a, b])
  {
    var x, y := a % 4 * 16 + b / 16, b % 16 * 4;
    BytesBack(a, b, 0);
    FirstTwo(a / 4, x, a, [Digit(y), PAD]);
    ThirdThenPad(x, y);
    assert Last([a, b]) == [Digit(a / 4), Digit(x)] + [Digit(y), PAD];
    assert [a] + [b] == [a, b];
  }

  lemma ThirdThenPad(c: nat, n: nat)
    requires c < 64 && n < 64
    ensures ThirdDigit(c, [Digit(n), PAD]) == Done([c % 16 * 16 + n / 4])
  {
    DigitInverts(n);
    assert [Digit(n), PAD][1..] == [PAD];
    assert FourthDigit(n, [PAD]) == Done([]);
    assert [c % 16 * 16 + n / 4] + [] == [c % 16 * 16 + n / 4];
  }

  /** The block decoder inverts the encoders, and never gets stuck on their texts. */
  lemma {:induction false} BlocksInvert(s: seq<Byte>)
    ensures FirstDigit(Encoded(s)) == Done(s)
    decreases |s|
  {
    if |s| == 0 {
    } else if |s| == 1 {
      DecodesOne(s[0]);
      assert s == [s[0]];
    } else if |s| == 2 {
      DecodesTwo(s[0], s[1]);
      assert s == [s[0], s[1]];
    } else {
      FirstBlock(s);
      DecodesBlock(s[0], s[1], s[2], Encoded(s[3..]));
      BlocksInvert(s[3..]);
      ThreeFront(s);
    }
  }

  // ----- when the block decoder returns -----

  /** How many characters of a text are digits. */
  function Digits(t: seq<Byte>): nat
    decreases |t|
  {
    if |t| == 0 then 0 else (if Sextet(t[0]) < 64 then 1 else 0) + Digits(t[1..])
  }

  /** How many digits of its block are read before position k, with `start` read before t. */
  function Phase(t: seq<Byte>, start: nat, k: nat): nat
    requires k <= |t|
  {
    (start + Digits(t[..k])) % 4
  }

  /** A character that is neither a digit nor padding, where a third or fourth digit should
      be, and no padding in such a place before it. */
  ghost predicate Trap(t: seq<Byte>, start: nat, k: nat) {
    && k < |t| && Sextet(t[k]) > 63 && t[k] != PAD && Phase(t, start, k) >= 2
    && forall j :: 0 <= j < k && t[j] == PAD ==> Phase(t, start, j) < 2
  }

  ghost predicate HasTrap(t: seq<Byte>, start: nat) {
    exists k: nat :: Trap(t, start, k)
  }

  /** A position seen from the second character on. */
  lemma PhaseShifts(t: seq<Byte>, start: nat, k: nat)
    requires 0 < k <= |t|
    ensures Phase(t, start, k) == Phase(t[1..], start + (if Sextet(t[0]) < 64 then 1 else 0), k - 1)
  {
    assert t[..k][1..] == t[1..][..k - 1];
  }

  lemma PhaseWraps(t: seq<Byte>, start: nat, k: nat)
    requires k <= |t|
    ensures Phase(t, start, k) == Phase(t, start % 4, k)
  {
  }

  lemma TrapAhead(t: seq<Byte>, start: nat, k: nat)
    requires 0 < k <= |t| && (t[0] == PAD ==> start % 4 < 2)
    ensures Trap(t, start, k) <==> Trap(t[1..], (start + (if Sextet(t[0]) < 64 then 1 else 0)) % 4, k - 1)
  {
    var rest, next := t[1..], start + (if Sextet(t[0]) < 64 then 1 else 0);
    forall j | 0 < j <= k ensures Phase(t, start, j) == Phase(rest, next % 4, j - 1) {
      PhaseShifts(t, start, j);
      PhaseWraps(rest, next, j - 1);
    }
    if Trap(t, start, k) {
      forall j | 0 <= j < k - 1 && rest[j] == PAD ensures Phase(rest, next % 4, j) < 2 {
        assert t[j + 1] == PAD;
        assert Phase(t, start, j + 1) == Phase(rest, next % 4, j);
      }
    }
    if Trap(rest, next % 4, k - 1) {
      forall j | 0 <= j < k && t[j] == PAD ensures Phase(t, start, j) < 2 {
        if j > 0 {
          assert rest[j - 1] == PAD;
        }
      }
    }
  }

  /** Traps beyond the first character. */
  lemma TrapBehind(t: seq<Byte>, start: nat)
    requires |t| > 0 && (t[0] == PAD ==> start % 4 < 2)
    requires Sextet(t[0]) < 64 || t[0] == PAD || start % 4 < 2
    ensures HasTrap(t, start) <==> HasTrap(t[1..], (start + (if Sextet(t[0]) < 64 then 1 else 0)) % 4)
  {
    var next := (start + (if Sextet(t[0]) < 64 then 1 else 0)) % 4;
    if HasTrap(t, start) {
      var k: nat :| Trap(t, start, k);
      assert k > 0;
      TrapAhead(t, start, k);
    }
    if HasTrap(t[1..], next) {
      var k: nat :| Trap(t[1..], next, k);
      TrapAhead(t, start, k + 1);
    }
  }

  /** The first character is a trap, or padding that ends the text. */
  lemma TrapHere(t: seq<Byte>, start: nat)
    requires |t| > 0 && 2 <= start < 4 && Sextet(t[0]) > 63
    ensures HasTrap(t, start) <==> t[0] != PAD
  {
    assert Phase(t, start, 0) == start;
    if t[0] != PAD {
      assert Trap(t, start, 0);
    }
  }

  lemma {:induction false} SkipKeepsTraps(t: seq<Byte>, start: nat)
    requires start < 2
    ensures HasTrap(t, start) <==> HasTrap(SkipBad(t), start)
    decreases |t|
  {
    if |t| > 0 && Sextet(t[0]) > 63 {
      TrapBehind(t, start);
      SkipKeepsTraps(t[1..], start);
    }
  }

  lemma {:induction false} FirstStuck(t: seq<Byte>)
    ensures FirstDigit(t).Stuck? <==> HasTrap(t, 0)
    decreases |t|, 2
  {
    var r := SkipBad(t);
    SkipKeepsTraps(t, 0);
    if |r| > 0 {
      TrapBehind(r, 0);
      SecondStuck(Sextet(r[0]), r[1..]);
    }
  }

  lemma {:induction false} SecondStuck(c: nat, t: seq<Byte>)
    requires c < 64
    ensures SecondDigit(c, t).Stuck? <==> HasTrap(t, 1)
    decreases |t|, 1
  {
    var r := SkipBad(t);
    SkipKeepsTraps(t, 1);
    if |r| > 0 {
      TrapBehind(r, 1);
      ThirdStuck(Sextet(r[0]), r[1..]);
    }
  }

  lemma {:induction false} ThirdStuck(c: nat, t: seq<Byte>)
    requires c < 64
    ensures ThirdDigit(c, t).Stuck? <==> HasTrap(t, 2)
    decreases |t|
  {
    if |t| > 0 {
      if Sextet(t[0]) > 63 {
        TrapHere(t, 2);
      } else {
        TrapBehind(t, 2);
        FourthStuck(Sextet(t[0]), t[1..]);
      }
    }
  }

  lemma {:induction false} FourthStuck(c: nat, t: seq<Byte>)
    requires c < 64
    ensures FourthDigit(c, t).Stuck? <==> HasTrap(t, 3)
    decreases |t|
  {
    if |t| > 0 {
      if Sextet(t[0]) > 63 {
        TrapHere(t, 3);
      } else {
        TrapBehind(t, 3);
        FirstStuck(t[1..]);
      }
    }
  }

  /** The block decoder fails to return exactly on the texts in which some character that is
      neither a digit nor padding stands behind two or three digits of a block, and no padding
      stands in such a place before it. */
  lemma {:induction false} StuckExactly(t: seq<Byte>)
    ensures FirstDigit(t).Stuck? <==>
      exists k :: && 0 <= k < |t| && Sextet(t[k]) > 63 && t[k] != PAD && Digits(t[..k]) % 4 >= 2
                  && forall j :: 0 <= j < k && t[j] == PAD ==> Digits(t[..j]) % 4 < 2
  {
    FirstStuck(t);
    if HasTrap(t, 0) {
      var k: nat :| Trap(t, 0, k);
      assert Digits(t[..k]) % 4 == Phase(t, 0, k);
      forall j | 0 <= j < k && t[j] == PAD ensures Digits(t[..j]) % 4 < 2 {
        assert Digits(t[..j]) % 4 == Phase(t, 0, j);
      }
    }
    if k :| && 0 <= k < |t| && Sextet(t[k]) > 63 && t[k] != PAD && Digits(t[..k]) % 4 >= 2
            && forall j :: 0 <= j < k && t[j] == PAD ==> Digits(t[..j]) % 4 < 2 {
      assert Trap(t, 0, k);
    }
  }

  // ----- white space in an encoded text -----

  function Inserted(t: seq<Byte>, k: nat, w: Byte): seq<Byte>
    requires k <= |t|
  {
    t[..k] + [w] + t[k..]
  }

  /** Neither a digit nor padding: white space, for one. */
  predicate Foreign(w: Byte) {
    Sextet(w) > 63 && w != PAD
  }

  /** Behind two digits of a block, or behind three, counting only blocks still to be decoded. */
  predicate Sticks(t: seq<Byte>, k: nat)
    requires k <= |t|
  {
    k % 4 == 2 || (k % 4 == 3 && t[k - 1] != PAD)
  }

  lemma SkipFirst(w: Byte, t: seq<Byte>)
    requires Foreign(w)
    ensures FirstDigit([w] + t) == FirstDigit(t)
  {
    assert ([w] + t)[1..] == t;
  }

  lemma SkipSecond(m: nat, w: Byte, t: seq<Byte>)
    requires m < 64 && Foreign(w)
    ensures FirstDigit([Digit(m)] + ([w] + t)) == FirstDigit([Digit(m)] + t)
  {
    DigitInverts(m);
    var s, r := [w] + t, [Digit(m)] + t;
    assert ([Digit(m)] + s)[1..] == s && r[1..] == t && s[1..] == t;
    assert SkipBad([Digit(m)] + s) == [Digit(m)] + s && SkipBad(r) == r;
    assert SkipBad(s) == SkipBad(t);
  }

  lemma StickThird(m: nat, n: nat, w: Byte, t: seq<Byte>)
    requires m < 64 && n < 64 && Foreign(w)
    ensures FirstDigit([Digit(m), Digit(n)] + ([w] + t)) == Stuck
  {
    FirstTwo(m, n, m * 4 + n / 16, [w] + t);
  }

  lemma StickFourth(m: nat, n: nat, l: nat, w: Byte, t: seq<Byte>)
    requires m < 64 && n < 64 && l < 64 && Foreign(w)
    ensures FirstDigit([Digit(m), Digit(n)] + ([Digit(l)] + ([w] + t))) == Stuck
  {
    var s := [Digit(l)] + ([w] + t);
    FirstTwo(m, n, m * 4 + n / 16, s);
    DigitInverts(l);
    assert s[1..] == [w] + t;
  }

  /** Behind padding that ends the text anything may follow. */
  lemma PadEnds(m: nat, n: nat, b: Byte, t: seq<Byte>)
    requires m < 64 && n < 64 && b == m * 4 + n / 16
    ensures FirstDigit([Digit(m), Digit(n)] + ([PAD] + t)) == Done([b])
  {
    FirstTwo(m, n, b, [PAD] + t);
    assert [b] + [] == [b];
  }

  lemma PadEndsThree(m: nat, n: nat, l: nat, a: Byte, b: Byte, t: seq<Byte>)
    requires m < 64 && n < 64 && l < 64 && a == m * 4 + n / 16 && b == n % 16 * 16 + l / 4
    ensures FirstDigit([Digit(m), Digit(n)] + ([Digit(l)] + ([PAD] + t))) == Done([a, b])
  {
    var s := [Digit(l)] + ([PAD] + t);
    FirstTwo(m, n, a, s);
    DigitInverts(l);
    assert s[1..] == [PAD] + t;
    assert FourthDigit(l, [PAD] + t) == Done([]);
    assert [b] + [] == [b] && [a] + [b] == [a, b];
  }

  /** A text of four characters, cut at each place. */
  lemma CutFour(q: seq<Byte>, t: seq<Byte>, w: Byte)
    requires |q| == 4
    ensures Inserted(q + t, 0, w) == [w] + (q + t)
    ensures Inserted(q + t, 1, w) == [q[0]] + ([w] + ([q[1], q[2], q[3]] + t))
    ensures q + t == [q[0]] + ([q[1], q[2], q[3]] + t)
    ensures Inserted(q + t, 2, w) == [q[0], q[1]] + ([w] + ([q[2], q[3]] + t))
    ensures Inserted(q + t, 3, w) == [q[0], q[1]] + ([q[2]] + ([w] + ([q[3]] + t)))
  {
  }

  lemma CutBehind(q: seq<Byte>, t: seq<Byte>, k: nat, w: Byte)
    requires |q| <= k <= |q + t|
    ensures Inserted(q + t, k, w) == q + Inserted(t, k - |q|, w)
  {
    assert (q + t)[..k] == q + t[..k - |q|] && (q + t)[k..] == t[k - |q|..];
  }

  /** Inserted in front of a block, or behind its first digit, a foreign character is skipped;
      the block may be the padded last one. */
  lemma InsertEarly(q: seq<Byte>, m: nat, t: seq<Byte>, k: nat, w: Byte)
    requires |q| == 4 && m < 64 && q[0] == Digit(m) && k < 2 && Foreign(w)
    ensures FirstDigit(Inserted(q + t, k, w)) == FirstDigit(q + t)
  {
    CutFour(q, t, w);
    if k == 0 {
      SkipFirst(w, q + t);
    } else {
      SkipSecond(m, w, [q[1], q[2], q[3]] + t);
    }
  }

  lemma InsertLate(m: nat, n: nat, q: seq<Byte>, t: seq<Byte>, k: nat, w: Byte)
    requires |q| == 4 && m < 64 && n < 64 && q[0] == Digit(m) && q[1] == Digit(n) && 2 <= k < 4 && Foreign(w)
    requires k == 3 ==> exists l: nat :: l < 64 && q[2] == Digit(l)
    ensures FirstDigit(Inserted(q + t, k, w)) == Stuck
  {
    CutFour(q, t, w);
    if k == 2 {
      StickThird(m, n, w, [q[2], q[3]] + t);
    } else {
      var l: nat :| l < 64 && q[2] == Digit(l);
      StickFourth(m, n, l, w, [q[3]] + t);
    }
  }

  lemma InsertOne(a: Byte, k: nat, w: Byte)
    requires k <= 4 && Foreign(w)
    ensures FirstDigit(Inserted(Last([a]), k, w)) == if Sticks(Last([a]), k) then Stuck else Done([a])
  {
    var q := Last([a]);
    assert q + [] == q;
    DecodesOne(a);
    if k < 2 {
      InsertEarly(q, a / 4, [], k, w);
    } else if k == 2 {
      InsertLate(a / 4, a % 4 * 16, q, [], k, w);
    } else {
      InsertOneLate(a, k, w);
    }
  }

  lemma InsertOneLate(a: Byte, k: nat, w: Byte)
    requires 3 <= k <= 4
    ensures FirstDigit(Inserted(Last([a]), k, w)) == Done([a])
  {
    PaddedApart(Digit(a / 4), Digit(a % 4 * 16), w);
    BytesBack(a, 0, 0);
    PadEnds(a / 4, a % 4 * 16, a, if k == 3 then [w, PAD] else [PAD, w]);
  }

  lemma PaddedApart(d: Byte, e: Byte, w: Byte)
    ensures Inserted([d, e, PAD, PAD], 3, w) == [d, e] + ([PAD] + [w, PAD])
    ensures Inserted([d, e, PAD, PAD], 4, w) == [d, e] + ([PAD] + [PAD, w])
  {
  }

  lemma InsertTwo(a: Byte, b: Byte, k: nat, w: Byte)
    requires k <= 4 && Foreign(w)
    ensures FirstDigit(Inserted(Last([a, b]), k, w)) == if Sticks(Last([a, b]), k) then Stuck else Done([a, b])
  {
    var q := Last([a, b]);
    assert q + [] == q && q[2] == Digit(b % 16 * 4);
    DigitInverts(b % 16 * 4);
    DecodesTwo(a, b);
    if k < 2 {
      InsertEarly(q, a / 4, [], k, w);
    } else if k < 4 {
      InsertLate(a / 4, a % 4 * 16 + b / 16, q, [], k, w);
    } else {
      InsertTwoEnd(a, b, w);
    }
  }

  lemma InsertTwoEnd(a: Byte, b: Byte, w: Byte)
    ensures FirstDigit(Inserted(Last([a, b]), 4, w)) == Done([a, b])
  {
    var d, e, f := Digit(a / 4), Digit(a % 4 * 16 + b / 16), Digit(b % 16 * 4);
    FiveApart(d, e, f, w);
    BytesBack(a, b, 0);
    PadEndsThree(a / 4, a % 4 * 16 + b / 16, b % 16 * 4, a, b, [w]);
  }

  lemma FiveApart(d: Byte, e: Byte, f: Byte, w: Byte)
    ensures Inserted([d, e, f, PAD], 4, w) == [d, e] + ([f] + ([PAD] + [w]))
  {
  }

  lemma InsertThree(text: seq<Byte>, a: Byte, b: Byte, c: Byte, t: seq<Byte>, o: Outcome, k: nat, w: Byte)
    requires text == Block(a, b, c) + t && FirstDigit(text) == o && k < 4 && Foreign(w)
    ensures FirstDigit(Inserted(text, k, w)) == if Sticks(text, k) then Stuck else o
  {
    var l := b % 16 * 4 + c / 64;
    DigitInverts(l);
    assert text[2] == Block(a, b, c)[2] == Digit(l);
    if k < 2 {
      InsertEarly(Block(a, b, c), a / 4, t, k, w);
    } else {
      InsertLate(a / 4, a % 4 * 16 + b / 16, Block(a, b, c), t, k, w);
    }
  }

  /** One foreign character inserted into an encoded text: the block decoder gets stuck behind
      the second digit of any block and behind a third digit, and otherwise decodes the text as
      if nothing had been inserted. */
  lemma {:induction false} InsertExactly(s: seq<Byte>, k: nat, w: Byte)
    requires k <= |Encoded(s)| && Foreign(w)
    ensures FirstDigit(Inserted(Encoded(s), k, w)) == if Sticks(Encoded(s), k) then Stuck else Done(s)
    decreases |s|, 1
  {
    if |s| == 0 {
      assert Inserted([], 0, w) == [w] + [];
      SkipFirst(w, []);
    } else if |s| == 1 {
      assert s == [s[0]] && Encoded(s) == Last(s);
      InsertOne(s[0], k, w);
    } else if |s| == 2 {
      assert s == [s[0], s[1]] && Encoded(s) == Last(s);
      InsertTwo(s[0], s[1], k, w);
    } else {
      InsertIntoBlocks(s, k, w);
    }
  }

  lemma {:induction false} InsertIntoBlocks(s: seq<Byte>, k: nat, w: Byte)
    requires k <= |Encoded(s)| && Foreign(w) && |s| >= 3
    ensures FirstDigit(Inserted(Encoded(s), k, w)) == if Sticks(Encoded(s), k) then Stuck else Done(s)
    decreases |s|, 0
  {
    if k < 4 {
      InsertIntoFirst(s, k, w);
    } else {
      InsertExactly(s[3..], k - 4, w);
      InsertBehindBlock(s, k, w);
    }
  }

  lemma InsertIntoFirst(s: seq<Byte>, k: nat, w: Byte)
    requires k < 4 && Foreign(w) && |s| >= 3
    ensures FirstDigit(Inserted(Encoded(s), k, w)) == if Sticks(Encoded(s), k) then Stuck else Done(s)
  {
    BlocksInvert(s);
    FirstBlock(s);
    InsertThree(Encoded(s), s[0], s[1], s[2], Encoded(s[3..]), Done(s), k, w);
  }

  lemma FirstBlock(s: seq<Byte>)
    requires |s| >= 3
    ensures Encoded(s) == Block(s[0], s[1], s[2]) + Encoded(s[3..])
  {
  }

  lemma InsertBehindBlock(s: seq<Byte>, k: nat, w: Byte)
    requires 4 <= k <= |Encoded(s)| && |s| >= 3
    requires FirstDigit(Inserted(Encoded(s[3..]), k - 4, w)) ==
      if Sticks(Encoded(s[3..]), k - 4) then Stuck else Done(s[3..])
    ensures FirstDigit(Inserted(Encoded(s), k, w)) == if Sticks(Encoded(s), k) then Stuck else Done(s)
  {
    var q, t := Block(s[0], s[1], s[2]), Encoded(s[3..]);
    CutBehind(q, t, k, w);
    SticksShifts(q, t, k);
    DecodesBlock(s[0], s[1], s[2], Inserted(t, k - 4, w));
    ThreeFront(s);
  }

  lemma ThreeFront(s: seq<Byte>)
    requires |s| >= 3
    ensures [s[0]] + ([s[1]] + ([s[2]] + s[3..])) == s
  {
  }

  lemma SticksShifts(q: seq<Byte>, t: seq<Byte>, k: nat)
    requires |q| == 4 <= k <= |q + t|
    ensures Sticks(q + t, k) <==> Sticks(t, k - 4)
  {
  }

  /** White space in an encoded text: the accumulator decoder never minds, the block decoder
      returns, with the same bytes, exactly where it does not stick. */
  lemma {:induction false} WhiteSpaceSticks(s: seq<Byte>, k: nat, w: Byte)
    requires k <= |Encoded(s)| && Skipped(w) && w != PAD
    ensures Unstream(0, 0, Inserted(Encoded(s), k, w)) == Some(s)
    ensures FirstDigit(Inserted(Encoded(s), k, w)) == if Sticks(Encoded(s), k) then Stuck else Done(s)
  {
    InsertExactly(s, k, w);
    WhiteSpaceIgnored(Encoded(s)[..k], w, Encoded(s)[k..]);
    assert Encoded(s)[..k] + Encoded(s)[k..] == Encoded(s);
    UnstreamInverts(s);
  }

  method Skip(src: seq<Byte>, i0: nat) returns (i: nat)
    requires i0 <= |src|
    ensures i0 <= i <= |src| && src[i..] == SkipBad(src[i0..])
  {
    i := i0;
    while i < |src| && Sextet(src[i]) > 63
      invariant i0 <= i <= |src| && SkipBad(src[i0..]) == SkipBad(src[i..])
    {
      assert src[i..][1..] == src[i + 1..];
      i := i + 1;
    }
  }

  /** What stands in the destination: as much of the output as there is room for. */
  ghost predicate Holds(dst: array<Byte>, d: nat, out: seq<Byte>)
    reads dst
  {
    d == (if |out| <= dst.Length then |out| else dst.Length) && dst[..d] == out[..d]
  }

  method Put(dst: array<Byte>, d0: nat, b: Byte, ghost out: seq<Byte>) returns (d: nat)
    requires Holds(dst, d0, out)
    modifies dst
    ensures Holds(dst, d, out + [b])
  {
    d := d0;
    if d < dst.Length {
      dst[d] := b;
      d := d + 1;
    }
  }

  /** base64_decode of crypto-base64.c; `stuck` where it would not return. */
  method DecodeBlocks(dst: array<Byte>, src: seq<Byte>) returns (d: nat, stuck: bool)
    modifies dst
    ensures stuck <==> FirstDigit(src).Stuck?
    ensures !stuck ==>
      var out := FirstDigit(src).out;
      && d == (if |out| <= dst.Length then |out| else dst.Length)
      && dst[..d] == out[..d] && (d < dst.Length ==> dst[d] == 0)
  {
    var i: nat := 0;
    ghost var out: seq<Byte> := [];
    var running := true;
    d, stuck := 0, false;
    assert src[0..] == src;
    assert !FirstDigit(src).Stuck? ==> [] + FirstDigit(src).out == FirstDigit(src).out;
    while i < |src| && running
      invariant i <= |src| && Holds(dst, d, out) && !(running && stuck)
      invariant FirstDigit(src) ==
        if stuck then Stuck else if running then After(out, FirstDigit(src[i..])) else Done(out)
      decreases |src| - i, running
    {
      d, i, running, stuck, out := DecodeBlock(dst, d, src, i, out);
    }
    assert out + [] == out;
    if !stuck && d < dst.Length {
      dst[d] := 0;
      assert dst[..d] == out[..d];
    }
  }

  /** One turn: up to four digits. */
  method DecodeBlock(dst: array<Byte>, d0: nat, src: seq<Byte>, i0: nat, ghost out0: seq<Byte>)
    returns (d: nat, i: nat, running: bool, stuck: bool, ghost out: seq<Byte>)
    requires i0 < |src| && Holds(dst, d0, out0)
    modifies dst
    ensures Holds(dst, d, out) && i0 <= i <= |src| && (running ==> i0 < i) && !(running && stuck)
    ensures After(out0, FirstDigit(src[i0..]))
         == if stuck then Stuck else if running then After(out, FirstDigit(src[i..])) else Done(out)
  {
    var b: Byte, c, found;
    i, b, c, found := TwoDigits(src, i0);
    d, running, stuck, out := d0, false, false, out0;
    assert out0 + [] == out0;
    if found {
      d := Put(dst, d, b, out);
      AfterAfter(out, [b], ThirdDigit(c, src[i..]));
      out := out + [b];
      d, i, running, stuck, out := DecodeHalf(dst, d, src, i, c, out);
    }
  }

  /** The first byte of a block and the bits left over, unless the text ends before. */
  method TwoDigits(src: seq<Byte>, i0: nat) returns (i: nat, b: Byte, c: nat, found: bool)
    requires i0 < |src|
    ensures i0 <= i <= |src| && c < 64 && (found ==> i0 < i)
    ensures FirstDigit(src[i0..]) == if found then After([b], ThirdDigit(c, src[i..])) else Done([])
  {
    b, c := 0, 0;
    var first, second;
    i, first, found := NextDigit(src, i0);
    if found {
      i, second, found := NextDigit(src, i);
      if found {
        c, b := second, first * 4 + second / 16;
      }
    }
  }

  /** The next digit, whatever is in front of it. */
  method NextDigit(src: seq<Byte>, i0: nat) returns (i: nat, c: nat, found: bool)
    requires i0 <= |src|
    ensures i0 <= i <= |src| && c < 64 && (found ==> i0 < i)
    ensures var r := SkipBad(src[i0..]);
      (found <==> |r| > 0) && (found ==> c == Sextet(r[0]) && src[i..] == r[1..])
  {
    c := 0;
    i := Skip(src, i0);
    found := i < |src|;
    if found {
      c := Sextet(src[i]);
      i := i + 1;
    }
  }

  /** The third and the fourth digit. */
  method DecodeHalf(dst: array<Byte>, d0: nat, src: seq<Byte>, i0: nat, c0: nat, ghost out0: seq<Byte>)
    returns (d: nat, i: nat, running: bool, stuck: bool, ghost out: seq<Byte>)
    requires i0 <= |src| && c0 < 64 && Holds(dst, d0, out0)
    modifies dst
    ensures Holds(dst, d, out) && i0 <= i <= |src| && !(running && stuck)
    ensures After(out0, ThirdDigit(c0, src[i0..]))
         == if stuck then Stuck else if running then After(out, FirstDigit(src[i..])) else Done(out)
  {
    d, i, running, stuck, out := d0, i0, false, false, out0;
    assert out0 + [] == out0;
    if i == |src| || src[i] == PAD {
      return;
    }
    if Sextet(src[i]) > 63 {
      stuck := true;
      return;
    }
    var c := Sextet(src[i]);
    var b: Byte := c0 % 16 * 16 + c / 4;
    assert src[i..][1..] == src[i + 1..];
    d := Put(dst, d, b, out);
    AfterAfter(out, [b], FourthDigit(c, src[i + 1..]));
    out := out + [b];
    i := i + 1;
    assert out + [] == out;
    if i == |src| || src[i] == PAD {
      return;
    }
    if Sextet(src[i]) > 63 {
      stuck := true;
      return;
    }
    b := c % 4 * 64 + Sextet(src[i]);
    assert src[i..][1..] == src[i + 1..];
    d := Put(dst, d, b, out);
    AfterAfter(out, [b], FirstDigit(src[i + 1..]));
    out := out + [b];
    i := i + 1;
    running := true;
  }

  lemma AfterAfter(a: seq<Byte>, b: seq<Byte>, o: Outcome)
    ensures After(a, After(b, o)) == After(a + b, o)
  {
    if o.Done? {
      assert a + (b + o.out) == a + b + o.out;
    }
  }
}
