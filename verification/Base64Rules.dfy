/** The two base64 codecs against the alphabet and the numbers of RFC 4648, section 4. */
module Base64Rules {
  import opened Common
  import opened Varint
  import opened Words
  import opened Base64

  const UPPER: string := "ABCDEFGHIJKLMNOPQRSTUVWXYZ"
  const LOWER: string := "abcdefghijklmnopqrstuvwxyz"
  const DIGITS: string := "0123456789"

  const ALPHABET: string := UPPER + LOWER + DIGITS + "+/"

  /** `c` is the letter for n. */
  ghost predicate Letter(c: Byte, n: nat) {
    n < 64 && c == ALPHABET[n] as int
  }

  lemma UpperLetters()
    ensures |UPPER| == 26 && forall n :: 0 <= n < 26 ==> UPPER[n] as int == 65 + n
  {
    var s := UPPER;
    assert s[0] as int == 65 && s[1] as int == 66 && s[2] as int == 67;
    assert s[3] as int == 68 && s[4] as int == 69 && s[5] as int == 70;
    assert s[6] as int == 71 && s[7] as int == 72 && s[8] as int == 73;
    assert s[9] as int == 74 && s[10] as int == 75 && s[11] as int == 76;
    assert s[12] as int == 77 && s[13] as int == 78 && s[14] as int == 79;
    assert s[15] as int == 80 && s[16] as int == 81 && s[17] as int == 82;
    assert s[18] as int == 83 && s[19] as int == 84 && s[20] as int == 85;
    assert s[21] as int == 86 && s[22] as int == 87 && s[23] as int == 88;
    assert s[24] as int == 89 && s[25] as int == 90;
  }

  lemma LowerLetters()
    ensures |LOWER| == 26 && forall n :: 0 <= n < 26 ==> LOWER[n] as int == 97 + n
  {
    var s := LOWER;
    assert s[0] as int == 97 && s[1] as int == 98 && s[2] as int == 99;
    assert s[3] as int == 100 && s[4] as int == 101 && s[5] as int == 102;
    assert s[6] as int == 103 && s[7] as int == 104 && s[8] as int == 105;
    assert s[9] as int == 106 && s[10] as int == 107 && s[11] as int == 108;
    assert s[12] as int == 109 && s[13] as int == 110 && s[14] as int == 111;
    assert s[15] as int == 112 && s[16] as int == 113 && s[17] as int == 114;
    assert s[18] as int == 115 && s[19] as int == 116 && s[20] as int == 117;
    assert s[21] as int == 118 && s[22] as int == 119 && s[23] as int == 120;
    assert s[24] as int == 121 && s[25] as int == 122;
  }

  lemma DigitLetters()
    ensures |DIGITS| == 10 && forall n :: 0 <= n < 10 ==> DIGITS[n] as int == 48 + n
  {
    var s := DIGITS;
    assert s[0] as int == 48 && s[1] as int == 49 && s[2] as int == 50;
    assert s[3] as int == 51 && s[4] as int == 52 && s[5] as int == 53;
    assert s[6] as int == 54 && s[7] as int == 55 && s[8] as int == 56;
    assert s[9] as int == 57;
  }

  /** The letter at every place of the alphabet. */
  lemma AlphabetRanges()
    ensures |ALPHABET| == 64
    ensures forall n :: 0 <= n < 26 ==> ALPHABET[n] as int == 65 + n
    ensures forall n :: 26 <= n < 52 ==> ALPHABET[n] as int == 97 + (n - 26)
    ensures forall n :: 52 <= n < 62 ==> ALPHABET[n] as int == 48 + (n - 52)
    ensures ALPHABET[62] as int == 43 && ALPHABET[63] as int == 47
  {
    UpperLetters();
    LowerLetters();
    DigitLetters();
  }

  lemma {:induction false} DigitIsLetter(c: Byte, n: nat)
    requires n < 64
    ensures Letter(c, n) <==> c == Digit(n)
    ensures Letter(c, n) <==> Sextet(c) == n
  {
    AlphabetRanges();
  }

  /** Not a letter of the alphabet. */
  lemma {:induction false} NoLetter(c: Byte)
    ensures Sextet(c) == 64 <==> forall n :: 0 <= n < 64 ==> c != ALPHABET[n] as int
  {
    AlphabetRanges();
    if Sextet(c) < 64 {
      DigitIsLetter(c, Sextet(c));
    }
  }

  // ----- encoding -----

  /** The letters of the digits i, j, k and l, which to the base 64 make the number n. */
  ghost predicate Spelled(t: seq<Byte>, n: nat, i: nat, j: nat, k: nat, l: nat) {
    && |t| == 4 && Letter(t[0], i) && Letter(t[1], j) && Letter(t[2], k) && Letter(t[3], l)
    && Makes(n, i, j, k, l)
  }

  ghost predicate Makes(n: nat, i: nat, j: nat, k: nat, l: nat) {
    n == i * 262144 + j * 4096 + k * 64 + l
  }

  ghost predicate FourLetters(t: seq<Byte>, n: nat) {
    exists i: nat, j: nat, k: nat, l: nat :: Spelled(t, n, i, j, k, l)
  }

  lemma SameNumber(a: Byte, b: Byte, c: Byte, n: nat, i: nat, j: nat, k: nat, l: nat)
    requires i < 64 && j < 64 && k < 64 && l < 64
    requires n == a * 65536 + b * 256 + c && Makes(n, i, j, k, l)
    ensures i == a / 4 && j == a % 4 * 16 + b / 16 && k == b % 16 * 4 + c / 64 && l == c % 64
  {
    var d, e, f := a % 4, b % 16, c % 64;
    assert a == 4 * (a / 4) + d && b == 16 * (b / 16) + e && c == 64 * (c / 64) + f;
  }

  lemma LettersAre(t: seq<Byte>, a: Byte, b: Byte, c: Byte, n: nat)
    requires n == a * 65536 + b * 256 + c && FourLetters(t, n)
    ensures t == Block(a, b, c)
  {
    var i: nat, j: nat, k: nat, l: nat :| Spelled(t, n, i, j, k, l);
    SameNumber(a, b, c, n, i, j, k, l);
    BlockIs(a, b, c, i, j, k, l);
    DigitsAre(t, i, j, k, l);
  }

  lemma DigitsAre(t: seq<Byte>, k: nat, l: nat, m: nat, n: nat)
    requires |t| == 4 && Letter(t[0], k) && Letter(t[1], l) && Letter(t[2], m) && Letter(t[3], n)
    ensures t == [Digit(k), Digit(l), Digit(m), Digit(n)]
  {
    DigitIsLetter(t[0], k);
    DigitIsLetter(t[1], l);
    DigitIsLetter(t[2], m);
    DigitIsLetter(t[3], n);
  }

  /** Three bytes make four letters. */
  lemma {:induction false} ThreeEncode(a: Byte, b: Byte, c: Byte, rest: seq<Byte>, t: seq<Byte>)
    requires FourLetters(t, a * 65536 + b * 256 + c)
    ensures Encoded([a, b, c] + rest) == t + Encoded(rest)
  {
    var s := [a, b, c] + rest;
    assert s[0] == a && s[1] == b && s[2] == c && s[3..] == rest;
    LettersAre(t, a, b, c, a * 65536 + b * 256 + c);
  }

  /** Two bytes left over make three letters and a pad, the missing bits zero. */
  lemma {:induction false} TwoEncode(a: Byte, b: Byte, t: seq<Byte>)
    requires FourLetters(t, a * 65536 + b * 256)
    ensures Encoded([a, b]) == t[..3] + [61]
  {
    LettersAre(t, a, b, 0, a * 65536 + b * 256);
    LastOnes(a, b);
  }

  lemma LastOnes(a: Byte, b: Byte)
    ensures Last([a, b]) == Block(a, b, 0)[..3] + [61]
    ensures Last([a]) == Block(a, 0, 0)[..2] + [61, 61]
  {
  }

  /** One byte makes two letters and two pads. */
  lemma {:induction false} OneEncode(a: Byte, t: seq<Byte>)
    requires FourLetters(t, a * 65536)
    ensures Encoded([a]) == t[..2] + [61, 61]
  {
    LettersAre(t, a, 0, 0, a * 65536);
    LastOnes(a, 0);
  }

  /** The examples of RFC 4648, section 10, that end in a full block, one pad and two pads. */
  lemma {:induction false} TestVectors()
    ensures Encoded([102]) == [90, 103, 61, 61]
    ensures Encoded([102, 111]) == [90, 109, 56, 61]
    ensures Encoded([102, 111, 111]) == [90, 109, 57, 118]
    ensures Encoded([102, 111, 111, 98, 97, 114]) == [90, 109, 57, 118, 89, 109, 70, 121]
  {
    assert [102, 111, 111][3..] == [];
    assert [102, 111, 111, 98, 97, 114][3..] == [98, 97, 114];
    assert [98, 97, 114][3..] == [];
  }

  // ----- decoding -----

  /** Any four letters in front of a text: the three bytes of their number, and what the text
      gives. */
  lemma {:induction false} FourUnstream(a: Byte, b: Byte, c: Byte, t: seq<Byte>, rest: seq<Byte>)
    requires FourLetters(t, a * 65536 + b * 256 + c)
    ensures var r := Unstream(0, 0, rest);
      Unstream(0, 0, t + rest) == if r.None? then None else Some([a, b, c] + r.value)
  {
    LettersAre(t, a, b, c, a * 65536 + b * 256 + c);
    UnstreamBlock(a, b, c, rest);
    var r := Unstream(0, 0, rest);
    if r.Some? {
      Front(a, b, c, r.value);
    }
  }

  /** The same with the block decoder. */
  lemma {:induction false} FourDecode(a: Byte, b: Byte, c: Byte, t: seq<Byte>, rest: seq<Byte>)
    requires FourLetters(t, a * 65536 + b * 256 + c)
    ensures var o := FirstDigit(rest);
      FirstDigit(t + rest) == if o.Stuck? then Stuck else Done([a, b, c] + o.out)
  {
    LettersAre(t, a, b, c, a * 65536 + b * 256 + c);
    DecodesBlock(a, b, c, rest);
    var o := FirstDigit(rest);
    if o.Done? {
      Front(a, b, c, o.out);
    }
  }

  lemma Front(a: Byte, b: Byte, c: Byte, s: seq<Byte>)
    ensures [a] + ([b] + ([c] + s)) == [a, b, c] + s
  {
  }

  lemma TwoFront(l: nat, m: nat, t: seq<Byte>)
    requires l < 64 && m < 64
    ensures m % 16 < Pow2(4)
    ensures Unstream(0, 0, [Digit(l)] + ([Digit(m)] + t)) == Then(l * 4 + m / 16, Unstream(m % 16, 4, t))
  {
    var a := l * 4 + m / 16;
    assert a / 4 == l && a % 4 * 16 + m % 16 == m;
    UnstreamTwo(a, m % 16, t);
  }

  lemma ThirdFront(v: nat, n: nat, t: seq<Byte>)
    requires v < 16 && n < 64
    ensures v < Pow2(4) && n % 4 < Pow2(2)
    ensures Unstream(v, 4, [Digit(n)] + t) == Then(v * 16 + n / 4, Unstream(n % 4, 2, t))
  {
    var b := v * 16 + n / 4;
    assert b / 16 == v && b % 16 * 4 + n % 4 == n;
    UnstreamThree(b, n % 4, t);
  }

  lemma TwoUnstream(m: nat, n: nat)
    requires m < 64 && n < 64
    ensures Unstream(0, 0, [Digit(m), Digit(n), 61, 61]) == Some([m * 4 + n / 16])
  {
    var a := m * 4 + n / 16;
    TwoFront(m, n, [61, 61]);
    assert [Digit(m)] + ([Digit(n)] + [61, 61]) == [Digit(m), Digit(n), 61, 61];
    PadsEnd(n % 16, 4, [61, 61]);
    assert [a] + [] == [a];
  }

  /** Two letters at the end, padded: one byte, and four bits that are dropped. */
  lemma {:induction false} TwoDecode(x: Byte, y: Byte, m: nat, n: nat)
    requires Letter(x, m) && Letter(y, n)
    ensures Unstream(0, 0, [x, y, 61, 61]) == Some([m * 4 + n / 16])
    ensures FirstDigit([x, y, 61, 61]) == Done([m * 4 + n / 16])
  {
    DigitIsLetter(x, m);
    DigitIsLetter(y, n);
    TwoUnstream(m, n);
    TwoBlocks(m, n);
  }

  lemma TwoBlocks(m: nat, n: nat)
    requires m < 64 && n < 64
    ensures FirstDigit([Digit(m), Digit(n), 61, 61]) == Done([m * 4 + n / 16])
  {
    var a := m * 4 + n / 16;
    FirstTwo(m, n, a, [61, 61]);
    assert [Digit(m), Digit(n)] + [61, 61] == [Digit(m), Digit(n), 61, 61];
    assert [a] + [] == [a];
  }

  lemma PadsEnd(v: nat, bits: nat, t: seq<Byte>)
    requires v < Pow2(bits) && bits < 8 && (t == [61] || t == [61, 61])
    ensures Unstream(v, bits, t) == Some([])
  {
    if t == [61, 61] {
      assert t[1..] == [61];
      PadsEnd(v, bits, [61]);
    } else {
      assert t[1..] == [];
    }
  }

  lemma ThreeUnstream(l: nat, m: nat, n: nat)
    requires l < 64 && m < 64 && n < 64
    ensures Unstream(0, 0, [Digit(l), Digit(m), Digit(n), 61]) == Some([l * 4 + m / 16, m % 16 * 16 + n / 4])
  {
    var a, b, t := l * 4 + m / 16, m % 16 * 16 + n / 4, [Digit(n)] + [61];
    TwoFront(l, m, t);
    ThirdFront(m % 16, n, [61]);
    assert [Digit(l)] + ([Digit(m)] + t) == [Digit(l), Digit(m), Digit(n), 61];
    PadsEnd(n % 4, 2, [61]);
    assert [a] + ([b] + []) == [a, b];
  }

  lemma ThreeBlocks(l: nat, m: nat, n: nat)
    requires l < 64 && m < 64 && n < 64
    ensures FirstDigit([Digit(l), Digit(m), Digit(n), 61]) == Done([l * 4 + m / 16, m % 16 * 16 + n / 4])
  {
    var a, b := l * 4 + m / 16, m % 16 * 16 + n / 4;
    FirstTwo(l, m, a, [Digit(n), 61]);
    ThirdThenPad(m, n);
    assert [Digit(l), Digit(m)] + [Digit(n), 61] == [Digit(l), Digit(m), Digit(n), 61];
    assert [a] + [b] == [a, b];
  }

  /** Three letters at the end, padded: two bytes, and two bits that are dropped. */
  lemma {:induction false} ThreeDecode(x: Byte, y: Byte, z: Byte, l: nat, m: nat, n: nat)
    requires Letter(x, l) && Letter(y, m) && Letter(z, n)
    ensures Unstream(0, 0, [x, y, z, 61]) == Some([l * 4 + m / 16, m % 16 * 16 + n / 4])
    ensures FirstDigit([x, y, z, 61]) == Done([l * 4 + m / 16, m % 16 * 16 + n / 4])
  {
    DigitIsLetter(x, l);
    DigitIsLetter(y, m);
    DigitIsLetter(z, n);
    ThreeUnstream(l, m, n);
    ThreeBlocks(l, m, n);
  }

  /** Neither a letter, nor a pad, nor white space. */
  ghost predicate Strange(c: Byte) {
    !(9 <= c <= 13) && c != 32 && c != 61 && forall n :: 0 <= n < 64 ==> c != ALPHABET[n] as int
  }

  /** The first decoder refuses exactly the texts with a strange character anywhere. */
  lemma {:induction false} RefusedExactly(v: nat, bits: nat, t: seq<Byte>)
    requires v < Pow2(bits) && bits < 8
    ensures Unstream(v, bits, t).None? <==> HasStrange(t)
    decreases |t|
  {
    if |t| > 0 {
      StrangeFirst(t);
      if Skipped(t[0]) {
        RefusedExactly(v, bits, t[1..]);
      } else if Sextet(t[0]) < 64 {
        var k := Kept(v, bits, Sextet(t[0]));
        RefusedExactly(k.0, k.1, t[1..]);
        RefusesRest(v, bits, t);
      }
    }
  }

  lemma RefusesRest(v: nat, bits: nat, t: seq<Byte>)
    requires v < Pow2(bits) && bits < 8 && |t| > 0 && !Skipped(t[0]) && Sextet(t[0]) < 64
    ensures var k := Kept(v, bits, Sextet(t[0]));
      Unstream(v, bits, t).None? <==> Unstream(k.0, k.1, t[1..]).None?
  {
  }

  ghost predicate HasStrange(t: seq<Byte>) {
    exists i :: 0 <= i < |t| && Strange(t[i])
  }

  lemma StrangeFirst(t: seq<Byte>)
    requires |t| > 0
    ensures HasStrange(t) <==> (!Skipped(t[0]) && Sextet(t[0]) == 64) || HasStrange(t[1..])
  {
    NoLetter(t[0]);
    StrangeRest(t);
  }

  lemma StrangeRest(t: seq<Byte>)
    requires |t| > 0
    ensures HasStrange(t) <==> Strange(t[0]) || HasStrange(t[1..])
  {
    if i :| 0 <= i < |t| && Strange(t[i]) {
      assert i > 0 ==> t[1..][i - 1] == t[i];
    }
  }
}
