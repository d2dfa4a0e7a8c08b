/** BlackRock-2: a network over a power-of-two box, computed with masks and shifts. The S-boxes
    and the square root are parameters. */
module BlackRock2 {
  import opened Words
  import opened Feistel
  import opened RoundTrips

  // ----- the round function -----

  type SBox = s: seq<nat> | |s| == 64 witness seq(64, _ => 0)

  datatype Tables = Tables(sb1: SBox, sb2: SBox, sb3: SBox, sb4: SBox, sb5: SBox, sb6: SBox, sb7: SBox, sb8: SBox)

  /** x & 0x3F */
  function LowSix(x: nat): (i: nat)
    ensures i < 64 && i == Rem(x, 64)
  {
    MaskIsMod(x, 6);
    And(x, 0x3F)
  }

  function Lookups(p: SBox, q: SBox, r: SBox, s: SBox, x: nat): nat {
    Xor(Xor(Xor(p[LowSix(x)], q[LowSix(Shr(x, 8))]), r[LowSix(Shr(x, 16))]), s[LowSix(Shr(x, 24))])
  }

  /** What the seed contributes in round j. */
  function Key(j: nat, seed: nat): nat
    requires 0 < j < 64
  {
    Or(Shr(seed, j), Shl(seed, 64 - j))
  }

  /** ROUND; a shift by 64 or more has no meaning in C, so later rounds have none. */
  function Round(t: Tables, j: nat, r: nat, seed: nat): nat
    requires 0 < j < 64
  {
    var x := Xor(r, Key(j, seed));
    if j % 2 == 1 then Lookups(t.sb8, t.sb6, t.sb4, t.sb2, x) else Lookups(t.sb7, t.sb5, t.sb3, t.sb1, x)
  }

  ghost predicate UsesRound(box: Box, t: Tables) {
    forall j: nat, r: nat :: 0 < j < 64 ==> box.round(j, r, box.seed) == Round(t, j, r, box.seed)
  }

  /** The left half whose six low bits make the given index, 0 or 1, with the key. */
  function Chosen(key: nat, bit: nat): (left: nat)
    requires bit < 2
    ensures left < 64
  {
    var c := Rem(key, 64);
    if bit == 0 then c else if c % 2 == 0 then c + 1 else c - 1
  }

  lemma ChosenIndex(key: nat, bit: nat)
    requires bit < 2
    ensures LowSix(Xor(Chosen(key, bit), key)) == bit
  {
    var c, left := Rem(key, 64), Chosen(key, bit);
    assert Pow2(6) == 64;
    XorMod(left, key, 6);
    DivModUnique(left, 0, left, 64);
    if bit == 0 {
      XorSelf(c);
    } else {
      XorSelf(c / 2);
      XorStep(left, c);
      assert left / 2 == c / 2;
    }
    DivModUnique(bit, 0, bit, 64);
  }

  /** The other indices do not see the left half. */
  lemma HighIndex(key: nat, bit: nat, k: nat)
    requires bit < 2 && k >= 6
    ensures Shr(Xor(Chosen(key, bit), key), k) == Shr(key, k)
  {
    var left := Chosen(key, bit);
    XorShr(left, key, k);
    Pow2Monotone(6, k);
    assert Pow2(6) == 64;
    DivModUnique(left, 0, left, Pow2(k));
  }

  lemma XorApart(x: nat, y: nat, z: nat)
    requires Rem(x, 4) != Rem(y, 4)
    ensures Rem(Xor(x, z), 4) != Rem(Xor(y, z), 4)
  {
    assert Pow2(2) == 4;
    XorMod(x, z, 2);
    XorMod(y, z, 2);
    if Rem(Xor(x, z), 4) == Rem(Xor(y, z), 4) {
      XorCancels(Rem(x, 4), Rem(y, 4), Rem(z, 4));
    }
  }

  /** The two lookups differ in their two low bits, since the first two entries of SB7 do. */
  lemma LookupsApart(t: Tables, key: nat)
    requires Rem(t.sb7[0], 4) != Rem(t.sb7[1], 4)
    ensures Rem(Lookups(t.sb7, t.sb5, t.sb3, t.sb1, Xor(Chosen(key, 0), key)), 4)
      != Rem(Lookups(t.sb7, t.sb5, t.sb3, t.sb1, Xor(Chosen(key, 1), key)), 4)
  {
    ChosenIndex(key, 0);
    ChosenIndex(key, 1);
    HighIndex(key, 0, 8);
    HighIndex(key, 1, 8);
    HighIndex(key, 0, 16);
    HighIndex(key, 1, 16);
    HighIndex(key, 0, 24);
    HighIndex(key, 1, 24);
    var q, r, s := t.sb5[LowSix(Shr(key, 8))], t.sb3[LowSix(Shr(key, 16))], t.sb1[LowSix(Shr(key, 24))];
    XorApart(t.sb7[0], t.sb7[1], q);
    XorApart(Xor(t.sb7[0], q), Xor(t.sb7[1], q), r);
    XorApart(Xor(Xor(t.sb7[0], q), r), Xor(Xor(t.sb7[1], q), r), s);
  }

  lemma RoundsApart(t: Tables, j: nat, seed: nat)
    requires 0 < j < 64 && j % 2 == 0 && Rem(t.sb7[0], 4) != Rem(t.sb7[1], 4)
    ensures Rem(Round(t, j, Chosen(Key(j, seed), 0), seed), 4) != Rem(Round(t, j, Chosen(Key(j, seed), 1), seed), 4)
  {
    LookupsApart(t, Key(j, seed));
  }

  lemma MultipleOfFour(y: nat, b: nat, bBits: nat)
    requires b == Pow2(bBits) && bBits >= 2 && Rem(y, b) == 0
    ensures Rem(y, 4) == 0
  {
    Pow2Add(bBits - 2, 2);
    assert Pow2(2) == 4;
    ModOfMod(y, 4, Pow2(bBits - 2));
  }

  lemma WordLow(y: nat)
    ensures Rem(Rem(y, WORD), 4) == Rem(y, 4)
  {
    WrapThenMod(y, 2);
  }

  /** A round without effect has its two low bits clear. */
  lemma LowBitsClear(box: Box, t: Tables, bBits: nat, left: nat)
    requires UsesRound(box, t) && box.b == Pow2(bBits) && bBits >= 2
    requires box.rounds < 63 && AddsNothing(box, left)
    ensures Rem(Round(t, box.rounds + 1, left, box.seed), 4) == 0
  {
    var y := box.round(box.rounds + 1, left, box.seed);
    MultipleOfFour(Rem(y, WORD), box.b, bBits);
    WordLow(y);
  }

  /** With the tables of the source, of which the first two entries of SB7 matter here, and sides
      of 64 and 4 at least: the added round of an odd count always changes something. */
  lemma {:induction false} SourceRoundAdds(box: Box, t: Tables, bBits: nat)
    requires UsesRound(box, t) && t.sb7[0] == 0x0020_0000 && t.sb7[1] == 0x0420_0002
    requires box.a >= 64 && box.b == Pow2(bBits) && bBits >= 2
    requires box.rounds % 2 == 1 && box.rounds < 63
    ensures !NeverAdds(box)
  {
    var key := Key(box.rounds + 1, box.seed);
    RoundsApart(t, box.rounds + 1, box.seed);
    if NeverAdds(box) {
      assert AddsNothing(box, Chosen(key, 0)) && AddsNothing(box, Chosen(key, 1));
      LowBitsClear(box, t, bBits, Chosen(key, 0));
      LowBitsClear(box, t, bBits, Chosen(key, 1));
      assert false;
    }
  }

  /** So with the round function of the source DECRYPT undoes ENCRYPT, for any seed, exactly when
      the count is even: on the largest range of the box, and on all of them together. */
  lemma {:induction false} SourceRoundTripsExactly(box: Box, t: Tables, bBits: nat)
    requires UsesRound(box, t) && t.sb7[0] == 0x0020_0000 && t.sb7[1] == 0x0420_0002
    requires box.a >= 64 && box.b == Pow2(bBits) && bBits >= 2 && box.rounds < 63
    ensures Undone(box, box.Size() - 1) <==> box.rounds % 2 == 0
    ensures (forall range: nat :: range < box.Size() ==> Undone(box, range)) <==> box.rounds % 2 == 0
  {
    TopRangeExactly(box, bBits);
    RangesRoundTripExactly(box, bBits);
    if box.rounds % 2 == 1 {
      SourceRoundAdds(box, t, bBits);
      Pow2Monotone(2, bBits);
    }
  }

  // ----- the code -----

  /** `k` is the exponent next_power_of_two stops at. */
  ghost predicate NextExponent(num: nat, k: nat) {
    1 <= k <= 63 && num < Pow2(k) && (k > 1 ==> Pow2(k - 1) <= num)
  }

  lemma ShlOne(p: nat)
    requires p <= 63
    ensures Shl(1, p) == Pow2(p) <= 0x8000_0000_0000_0000
    ensures p == 63 ==> Pow2(p) == 0x8000_0000_0000_0000
  {
    Pow2Monotone(p, 63);
    Pow2Values();
  }

  method NextPowerOfTwo(num: nat) returns (power: nat, ghost k: nat)
    requires num < 0x8000_0000_0000_0000
    ensures NextExponent(num, k) && power == Pow2(k)
    ensures num < power && (power == 2 || power <= 2 * num)
  {
    var n := num + 1;
    var p := 1;
    ShlOne(1);
    while Shl(1, p) < n
      invariant 1 <= p <= 63 && Shl(1, p) == Pow2(p)
      invariant p > 1 ==> Pow2(p - 1) < n
      decreases 63 - p
    {
      ShlOne(p);
      ShlOne(p + 1);
      p := p + 1;
    }
    k := p;
    power := Shl(1, p);
  }

  method BitCount(num: nat) returns (bits: nat)
    requires num > 0
    ensures Pow2(bits) <= num < Pow2(bits + 1)
  {
    bits := 0;
    while Shr(num, bits) > 1
      invariant Pow2(bits) <= num
      decreases num - Pow2(bits)
    {
      DivBelow(num, Pow2(bits));
      bits := bits + 1;
    }
    DivBelow(num, Pow2(bits));
  }

  lemma DivBelow(x: nat, n: nat)
    requires n > 0
    ensures x / n > 1 <==> x >= 2 * n
  {
    assert x == (x / n) * n + x % n;
    if x / n > 1 {
      MulMono(2, x / n, n);
    } else {
      MulMono(x / n, 1, n);
    }
  }

  lemma SameExponent(i: nat, j: nat)
    requires Pow2(i) <= Pow2(j) < Pow2(i + 1)
    ensures i == j
  {
    if i < j {
      Pow2Monotone(i + 1, j);
    } else if j < i {
      Pow2Monotone(j + 1, i);
    }
  }

  class BlackRock {
    const round: (nat, nat, nat) -> nat
    var range: nat
    var a: Side
    var aBits: nat
    var aMask: nat
    var b: Side
    var bBits: nat
    var bMask: nat
    var rounds: nat
    var seed: nat

    function AsBox(): Box
      reads this
    {
      Box(a, b, seed, rounds, round)
    }

    /** What blackrock2_init establishes. `rounds` leaves room for the unsigned counter. */
    ghost predicate Valid()
      reads this
    {
      && a == Pow2(aBits) && aMask == a - 1 && 1 <= aBits <= 63
      && b == Pow2(bBits) && bMask == b - 1 && 1 <= bBits <= 63
      && range < AsBox().Size() <= WORD
      && rounds <= 0xFFFF_FFFD
    }

    /** blackrock2_init; `root` is the truncated square root of the range, in the proof any
        number below 2^63. */
    constructor (round: (nat, nat, nat) -> nat, range: nat, root: nat, seed: nat, rounds: nat)
      requires range < WORD && root < 0x8000_0000_0000_0000 && rounds <= 0xFFFF_FFFD
      ensures Valid()
      ensures this.range == range && this.seed == seed && this.rounds == rounds && this.round == round
    {
      var a, aBits, b, bBits := Sizes(range, root);
      this.a, this.aBits, this.aMask := a, aBits, a - 1;
      this.b, this.bBits, this.bMask := b, bBits, b - 1;
      this.round, this.range, this.rounds, this.seed := round, range, rounds, seed;
    }

    static method Sizes(range: nat, root: nat) returns (a: Side, aBits: nat, b: Side, bBits: nat)
      requires range < WORD && root < 0x8000_0000_0000_0000
      ensures a == Pow2(aBits) && b == Pow2(bBits) && 1 <= aBits <= 63 && 1 <= bBits <= 63
      ensures Roomy(range, aBits, bBits)
    {
      a, aBits := PowerAndBits(root);
      var q := DivMod(range, a).1;
      Quotient(range, aBits, q);
      b, bBits := PowerAndBits(q);
      BoxFacts(range, root, aBits, bBits, q);
    }

    static ghost predicate Roomy(range: nat, i: nat, j: nat) {
      range < Pow2(i) * Pow2(j) <= WORD
    }

    static ghost predicate IsQuotient(range: nat, i: nat, q: nat) {
      q * Pow2(i) <= range < (q + 1) * Pow2(i)
    }

    static method PowerAndBits(num: nat) returns (power: Side, bits: nat)
      requires num < 0x8000_0000_0000_0000
      ensures NextExponent(num, bits) && power == Pow2(bits)
    {
      ghost var k;
      power, k := NextPowerOfTwo(num);
      bits := BitCount(power);
      SameExponent(bits, k);
    }

    static lemma Quotient(range: nat, i: nat, q: nat)
      requires range < WORD && i > 0 && q == DivMod(range, Pow2(i)).1
      ensures q < 0x8000_0000_0000_0000 && IsQuotient(range, i, q)
    {
      Pow2Monotone(1, i);
      var a := Pow2(i);
      assert range == q * a + range % a;
      if q >= 0x8000_0000_0000_0000 {
        MulMono(0x8000_0000_0000_0000, q, a);
        MulMono(2, a, 0x8000_0000_0000_0000);
      }
    }

    /** The box is larger than the range and its numbers fit into a word. */
    static lemma BoxFacts(range: nat, root: nat, i: nat, j: nat, q: nat)
      requires range < WORD && NextExponent(root, i)
      requires IsQuotient(range, i, q) && NextExponent(q, j)
      ensures Roomy(range, i, j)
    {
      Bigger(range, q, Pow2(i), Pow2(j));
      BoxFits(range, i, j, q);
      Pow2Add(i, j);
      Pow2Monotone(i + j, 64);
      Pow2Values();
    }

    static lemma Bigger(range: nat, q: nat, a: nat, b: nat)
      requires range < (q + 1) * a && q + 1 <= b
      ensures range < a * b
    {
      MulMono(q + 1, b, a);
    }

    static lemma BoxFits(range: nat, i: nat, j: nat, q: nat)
      requires range < WORD && i <= 63 && q * Pow2(i) <= range && NextExponent(q, j)
      ensures i + j <= 64
    {
      if i + j > 64 {
        Pow2Values();
        MulMono(Pow2(j - 1), q, Pow2(i));
        Pow2Add(j - 1, i);
        Pow2Monotone(64, i + j - 1);
      }
    }

    /** (x + t) & mask in words. */
    static lemma MaskedSum(x: nat, t: nat, k: nat)
      requires k <= 64
      ensures And((x + t) % WORD, Pow2(k) - 1) == AddMod(x, t, Pow2(k))
    {
      WrapThenMod(x + t, k);
      MaskIsMod((x + t) % WORD, k);
    }

    /** (L + ROUND(j, R, seed)) & mask */
    method Masked(j: nat, l: nat, r: nat, mask: nat, ghost k: nat) returns (tmp: nat)
      requires mask == Pow2(k) - 1 && k <= 64
      ensures tmp == AddMod(l, AsBox().Mix(j, r), Pow2(k))
    {
      var t := AsBox().Mix(j, r);
      MaskedSum(l, t, k);
      tmp := And((l + t) % WORD, mask);
    }

    /** The two rounds of one turn of ENCRYPT. */
    method TwoRounds(j: nat, l: nat, r: nat, ghost n: nat) returns (left: nat, right: nat)
      requires Valid() && j == 2 * n + 1
      ensures (left, right) == Fwd(AsBox(), n + 1, (l, r))
    {
      left, right := l, r;
      var tmp := Masked(j, left, right, aMask, aBits);
      left, right := right, tmp;
      tmp := Masked(j + 1, left, right, bMask, bBits);
      left, right := right, tmp;
    }

    /** ENCRYPT: masks and shifts compute the network, and nothing overflows. */
    method Encipher(m: nat) returns (c: nat)
      requires Valid() && m < AsBox().Size()
      ensures c == Scramble(AsBox(), m)
    {
      ghost var box, s := AsBox(), Split(AsBox(), m);
      MaskIsMod(m, aBits);
      var left, right := And(m, aMask), Shr(m, aBits);
      assert (left, right) == s;
      var j := 1;
      ghost var n := 0;
      while j <= rounds
        invariant j == 2 * n + 1 && n <= Pairs(box)
        invariant (left, right) == FwdN(box, n, s)
        decreases rounds - j + 2
      {
        left, right := TwoRounds(j, left, right, n);
        j := j + 2;
        n := n + 1;
      }
      assert n == Pairs(box);
      ScrambleFits(box, aBits, m);
      c := Joined(j, left, right);
    }

    /** The other way of joining, for an even counter, is never taken. */
    method Joined(j: nat, left: nat, right: nat) returns (c: nat)
      requires j % 2 == 1
      ensures c == (Shl(right, aBits) + left) % WORD
    {
      if (j - 1) % 2 == 1 {
        assert false;
      }
      c := (Shl(right, aBits) + left) % WORD;
    }

    static lemma ScrambleFits(box: Box, aBits: nat, m: nat)
      requires m < box.Size() <= WORD && box.a == Pow2(aBits)
      ensures var s := FwdN(box, Pairs(box), Split(box, m));
        (Shl(s.1, aBits) + s.0) % WORD == Scramble(box, m)
    {
      SplitJoin(box, m, Split(box, m));
      HalvesInverse(box, Pairs(box), Split(box, m));
      var s := FwdN(box, Pairs(box), Split(box, m));
      JoinFits(box, aBits, s.0, s.1);
    }

    static lemma JoinFits(box: Box, aBits: nat, l: nat, r: nat)
      requires Halves(box, (l, r)) && box.Size() <= WORD && box.a == Pow2(aBits)
      ensures (Shl(r, aBits) + l) % WORD == Join(box, (l, r))
    {
      SplitJoin(box, 0, (l, r));
      NoOverflow(r * box.a, l);
    }

    static lemma NoOverflow(x: nat, y: nat)
      requires x + y < WORD
      ensures (x % WORD + y) % WORD == x + y
    {
    }

    /** blackrock2_shuffle terminates for every index in range. */
    method Shuffle(m: nat) returns (c: nat)
      requires Valid() && m < range
      ensures c < range && c == Walk(AsBox(), Pairwise, range, m)
    {
      ghost var box := AsBox();
      ghost var i, k := 1, Steps(box, Pairwise, range, m);
      c := Encipher(m);
      assert c == Move(box, Pairwise, Iter(box, Pairwise, 0, m));
      while c >= range
        invariant 1 <= i <= k && c == Iter(box, Pairwise, i, m)
        decreases k - i
      {
        IterInBox(box, Pairwise, i, m);
        c := Encipher(c);
        i := i + 1;
      }
      assert i == k;
    }

    method Unshuffle(m: nat) returns (c: nat)
      requires Valid() && m < range
      ensures c < range && c == Walk(AsBox(), RoundwiseBack, range, m)
    {
      ghost var box := AsBox();
      ghost var i, k := 1, Steps(box, RoundwiseBack, range, m);
      c := Decipher(AsBox(), m);
      assert c == Move(box, RoundwiseBack, Iter(box, RoundwiseBack, 0, m));
      while c >= range
        invariant 1 <= i <= k && c == Iter(box, RoundwiseBack, i, m)
        decreases k - i
      {
        IterInBox(box, RoundwiseBack, i, m);
        c := Decipher(AsBox(), c);
        i := i + 1;
      }
      assert i == k;
    }
  }
}
