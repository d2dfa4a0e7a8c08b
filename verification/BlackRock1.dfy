/** BlackRock: a network over a box of any two sides, as the scan uses it to visit its targets.
    The S-box and the square root are parameters. */
module BlackRock1 {
  import opened Words
  import opened Feistel

  // ----- the round function -----

  type SBox = s: seq<nat> | |s| == 256 && forall i :: 0 <= i < |s| ==> s[i] < 256 witness seq(256, _ => 0)

  /** x & 0xFF */
  function LowByte(x: nat): (i: nat)
    ensures i < 256
  {
    MaskIsMod(x, 8);
    And(x, 0xFF)
  }

  /** GETBYTE and the lookup. */
  function Fetch(sbox: SBox, j: nat, x: nat, seed: nat, n: nat): (b: nat)
    ensures b < 256
  {
    sbox[LowByte(Xor(Xor(Shr(x, 8 * n), seed), j))]
  }

  function LowPair(b0: nat, b1: nat): nat {
    Or(b0, Shl(b1, 8))
  }

  function HighPair(b0: nat, b1: nat): nat {
    And(Or(Shl(b0, 16), Shl(b1, 24)), 0xFFFF_FFFF)
  }

  function Combined(r0: nat, r1: nat, r2: nat, r3: nat): nat {
    Xor(Xor(Xor(r0, r1), Shl(r2, 23)), Shl(r3, 33))
  }

  /** READ; a shift by 64 or more has no meaning in C, so later rounds have none. */
  function Read(sbox: SBox, j: nat, r: nat, seed: nat): nat
    requires 0 < j < 64
  {
    var x := Xor(r, Xor(Shl(seed, j), Shr(seed, 64 - j)));
    Combined(LowPair(Fetch(sbox, j, x, seed, 0), Fetch(sbox, j, x, seed, 1)),
             HighPair(Fetch(sbox, j, x, seed, 2), Fetch(sbox, j, x, seed, 3)),
             LowPair(Fetch(sbox, j, x, seed, 4), Fetch(sbox, j, x, seed, 5)),
             HighPair(Fetch(sbox, j, x, seed, 6), Fetch(sbox, j, x, seed, 7)))
  }

  lemma Powers()
    ensures Pow2(8) == 0x100 && Pow2(16) == 0x1_0000 && Pow2(24) == 0x100_0000
    ensures Pow2(32) == 0x1_0000_0000 && Pow2(33) == 0x2_0000_0000 && Pow2(23) == 0x80_0000
  {
    assert Pow2(4) == 16;
    Pow2Add(4, 4);
    Pow2Add(8, 8);
    Pow2Add(8, 16);
    Pow2Add(16, 16);
    assert Pow2(33) == 2 * Pow2(32) && Pow2(24) == 2 * Pow2(23);
  }

  lemma HighPowers()
    ensures Pow2(39) == 0x80_0000_0000 && Pow2(49) == 0x2_0000_0000_0000
  {
    Powers();
    Pow2Add(23, 16);
    Pow2Add(33, 16);
  }

  lemma ShlFits(x: nat, k: nat, n: nat)
    requires n == Pow2(k) && x * n < WORD
    ensures Shl(x, k) == x * n
  {
  }

  lemma LowPairFacts(b0: nat, b1: nat)
    requires b0 < 256 && b1 < 256
    ensures LowPair(b0, b1) < 0x1_0000
  {
    Powers();
    ShlFits(b1, 8, 0x100);
    OrIsAdd(b0, b1, 8);
  }

  lemma Small(x: nat, n: nat)
    requires x < n
    ensures Rem(x, n) == x
  {
    DivModUnique(x, 0, x, n);
  }

  lemma MaskedWhole(x: nat, k: nat, mask: nat)
    requires mask == Pow2(k) - 1 && x <= mask
    ensures And(x, mask) == x
  {
    MaskIsMod(x, k);
    Small(x, Pow2(k));
  }

  lemma HighSum(b0: nat, b1: nat)
    requires b0 < 256 && b1 < 256
    ensures Or(Shl(b0, 16), Shl(b1, 24)) == b0 * 0x1_0000 + b1 * 0x100_0000
  {
    Powers();
    ShlFits(b0, 16, 0x1_0000);
    ShlFits(b1, 24, 0x100_0000);
    OrIsAdd(b0 * 0x1_0000, b1, 24);
  }

  lemma HighPairFacts(b0: nat, b1: nat)
    requires b0 < 256 && b1 < 256
    ensures HighPair(b0, b1) == (b0 + 256 * b1) * 0x1_0000 < 0x1_0000_0000
  {
    HighSum(b0, b1);
    Powers();
    MaskedWhole(b0 * 0x1_0000 + b1 * 0x100_0000, 32, 0xFFFF_FFFF);
  }

  /** Bits 39 to 48 are clear. */
  lemma CombinedFacts(r0: nat, r1: nat, r2: nat, h: nat)
    requires r0 < 0x1_0000 && r1 < 0x1_0000_0000 && r2 < 0x1_0000 && h < 0x1_0000
    ensures Combined(r0, r1, r2, h * 0x1_0000) + 0x1_0000_0000_0000 <= WORD
  {
    Powers();
    HighPowers();
    Pow2Monotone(16, 39);
    Pow2Monotone(32, 39);
    XorBound(r0, r1, 39);
    XorBound(Xor(r0, r1), Shl(r2, 23), 39);
    var low := Xor(Xor(r0, r1), Shl(r2, 23));
    Pow2Monotone(39, 49);
    TopBits(h);
    XorIsAdd(low, Rem(h, 0x8000), 49);
  }

  lemma TopBits(h: nat)
    requires h < 0x1_0000
    ensures Shl(h * 0x1_0000, 33) == Rem(h, 0x8000) * Pow2(49)
  {
    Powers();
    HighPowers();
    var q, r := h / 0x8000, h % 0x8000;
    DivModUnique(h * 0x2_0000_0000_0000, q, r * 0x2_0000_0000_0000, WORD);
  }

  /** A half below 2^48 can be added to it without wrapping around. */
  lemma {:induction false} ReadLeavesRoom(sbox: SBox, j: nat, r: nat, seed: nat)
    requires 0 < j < 64
    ensures Read(sbox, j, r, seed) + HALF_LIMIT <= WORD
  {
    var x := Xor(r, Xor(Shl(seed, j), Shr(seed, 64 - j)));
    LowPairFacts(Fetch(sbox, j, x, seed, 0), Fetch(sbox, j, x, seed, 1));
    HighPairFacts(Fetch(sbox, j, x, seed, 2), Fetch(sbox, j, x, seed, 3));
    LowPairFacts(Fetch(sbox, j, x, seed, 4), Fetch(sbox, j, x, seed, 5));
    var b6, b7 := Fetch(sbox, j, x, seed, 6), Fetch(sbox, j, x, seed, 7);
    HighPairFacts(b6, b7);
    CombinedFacts(LowPair(Fetch(sbox, j, x, seed, 0), Fetch(sbox, j, x, seed, 1)),
                  HighPair(Fetch(sbox, j, x, seed, 2), Fetch(sbox, j, x, seed, 3)),
                  LowPair(Fetch(sbox, j, x, seed, 4), Fetch(sbox, j, x, seed, 5)), b6 + 256 * b7);
  }

  const HALF_LIMIT: nat := 0x1_0000_0000_0000

  /** READ as a round function; rounds it has no meaning for are never run. */
  function ReadOf(sbox: SBox): (nat, nat, nat) -> nat {
    (j, r, seed) => if 0 < j < 64 then Read(sbox, j, r, seed) else 0
  }

  // ----- the sides -----

  /** What the floating square root gives: a number within one of the root. */
  ghost predicate NearRoot(root: real, range: nat) {
    && root >= 0.0 && (range >= 9 ==> root >= 3.0)
    && (root - 1.0) * (root - 1.0) <= range as real <= (root + 1.0) * (root + 1.0)
  }

  const RANGE_LIMIT: nat := WORD - 0x4_0000_0000

  lemma Squares(x: real, y: real)
    requires 0.0 <= x <= y
    ensures x * x <= y * y && (x < y ==> x * x < y * y)
  {
    if x < y {
      Positive(y - x, y + x);
      assert (y - x) * (y + x) == y * y - x * x;
    }
  }

  lemma Positive(x: real, y: real)
    requires x > 0.0 && y > 0.0
    ensures x * y > 0.0
  {
  }

  lemma WholeSquare(k: nat)
    ensures (k * k) as real == k as real * k as real
  {
  }

  lemma RootAbove(root: real, range: nat, n: nat)
    requires (root - 1.0) * (root - 1.0) <= range as real && n >= 3 && n as real <= root
    ensures (n - 1) * (n - 1) <= range
  {
    Squares((n - 1) as real, root - 1.0);
    WholeSquare(n - 1);
  }

  lemma RootBelow(root: real, range: nat, n: nat)
    requires range as real <= (root + 1.0) * (root + 1.0) && 0.0 <= root < (n + 1) as real
    ensures range < (n + 2) * (n + 2)
  {
    Squares(root + 1.0, (n + 2) as real);
    WholeSquare(n + 2);
  }

  /** The square root as a whole number. */
  lemma WholeRoot(root: real, range: nat) returns (n: nat)
    requires NearRoot(root, range) && range >= 9
    ensures n == root.Floor && n >= 3
    ensures (n - 1) * (n - 1) <= range < (n + 2) * (n + 2)
  {
    n := root.Floor;
    RootAbove(root, range, n);
    RootBelow(root, range, n);
  }

  /** From the first product of the sides no wrapping around, and few steps to go. */
  lemma FirstSides(range: nat, n: nat)
    requires range < RANGE_LIMIT && n >= 3 && (n - 1) * (n - 1) <= range
    ensures n <= 0x1_0000_0000 && (n - 2) * (n + 3) < WORD && range + (n - 2) < WORD
  {
    if n > 0x1_0000_0000 {
      MulMono(0x1_0000_0000, n - 1, n - 1);
      MulMono(0x1_0000_0000, n - 1, 0x1_0000_0000);
    }
    assert (n - 2) * (n + 3) == (n - 1) * (n - 1) + 3 * n - 7;
  }

  /** Few steps lead past the range. */
  lemma NearEnough(range: nat, n: nat)
    requires n >= 3 && range < (n + 2) * (n + 2)
    ensures range < (n - 2) * (n + 23)
  {
    assert (n - 2) * (n + 23) == n * n + 21 * n - 46;
    assert (n + 2) * (n + 2) == n * n + 4 * n + 4;
  }

  // ----- the code -----

  class BlackRock {
    const sbox: SBox
    var range: nat
    var a: Side
    var b: Side
    var seed: nat
    var rounds: nat

    function AsBox(): Box
      reads this
    {
      Box(a, b, seed, rounds, ReadOf(sbox))
    }

    /** What blackrock_init establishes. */
    ghost predicate Valid()
      reads this
    {
      && 0 < range < AsBox().Size() <= WORD && rounds < 64
      && a <= HALF_LIMIT && b <= HALF_LIMIT
    }

    /** blackrock_init. On an empty range it would not return. */
    constructor (sbox: SBox, range: nat, root: real, seed: nat, rounds: nat)
      requires 0 < range < RANGE_LIMIT && NearRoot(root, range) && rounds < 64
      ensures Valid()
      ensures this.range == range && this.seed == seed && this.rounds == rounds && this.sbox == sbox
    {
      var a, b := Sides(range, root);
      this.sbox, this.range, this.seed, this.rounds := sbox, range, seed, rounds;
      this.a, this.b := a, b;
    }

    /** The first sides: tabulated for the small ranges, else from the square root. `top` is a
        second side that is large enough. */
    static method FirstChoice(range: nat, root: real) returns (a: Side, b: Side, ghost top: nat)
      requires 0 < range < RANGE_LIMIT && NearRoot(root, range)
      ensures a * b < WORD && range + a < WORD && range < a * top
      ensures a <= HALF_LIMIT && b <= top <= HALF_LIMIT
    {
      top := 5;
      if range == 1 {
        a, b := 1, 1;
      } else if range == 2 {
        a, b := 1, 2;
      } else if range == 3 {
        a, b := 2, 2;
      } else if range <= 6 {
        a, b := 2, 3;
      } else if range <= 8 {
        a, b := 3, 3;
      } else {
        ghost var n := WholeRoot(root, range);
        FirstSides(range, n);
        NearEnough(range, n);
        a, b := (root - 2.0).Floor, (root + 3.0).Floor;
        top := n + 23;
      }
    }

    /** The second side grows until the box is larger than the range. */
    static method Sides(range: nat, root: real) returns (a: Side, b: Side)
      requires 0 < range < RANGE_LIMIT && NearRoot(root, range)
      ensures range < a * b < WORD && a <= HALF_LIMIT && b <= HALF_LIMIT
    {
      ghost var top;
      a, b, top := FirstChoice(range, root);
      while a * b <= range
        invariant a * b < WORD && b <= top
        decreases top - b
      {
        Smaller(a, b, top, range);
        b := b + 1;
      }
    }

    static lemma Smaller(a: nat, b: nat, top: nat, range: nat)
      requires a * b <= range < a * top
      ensures b < top && a * (b + 1) <= range + a
    {
      if b >= top {
        MulMono(top, b, a);
      }
    }

    /** (L + READ(j, R, seed)) % n in words: the sum does not wrap around. */
    method Mixed(j: nat, l: nat, r: nat, n: Side) returns (tmp: nat)
      requires Valid() && 0 < j < 64 && l < HALF_LIMIT
      ensures tmp == AddMod(l, AsBox().Mix(j, r), n)
    {
      var t := Read(sbox, j, r, seed);
      ReadLeavesRoom(sbox, j, r, seed);
      SumFits(l, t, n);
      MixIsRead(j, r);
      tmp := Rem(l + t, WORD) % n;
    }

    static lemma SumFits(l: nat, t: nat, n: Side)
      requires l < HALF_LIMIT && t + HALF_LIMIT <= WORD
      ensures Rem(l + t, WORD) % n == AddMod(l, Rem(t, WORD), n)
    {
      Small(l + t, WORD);
      Small(t, WORD);
    }

    lemma MixIsRead(j: nat, r: nat)
      requires 0 < j < 64
      ensures AsBox().Mix(j, r) == Rem(Read(sbox, j, r, seed), WORD)
    {
    }

    /** One turn of the loop. */
    method OneRound(j: nat, l: nat, r: nat, ghost s: (nat, nat)) returns (left: nat, right: nat)
      requires Valid() && 0 < j < 64 && Before(AsBox(), 0, s) && (l, r) == StepUp(AsBox(), j - 1, s)
      ensures (left, right) == StepUp(AsBox(), j, s)
    {
      StepsInverse(AsBox(), j - 1, s);
      var tmp;
      if j % 2 == 1 {
        tmp := Mixed(j, l, r, a);
      } else {
        tmp := Mixed(j, l, r, b);
      }
      left, right := r, tmp;
    }

    method AllRounds(l: nat, r: nat) returns (left: nat, right: nat)
      requires Valid() && Before(AsBox(), 0, (l, r))
      ensures (left, right) == StepUp(AsBox(), rounds, (l, r))
    {
      left, right := l, r;
      var j := 1;
      while j <= rounds
        invariant 1 <= j <= rounds + 1
        invariant (left, right) == StepUp(AsBox(), j - 1, (l, r))
      {
        left, right := OneRound(j, left, right, (l, r));
        j := j + 1;
      }
    }

    /** ENCRYPT, for any round count; nothing wraps around when the halves are joined. */
    method Encipher(m: nat) returns (c: nat)
      requires Valid() && m < AsBox().Size()
      ensures c == Encoded(AsBox(), m) && c < AsBox().Size()
    {
      SplitJoin(AsBox(), m, (0, 0));
      var halves := DivMod(m, a);
      var left, right := AllRounds(halves.0, halves.1);
      JoinFits(AsBox(), m, left, right);
      if rounds % 2 == 1 {
        c := Rem(Glued(a, left, right), WORD);
      } else {
        c := Rem(Glued(a, right, left), WORD);
      }
    }

    static lemma JoinFits(box: Box, m: nat, left: nat, right: nat)
      requires m < box.Size() <= WORD && (left, right) == StepUp(box, box.rounds, Split(box, m))
      ensures var s := SwapOdd(box, (left, right));
        Rem(Glued(box.a, s.1, s.0), WORD) == Encoded(box, m) < box.Size()
    {
      var s := SwapOdd(box, (left, right));
      SplitJoin(box, m, (0, 0));
      EndHalves(box, Split(box, m));
      SplitJoin(box, 0, s);
      JoinCommutes(box, s.0, s.1);
      Small(Glued(box.a, s.1, s.0), WORD);
    }

    /** blackrock_shuffle terminates in range, and unshuffling its result leads back. */
    method Shuffle(m: nat) returns (c: nat)
      requires Valid() && m < range
      ensures c < range && c == Walk(AsBox(), Roundwise, range, m)
      ensures Walk(AsBox(), RoundwiseBack, range, c) == m
    {
      ghost var box := AsBox();
      ghost var i, k := 1, Steps(box, Roundwise, range, m);
      c := Encipher(m);
      assert c == Move(box, Roundwise, Iter(box, Roundwise, 0, m));
      while c >= range
        invariant 1 <= i <= k && c == Iter(box, Roundwise, i, m) && c < box.Size()
        decreases k - i
      {
        c := Encipher(c);
        i := i + 1;
      }
      assert i == k;
      WalkInverse(box, Roundwise, range, m);
    }

    /** blackrock_unshuffle, and shuffling its result leads back, for any round count. */
    method Unshuffle(m: nat) returns (c: nat)
      requires Valid() && m < range
      ensures c < range && c == Walk(AsBox(), RoundwiseBack, range, m)
      ensures Walk(AsBox(), Roundwise, range, c) == m
    {
      ghost var box := AsBox();
      ghost var i, k := 1, Steps(box, RoundwiseBack, range, m);
      c := Decipher(AsBox(), m);
      assert c == Move(box, RoundwiseBack, Iter(box, RoundwiseBack, 0, m));
      while c >= range
        invariant 1 <= i <= k && c == Iter(box, RoundwiseBack, i, m) && c < box.Size()
        decreases k - i
      {
        c := Decipher(AsBox(), c);
        i := i + 1;
      }
      assert i == k;
      WalkInverse(box, RoundwiseBack, range, m);
    }
  }
}
