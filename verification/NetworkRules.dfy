/** The shuffling networks in plain arithmetic: bits, rounds, and the walk down to a range. */
module NetworkRules {
  import opened Words
  import opened Feistel
  import BlackRock1
  import BlackRock2

  // ----- bitwise operators -----

  /** Bit k of x. */
  ghost predicate Bit(x: nat, k: nat) {
    Shr(x, k) % 2 == 1
  }

  lemma BitStep(x: nat, k: nat)
    requires k > 0
    ensures Bit(x, k) <==> Bit(x / 2, k - 1)
  {
    ShrStep(x, k);
  }

  lemma LowBit(x: nat)
    ensures Bit(x, 0) <==> x % 2 == 1
  {
    ShrZero(x);
  }

  lemma {:induction false} NoBits(k: nat)
    ensures !Bit(0, k)
    decreases k
  {
    if k > 0 {
      NoBits(k - 1);
      BitStep(0, k);
    } else {
      LowBit(0);
    }
  }

  lemma AndHalves(x: nat, y: nat)
    ensures And(x, y) / 2 == And(x / 2, y / 2) && (And(x, y) % 2 == 1 <==> x % 2 == 1 && y % 2 == 1)
  {
  }

  lemma OrHalves(x: nat, y: nat)
    ensures Or(x, y) / 2 == Or(x / 2, y / 2) && (Or(x, y) % 2 == 1 <==> x % 2 == 1 || y % 2 == 1)
  {
  }

  /** The operators work bit by bit. */
  lemma {:induction false} Bitwise(x: nat, y: nat, k: nat)
    ensures Bit(And(x, y), k) <==> Bit(x, k) && Bit(y, k)
    ensures Bit(Or(x, y), k) <==> Bit(x, k) || Bit(y, k)
    ensures Bit(Xor(x, y), k) <==> Bit(x, k) != Bit(y, k)
    decreases k
  {
    AndHalves(x, y);
    OrHalves(x, y);
    XorStep(x, y);
    if k > 0 {
      Bitwise(x / 2, y / 2, k - 1);
      BitStep(x, k);
      BitStep(y, k);
      BitStep(And(x, y), k);
      BitStep(Or(x, y), k);
      BitStep(Xor(x, y), k);
    } else {
      LowBit(x);
      LowBit(y);
      LowBit(And(x, y));
      LowBit(Or(x, y));
      LowBit(Xor(x, y));
    }
  }

  // ----- rounds -----

  /** Round j: the right half becomes the left one; the new right half is the left one plus the
      mixed right one, modulo the first side in odd rounds and the second one in even rounds. */
  ghost predicate RoundTo(box: Box, j: nat, s: (nat, nat), t: (nat, nat)) {
    && t.0 == s.1
    && t.1 == (s.0 + box.round(j, s.1, box.seed) % 0x1_0000_0000_0000_0000) % if j % 2 == 1 then box.a else box.b
  }

  /** The halves of m, and after each of n rounds. */
  ghost predicate Rounds(box: Box, m: nat, states: seq<(nat, nat)>, n: nat) {
    && |states| == n + 1 && states[0] == (m % box.a, m / box.a)
    && forall j :: 0 <= j < n ==> RoundTo(box, j + 1, states[j], states[j + 1])
  }

  lemma {:induction false} RoundsAre(box: Box, m: nat, states: seq<(nat, nat)>, n: nat)
    requires Rounds(box, m, states, n)
    ensures states[n] == StepUp(box, n, Split(box, m))
    decreases n
  {
    if n > 0 {
      var front := states[..n];
      assert forall j :: 0 <= j < n - 1 ==> RoundTo(box, j + 1, front[j], front[j + 1]);
      RoundsAre(box, m, front, n - 1);
      assert RoundTo(box, n - 1 + 1, states[n - 1], states[n]);
      assert Redo(box, n, states[n - 1]) == states[n];
    }
  }

  /** An index is encrypted by as many rounds as were asked for; an odd count ends with the
      halves exchanged. */
  lemma {:induction false} EncryptMeans(box: Box, m: nat, states: seq<(nat, nat)>)
    requires Rounds(box, m, states, box.rounds)
    ensures var s := states[box.rounds];
      Move(box, Roundwise, m) == if box.rounds % 2 == 1 then s.0 * box.a + s.1 else s.1 * box.a + s.0
  {
    RoundsAre(box, m, states, box.rounds);
  }

  /** The second network always runs whole pairs of rounds. */
  lemma {:induction false} EncryptPairsMeans(box: Box, m: nat, states: seq<(nat, nat)>)
    requires Rounds(box, m, states, 2 * ((box.rounds + 1) / 2))
    ensures var s := states[2 * ((box.rounds + 1) / 2)]; Move(box, Pairwise, m) == s.1 * box.a + s.0
  {
    var n := (box.rounds + 1) / 2;
    RoundsAre(box, m, states, 2 * n);
    EvenStepsUp(box, n, Split(box, m));
  }

  // ----- walking down to a range -----

  /** Each index of the path is what the one before it is moved to. */
  ghost predicate Path(box: Box, dir: Direction, path: seq<nat>) {
    |path| > 1 && forall i :: 0 < i < |path| ==> path[i] == Move(box, dir, path[i - 1])
  }

  lemma {:induction false} PathIs(box: Box, dir: Direction, path: seq<nat>, i: nat)
    requires Path(box, dir, path) && i < |path|
    ensures path[i] == Iter(box, dir, i, path[0])
    decreases i
  {
    if i > 0 {
      PathIs(box, dir, path, i - 1);
    }
  }

  /** Shuffling moves an index once, and on for as long as it lies outside the range. */
  lemma {:induction false} WalkMeans(box: Box, dir: Direction, range: nat, path: seq<nat>)
    requires Path(box, dir, path) && path[0] < range <= box.Size()
    requires path[|path| - 1] < range && forall i :: 0 < i < |path| - 1 ==> path[i] >= range
    ensures Walk(box, dir, range, path[0]) == path[|path| - 1]
  {
    var k := |path| - 1;
    PathIs(box, dir, path, k);
    forall i: nat | 0 < i < k ensures Iter(box, dir, i, path[0]) >= range {
      PathIs(box, dir, path, i);
    }
    StepsAre(box, dir, range, path[0], k);
  }

  // ----- the round functions -----

  /** Entry of byte n of x, with seed and round. */
  ghost function Selected(sbox: BlackRock1.SBox, j: nat, x: nat, seed: nat, n: nat): nat {
    sbox[Rem(Xor(Xor(Shr(x, 8 * n), seed), j), 256)]
  }

  lemma FetchIs(sbox: BlackRock1.SBox, j: nat, x: nat, seed: nat, n: nat)
    ensures BlackRock1.Fetch(sbox, j, x, seed, n) == Selected(sbox, j, x, seed, n) < 256
  {
    BlackRock1.Powers();
    MaskIsMod(Xor(Xor(Shr(x, 8 * n), seed), j), 8);
  }

  lemma LowPairIs(b0: nat, b1: nat)
    requires b0 < 256 && b1 < 256
    ensures BlackRock1.LowPair(b0, b1) == b0 + 256 * b1
  {
    BlackRock1.Powers();
    BlackRock1.ShlFits(b1, 8, 0x100);
    OrIsAdd(b0, b1, 8);
  }

  /** Four numbers at bits 0, 16, 23 and 49 of a word. */
  ghost function Wide(p: nat, q: nat, r: nat, s: nat): nat {
    Xor(Xor(Xor(p, q * 0x1_0000), r * 0x80_0000), s * 0x2_0000_0000_0000 % 0x1_0000_0000_0000_0000)
  }

  lemma WideIs(v: nat, p: nat, q: nat, r: nat, s: nat, q': nat, s': nat)
    requires r < 0x1_0000 && q' == q * 0x1_0000 && s' == s * 0x1_0000
    requires v == BlackRock1.Combined(p, q', r, s')
    ensures v == Wide(p, q, r, s)
  {
    BlackRock1.Powers();
    BlackRock1.ShlFits(r, 23, 0x80_0000);
    assert Shl(s * 0x1_0000, 33) == s * 0x2_0000_0000_0000 % WORD;
  }

  lemma ReadIs(sbox: BlackRock1.SBox, j: nat, r: nat, seed: nat, x: nat, b: seq<nat>,
               p: nat, q: nat, s: nat, t: nat)
    requires 0 < j < 64 && x == Xor(r, Xor(Shl(seed, j), Shr(seed, 64 - j)))
    requires |b| == 8 && forall n: nat :: n < 8 ==> b[n] == BlackRock1.Fetch(sbox, j, x, seed, n)
    requires p == BlackRock1.LowPair(b[0], b[1]) && q == BlackRock1.HighPair(b[2], b[3])
    requires s == BlackRock1.LowPair(b[4], b[5]) && t == BlackRock1.HighPair(b[6], b[7])
    ensures BlackRock1.Read(sbox, j, r, seed) == BlackRock1.Combined(p, q, s, t)
  {
  }

  /** The first round function. The seed, shifted by the round to both sides, goes into the half;
      each byte of that selects an entry, and the entries, in pairs, are spread over a word. */
  lemma {:induction false} ReadMeans(sbox: BlackRock1.SBox, j: nat, r: nat, seed: nat, x: nat, b: seq<nat>,
                                     p: nat, q: nat, s: nat, t: nat)
    requires 0 < j < 64 && x == Xor(r, Xor(Shl(seed, j), Shr(seed, 64 - j)))
    requires |b| == 8 && forall n: nat :: n < 8 ==> b[n] == Selected(sbox, j, x, seed, n)
    requires p == b[0] + 256 * b[1] && q == b[2] + 256 * b[3] && s == b[4] + 256 * b[5] && t == b[6] + 256 * b[7]
    ensures BlackRock1.Read(sbox, j, r, seed) == Wide(p, q, s, t)
  {
    forall n: nat | n < 8 ensures b[n] == BlackRock1.Fetch(sbox, j, x, seed, n) < 256 {
      FetchIs(sbox, j, x, seed, n);
    }
    var q1, t1 := q * 0x1_0000, t * 0x1_0000;
    LowPairIs(b[0], b[1]);
    LowPairIs(b[4], b[5]);
    BlackRock1.HighPairFacts(b[2], b[3]);
    BlackRock1.HighPairFacts(b[6], b[7]);
    ReadIs(sbox, j, r, seed, x, b, p, q1, s, t1);
    WideIs(BlackRock1.Read(sbox, j, r, seed), p, q, s, t, q1, t1);
  }

  /** The second one: four groups of six bits, of the half and the rotated seed, each in a table of
      its own, other tables in odd and in even rounds. */
  lemma {:induction false} RoundMeans(t: BlackRock2.Tables, j: nat, r: nat, seed: nat, x: nat)
    requires 0 < j < 64
    requires x == Xor(r, Or(Shr(seed, j), Shl(seed, 64 - j)))
    ensures var i0, i1, i2, i3 := x % 64, x / 0x100 % 64, x / 0x1_0000 % 64, x / 0x100_0000 % 64;
      BlackRock2.Round(t, j, r, seed) ==
      if j % 2 == 1 then Xor(Xor(Xor(t.sb8[i0], t.sb6[i1]), t.sb4[i2]), t.sb2[i3])
      else Xor(Xor(Xor(t.sb7[i0], t.sb5[i1]), t.sb3[i2]), t.sb1[i3])
  {
    BlackRock1.Powers();
  }
}
