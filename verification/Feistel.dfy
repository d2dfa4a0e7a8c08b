/** The Feistel networks that shuffle an index: a box of two sides, the rounds on its halves,
    and the walk along a cycle of the box down to an arbitrary range. The round function is a
    parameter. */
module Feistel {
  import opened Words

  type Side = n: nat | n > 0 witness 1

  /** The parameters of one network. `round` stands for the S-box lookups of a round. */
  datatype Box = Box(a: Side, b: Side, seed: nat, rounds: nat, round: (nat, nat, nat) -> nat) {
    function Size(): nat { a * b }

    function Mix(j: nat, r: nat): (t: nat)
      ensures t < WORD
    {
      round(j, r, seed) % WORD
    }
  }

  // ----- the network as a function on pairs of halves -----

  predicate Halves(box: Box, s: (nat, nat)) {
    s.0 < box.a && s.1 < box.b
  }

  function AddMod(x: nat, t: nat, n: nat): nat
    requires n > 0
  {
    (x + t) % n
  }

  function SubMod(x: nat, t: nat, n: nat): nat
    requires n > 0
  {
    (x - t) % n
  }

  /** Rounds 2n-1 and 2n. */
  function Fwd(box: Box, n: nat, s: (nat, nat)): (r: (nat, nat))
    requires n > 0
  {
    var left := AddMod(s.0, box.Mix(2 * n - 1, s.1), box.a);
    (left, AddMod(s.1, box.Mix(2 * n, left), box.b))
  }

  function Back(box: Box, n: nat, s: (nat, nat)): (r: (nat, nat))
    requires n > 0
  {
    var right := SubMod(s.1, box.Mix(2 * n, s.0), box.b);
    (SubMod(s.0, box.Mix(2 * n - 1, right), box.a), right)
  }

  function FwdN(box: Box, n: nat, s: (nat, nat)): (nat, nat) {
    if n == 0 then s else Fwd(box, n, FwdN(box, n - 1, s))
  }

  function BackN(box: Box, n: nat, s: (nat, nat)): (nat, nat) {
    if n == 0 then s else BackN(box, n - 1, Back(box, n, s))
  }

  function DivMod(m: nat, n: nat): (r: (nat, nat))
    requires n > 0
  {
    (m % n, m / n)
  }

  function Split(box: Box, m: nat): (nat, nat) {
    DivMod(m, box.a)
  }

  function Join(box: Box, s: (nat, nat)): nat {
    s.1 * box.a + s.0
  }

  /** Rounds come in pairs: an odd count is completed. */
  function Pairs(box: Box): nat {
    (box.rounds + 1) / 2
  }

  function Scramble(box: Box, m: nat): nat {
    Join(box, FwdN(box, Pairs(box), Split(box, m)))
  }

  function Unscramble(box: Box, m: nat): nat {
    Join(box, BackN(box, Pairs(box), Split(box, m)))
  }

  lemma SubThenAdd(x: nat, t: nat, n: nat)
    requires x < n
    ensures AddMod(x, t, n) < n && SubMod(AddMod(x, t, n), t, n) == x
    ensures SubMod(x, t, n) < n && AddMod(SubMod(x, t, n), t, n) == x
  {
    var q, p := (x + t) / n, (x - t) / n;
    ModShift(x, -q, n);
    ModShift(x, -p, n);
    DivModUnique(x, 0, x, n);
    assert (x + t) % n - t == x + (-q) * n;
    assert (x - t) % n + t == x + (-p) * n;
  }

  lemma {:induction false} PairInverse(box: Box, n: nat, s: (nat, nat))
    requires n > 0 && Halves(box, s)
    ensures Halves(box, Fwd(box, n, s)) && Back(box, n, Fwd(box, n, s)) == s
    ensures Halves(box, Back(box, n, s)) && Fwd(box, n, Back(box, n, s)) == s
  {
    var f := Fwd(box, n, s);
    SubThenAdd(s.1, box.Mix(2 * n, f.0), box.b);
    SubThenAdd(s.0, box.Mix(2 * n - 1, s.1), box.a);
    var b := Back(box, n, s);
    SubThenAdd(s.0, box.Mix(2 * n - 1, b.1), box.a);
    SubThenAdd(s.1, box.Mix(2 * n, s.0), box.b);
  }

  lemma {:induction false} HalvesInverse(box: Box, n: nat, s: (nat, nat))
    requires Halves(box, s)
    ensures Halves(box, FwdN(box, n, s)) && BackN(box, n, FwdN(box, n, s)) == s
    ensures Halves(box, BackN(box, n, s)) && FwdN(box, n, BackN(box, n, s)) == s
    decreases n
  {
    if n > 0 {
      HalvesInverse(box, n - 1, s);
      PairInverse(box, n, FwdN(box, n - 1, s));
      PairInverse(box, n, s);
      HalvesInverse(box, n - 1, Back(box, n, s));
    }
  }

  lemma SplitJoin(box: Box, m: nat, s: (nat, nat))
    ensures m < box.Size() ==> Halves(box, Split(box, m))
    ensures Join(box, Split(box, m)) == m
    ensures Halves(box, s) ==> Join(box, s) < box.Size() && Split(box, Join(box, s)) == s
  {
    var a: nat, b: nat := box.a, box.b;
    assert m == (m / a) * a + m % a;
    if m < box.Size() && m / a >= b {
      MulMono(b, m / a, a);
    }
    if Halves(box, s) {
      DivModUnique(Join(box, s), s.1, s.0, a);
      MulMono(s.1, b - 1, a);
      assert (b - 1) * a == a * b - a;
    }
  }

  // ----- one round at a time -----

  /** What a half is reduced by in round j. */
  function Modulus(box: Box, j: nat): (n: nat)
    ensures n > 0
  {
    if j % 2 == 1 then box.a else box.b
  }

  /** The halves (L, R) as they stand before round j is undone. */
  predicate Before(box: Box, j: nat, s: (nat, nat)) {
    s.0 < Modulus(box, j + 1) && s.1 < Modulus(box, j)
  }

  function Undo(box: Box, j: nat, s: (nat, nat)): (nat, nat) {
    (SubMod(s.1, box.Mix(j, s.0), Modulus(box, j)), s.0)
  }

  function Redo(box: Box, j: nat, s: (nat, nat)): (nat, nat) {
    (s.1, AddMod(s.0, box.Mix(j, s.1), Modulus(box, j)))
  }

  /** Rounds j, j-1, ..., 1 undone. */
  function StepDown(box: Box, j: nat, s: (nat, nat)): (nat, nat) {
    if j == 0 then s else StepDown(box, j - 1, Undo(box, j, s))
  }

  function StepUp(box: Box, j: nat, s: (nat, nat)): (nat, nat) {
    if j == 0 then s else Redo(box, j, StepUp(box, j - 1, s))
  }

  function SwapOdd(box: Box, s: (nat, nat)): (nat, nat) {
    if box.rounds % 2 == 1 then (s.1, s.0) else s
  }

  /** What an index is decrypted to, whatever the round count, and its inverse. */
  function Decoded(box: Box, m: nat): nat {
    Join(box, StepDown(box, box.rounds, SwapOdd(box, Split(box, m))))
  }

  function Encoded(box: Box, m: nat): nat {
    Join(box, SwapOdd(box, StepUp(box, box.rounds, Split(box, m))))
  }

  lemma Parity(box: Box, j: nat)
    requires j > 0
    ensures Modulus(box, j + 1) == Modulus(box, j - 1)
  {
    assert (j + 1) % 2 == (j - 1) % 2;
  }

  lemma UndoThenRedo(box: Box, j: nat, s: (nat, nat))
    requires j > 0 && Before(box, j, s)
    ensures Before(box, j - 1, Undo(box, j, s)) && Redo(box, j, Undo(box, j, s)) == s
  {
    Parity(box, j);
    SubThenAdd(s.1, box.Mix(j, s.0), Modulus(box, j));
  }

  lemma RedoThenUndo(box: Box, j: nat, s: (nat, nat))
    requires j > 0 && Before(box, j - 1, s)
    ensures Before(box, j, Redo(box, j, s)) && Undo(box, j, Redo(box, j, s)) == s
  {
    Parity(box, j);
    SubThenAdd(s.0, box.Mix(j, s.1), Modulus(box, j));
  }

  lemma {:induction false} StepsInverse(box: Box, j: nat, s: (nat, nat))
    ensures Before(box, j, s) ==> Before(box, 0, StepDown(box, j, s)) && StepUp(box, j, StepDown(box, j, s)) == s
    ensures Before(box, 0, s) ==> Before(box, j, StepUp(box, j, s)) && StepDown(box, j, StepUp(box, j, s)) == s
    decreases j
  {
    if j > 0 {
      if Before(box, j, s) {
        UndoThenRedo(box, j, s);
        StepsInverse(box, j - 1, Undo(box, j, s));
      }
      if Before(box, 0, s) {
        StepsInverse(box, j - 1, s);
        RedoThenUndo(box, j, StepUp(box, j - 1, s));
      }
    }
  }

  lemma TwoRedos(box: Box, n: nat, s: (nat, nat))
    requires n > 0
    ensures Redo(box, 2 * n, Redo(box, 2 * n - 1, s)) == Fwd(box, n, s)
  {
    assert (2 * n) % 2 == 0 && (2 * n - 1) % 2 == 1;
  }

  lemma {:induction false} EvenStepsUp(box: Box, n: nat, s: (nat, nat))
    ensures StepUp(box, 2 * n, s) == FwdN(box, n, s)
    decreases n
  {
    if n > 0 {
      EvenStepsUp(box, n - 1, s);
      TwoRedos(box, n, FwdN(box, n - 1, s));
      assert StepUp(box, 2 * n - 1, s) == Redo(box, 2 * n - 1, StepUp(box, 2 * n - 2, s));
      assert StepUp(box, 2 * n, s) == Redo(box, 2 * n, StepUp(box, 2 * n - 1, s));
    }
  }

  /** The four maps of the box: by whole pairs of rounds or by the exact number of rounds,
      each in both directions. */
  datatype Direction = Pairwise | PairwiseBack | Roundwise | RoundwiseBack {
    function Opposite(): Direction {
      match this
      case Pairwise => PairwiseBack
      case PairwiseBack => Pairwise
      case Roundwise => RoundwiseBack
      case RoundwiseBack => Roundwise
    }
  }

  function Move(box: Box, dir: Direction, m: nat): nat {
    match dir
    case Pairwise => Scramble(box, m)
    case PairwiseBack => Unscramble(box, m)
    case Roundwise => Encoded(box, m)
    case RoundwiseBack => Decoded(box, m)
  }

  lemma ScrambleInverse(box: Box, m: nat)
    requires m < box.Size()
    ensures Scramble(box, m) < box.Size() && Unscramble(box, Scramble(box, m)) == m
    ensures Unscramble(box, m) < box.Size() && Scramble(box, Unscramble(box, m)) == m
  {
    var s, n := Split(box, m), Pairs(box);
    SplitJoin(box, m, FwdN(box, n, s));
    SplitJoin(box, m, BackN(box, n, s));
    HalvesInverse(box, n, s);
  }

  lemma DecodeInverse(box: Box, m: nat)
    requires m < box.Size()
    ensures Decoded(box, m) < box.Size() && Encoded(box, Decoded(box, m)) == m
  {
    var s := SwapOdd(box, Split(box, m));
    SplitJoin(box, m, s);
    StepsInverse(box, box.rounds, s);
    SplitJoin(box, m, StepDown(box, box.rounds, s));
  }

  lemma EncodeInverse(box: Box, m: nat)
    requires m < box.Size()
    ensures Encoded(box, m) < box.Size() && Decoded(box, Encoded(box, m)) == m
  {
    var s := Split(box, m);
    SplitJoin(box, m, s);
    StepsInverse(box, box.rounds, s);
    SplitJoin(box, m, SwapOdd(box, StepUp(box, box.rounds, s)));
  }

  /** Each of them is a bijection of the box, whatever the round count. */
  lemma {:induction false} MoveInverse(box: Box, dir: Direction, m: nat)
    requires m < box.Size()
    ensures Move(box, dir, m) < box.Size() && Move(box, dir.Opposite(), Move(box, dir, m)) == m
  {
    match dir
    case Pairwise => ScrambleInverse(box, m);
    case PairwiseBack => ScrambleInverse(box, m);
    case Roundwise => EncodeInverse(box, m);
    case RoundwiseBack => DecodeInverse(box, m);
  }

  // ----- cycle walking -----

  function Iter(box: Box, dir: Direction, k: nat, m: nat): nat {
    if k == 0 then m else Move(box, dir, Iter(box, dir, k - 1, m))
  }

  lemma {:induction false} IterInBox(box: Box, dir: Direction, k: nat, m: nat)
    requires m < box.Size()
    ensures Iter(box, dir, k, m) < box.Size()
    decreases k
  {
    if k > 0 {
      IterInBox(box, dir, k - 1, m);
      MoveInverse(box, dir, Iter(box, dir, k - 1, m));
    }
  }

  /** Equal iterates can be walked back to the start. */
  lemma {:induction false} Cancel(box: Box, dir: Direction, i: nat, k: nat, m: nat)
    requires m < box.Size() && Iter(box, dir, i, m) == Iter(box, dir, i + k, m)
    ensures Iter(box, dir, k, m) == m
    decreases i
  {
    if i > 0 {
      IterInBox(box, dir, i - 1, m);
      IterInBox(box, dir, i + k - 1, m);
      MoveInverse(box, dir, Iter(box, dir, i - 1, m));
      MoveInverse(box, dir, Iter(box, dir, i + k - 1, m));
      Cancel(box, dir, i - 1, k, m);
    }
  }

  /** Among more than n numbers below n two are equal. */
  lemma {:induction false} Pigeonhole(s: seq<nat>, n: nat) returns (i: nat, j: nat)
    requires |s| > n && forall k :: 0 <= k < |s| ==> s[k] < n
    ensures i < j < |s| && s[i] == s[j]
    decreases n
  {
    var last := |s| - 1;
    if k :| 0 <= k < last && s[k] == s[last] {
      return k, last;
    }
    // no other element equals the last one: rename n - 1 to it and drop it
    var t := seq(last, k requires 0 <= k < last => if s[k] == n - 1 then s[last] else s[k]);
    i, j := Pigeonhole(t, n - 1);
  }

  /** Every element comes back to itself. */
  lemma {:induction false} Returns(box: Box, dir: Direction, m: nat) returns (k: nat)
    requires m < box.Size()
    ensures k > 0 && Iter(box, dir, k, m) == m
  {
    var n := box.Size();
    var orbit := seq(n + 1, i requires 0 <= i <= n => Iter(box, dir, i, m));
    forall i | 0 <= i < |orbit| ensures orbit[i] < n {
      IterInBox(box, dir, i, m);
    }
    var i, j := Pigeonhole(orbit, n);
    Cancel(box, dir, i, j - i, m);
    k := j - i;
  }

  /** `k` steps lead from `m` for the first time back below `range`. */
  ghost predicate FirstBelow(box: Box, dir: Direction, range: nat, m: nat, k: nat) {
    && k > 0 && Iter(box, dir, k, m) < range
    && forall j :: 0 < j < k ==> Iter(box, dir, j, m) >= range
  }

  lemma {:induction false} FirstExists(box: Box, dir: Direction, range: nat, m: nat, bound: nat) returns (k: nat)
    requires bound > 0 && Iter(box, dir, bound, m) < range
    ensures FirstBelow(box, dir, range, m, k)
    decreases bound
  {
    if j :| 0 < j < bound && Iter(box, dir, j, m) < range {
      k := FirstExists(box, dir, range, m, j);
    } else {
      k := bound;
    }
  }

  /** The number of steps a walk takes. */
  ghost function Steps(box: Box, dir: Direction, range: nat, m: nat): (k: nat)
    requires m < range <= box.Size()
    ensures FirstBelow(box, dir, range, m, k)
  {
    assert exists k: nat :: FirstBelow(box, dir, range, m, k) by {
      var b := Returns(box, dir, m);
      var k := FirstExists(box, dir, range, m, b);
    }
    var k: nat :| FirstBelow(box, dir, range, m, k);
    k
  }

  /** Where a walk within the range ends. */
  ghost function Walk(box: Box, dir: Direction, range: nat, m: nat): (c: nat)
    requires m < range <= box.Size()
    ensures c < range
  {
    Iter(box, dir, Steps(box, dir, range, m), m)
  }

  /** Walking i steps back along a walk of k steps. */
  lemma {:induction false} Retrace(box: Box, dir: Direction, m: nat, k: nat, i: nat)
    requires m < box.Size() && i <= k
    ensures Iter(box, dir.Opposite(), i, Iter(box, dir, k, m)) == Iter(box, dir, k - i, m)
    decreases i
  {
    if i > 0 {
      Retrace(box, dir, m, k, i - 1);
      IterInBox(box, dir, k - i, m);
      MoveInverse(box, dir, Iter(box, dir, k - i, m));
    }
  }

  /** Walking is undone by walking in the other direction. */
  lemma {:induction false} WalkInverse(box: Box, dir: Direction, range: nat, m: nat)
    requires m < range <= box.Size()
    ensures Walk(box, dir.Opposite(), range, Walk(box, dir, range, m)) == m
  {
    var k := Steps(box, dir, range, m);
    var c := Walk(box, dir, range, m);
    var h := Steps(box, dir.Opposite(), range, c);
    Retrace(box, dir, m, k, k);
    if h < k {
      Retrace(box, dir, m, k, h);
    }
  }

  /** Some start within the range walks to `c`. */
  ghost predicate Reached(box: Box, dir: Direction, range: nat, c: nat)
    requires range <= box.Size()
  {
    exists m: nat :: m < range && Walk(box, dir, range, m) == c
  }

  /** Cycle walking is a permutation of [0, range): total, injective and onto. */
  lemma {:induction false} WalkIsPermutation(box: Box, dir: Direction, range: nat)
    requires range <= box.Size()
    ensures forall m, n :: 0 <= m < n < range ==> Walk(box, dir, range, m) != Walk(box, dir, range, n)
    ensures forall c :: 0 <= c < range ==> Reached(box, dir, range, c)
  {
    forall m, n | 0 <= m < n < range ensures Walk(box, dir, range, m) != Walk(box, dir, range, n) {
      WalkInverse(box, dir, range, m);
      WalkInverse(box, dir, range, n);
    }
    forall c | 0 <= c < range ensures Reached(box, dir, range, c) {
      var m := Walk(box, dir.Opposite(), range, c);
      WalkInverse(box, dir.Opposite(), range, c);
      assert Walk(box, dir, range, m) == c;
    }
  }

  /** The first return is unique. */
  lemma StepsAre(box: Box, dir: Direction, range: nat, m: nat, k: nat)
    requires m < range <= box.Size() && FirstBelow(box, dir, range, m, k)
    ensures Steps(box, dir, range, m) == k
  {
    var h := Steps(box, dir, range, m);
    assert !(h < k) && !(k < h);
  }

  /** A walk whose first step lands in the range takes one step. */
  lemma OneStep(box: Box, dir: Direction, range: nat, m: nat)
    requires m < range <= box.Size() && Move(box, dir, m) < range
    ensures Walk(box, dir, range, m) == Move(box, dir, m)
  {
    assert Iter(box, dir, 1, m) == Move(box, dir, Iter(box, dir, 0, m));
    StepsAre(box, dir, range, m, 1);
  }

  lemma TwoSteps(box: Box, dir: Direction, range: nat, m: nat)
    requires m < range <= box.Size() && Move(box, dir, m) >= range && Move(box, dir, Move(box, dir, m)) < range
    ensures Walk(box, dir, range, m) == Move(box, dir, Move(box, dir, m))
  {
    assert Iter(box, dir, 1, m) == Move(box, dir, Iter(box, dir, 0, m));
    assert Iter(box, dir, 2, m) == Move(box, dir, Iter(box, dir, 1, m));
    StepsAre(box, dir, range, m, 2);
  }

  lemma EndSides(box: Box, j: nat)
    ensures Modulus(box, j) == (if j % 2 == 1 then box.a else box.b)
    ensures Modulus(box, j + 1) == (if j % 2 == 1 then box.b else box.a)
  {
    assert (j + 1) % 2 == 1 - j % 2;
  }

  lemma EndHalves(box: Box, s: (nat, nat))
    requires Halves(box, s)
    ensures Halves(box, SwapOdd(box, StepUp(box, box.rounds, s)))
  {
    EndSides(box, 0);
    EndSides(box, box.rounds);
    StepsInverse(box, box.rounds, s);
  }

  // ----- the code that undoes the rounds -----

  /** The explicit modular subtraction. */
  method Subtract(t: nat, x: nat, n: nat) returns (r: nat)
    requires n > 0
    ensures r == SubMod(x, t, n)
  {
    if t > x {
      var d := t - x;
      r := n - d % n;
      assert d == (d / n) * n + d % n;
      if r == n {
        r := 0;
        DivModUnique(x - t, -(d / n), 0, n);
      } else {
        DivModUnique(x - t, -(d / n) - 1, r, n);
      }
    } else {
      r := (x - t) % n;
    }
  }

  /** The rounds on the two halves, from the last to the first. */
  method UndoAll(box: Box, l: nat, r: nat) returns (left: nat, right: nat)
    requires Before(box, box.rounds, (l, r))
    ensures (left, right) == StepDown(box, box.rounds, (l, r))
  {
    left, right := l, r;
    var j := box.rounds;
    while j >= 1
      invariant 0 <= j <= box.rounds
      invariant Before(box, j, (left, right))
      invariant StepDown(box, box.rounds, (l, r)) == StepDown(box, j, (left, right))
      decreases j
    {
      UndoThenRedo(box, j, (left, right));
      var tmp;
      if j % 2 == 1 {
        tmp := Subtract(box.Mix(j, left), right, box.a);
      } else {
        tmp := Subtract(box.Mix(j, left), right, box.b);
      }
      right, left := left, tmp;
      j := j - 1;
    }
  }

  /** DECRYPT and UNENCRYPT, for any round count. */
  method Decipher(box: Box, m: nat) returns (c: nat)
    requires m < box.Size()
    ensures c == Decoded(box, m) && c < box.Size()
  {
    DecodeStart(box, m);
    DecodeInverse(box, m);
    var halves := DivMod(m, box.a);
    var left, right := halves.0, halves.1;
    if box.rounds % 2 == 1 {
      right, left := halves.0, halves.1;
    }
    left, right := UndoAll(box, left, right);
    JoinCommutes(box, left, right);
    c := Glued(box.a, right, left);
  }

  function Glued(n: nat, high: nat, low: nat): nat {
    n * high + low
  }

  lemma DecodeStart(box: Box, m: nat)
    requires m < box.Size()
    ensures Before(box, box.rounds, SwapOdd(box, Split(box, m)))
  {
    SplitJoin(box, m, Split(box, m));
  }

  lemma JoinCommutes(box: Box, l: nat, r: nat)
    ensures Join(box, (l, r)) == Glued(box.a, r, l)
  {
  }
}
