/** When unshuffling undoes shuffling for BlackRock-2, whose ENCRYPT runs whole pairs of rounds
    while its DECRYPT undoes the exact number. */
module RoundTrips {
  import opened Words
  import opened Feistel

  /** Unshuffling undoes shuffling, and the other way round, on a whole range. */
  ghost predicate Undone(box: Box, range: nat)
    requires range <= box.Size()
  {
    forall m :: 0 <= m < range ==>
      && Walk(box, RoundwiseBack, range, Walk(box, Pairwise, range, m)) == m
      && Walk(box, Pairwise, range, Walk(box, RoundwiseBack, range, m)) == m
  }

  /** Shuffling by pairs and by the exact number of rounds end alike. */
  ghost predicate WalksAgree(box: Box, range: nat)
    requires range <= box.Size()
  {
    forall m :: 0 <= m < range ==> Walk(box, Pairwise, range, m) == Walk(box, Roundwise, range, m)
  }

  lemma UndoneWhenAgreed(box: Box, range: nat)
    requires range <= box.Size()
    ensures Undone(box, range) <==> WalksAgree(box, range)
  {
    if WalksAgree(box, range) {
      forall m | 0 <= m < range
        ensures Walk(box, RoundwiseBack, range, Walk(box, Pairwise, range, m)) == m
        ensures Walk(box, Pairwise, range, Walk(box, RoundwiseBack, range, m)) == m
      {
        WalkInverse(box, Roundwise, range, m);
        WalkInverse(box, RoundwiseBack, range, m);
      }
    }
    if Undone(box, range) {
      forall m | 0 <= m < range ensures Walk(box, Pairwise, range, m) == Walk(box, Roundwise, range, m) {
        var c := Walk(box, Roundwise, range, m);
        WalkInverse(box, Roundwise, range, m);
        assert Walk(box, Pairwise, range, Walk(box, RoundwiseBack, range, c)) == c;
      }
    }
  }

  // ----- the completing round -----

  /** The round that ENCRYPT adds to complete its last pair changes nothing. */
  predicate AddsNothing(box: Box, left: nat) {
    box.Mix(box.rounds + 1, left) % box.b == 0
  }

  ghost predicate NeverAdds(box: Box) {
    forall left :: 0 <= left < box.a ==> AddsNothing(box, left)
  }

  /** What that round does to an index. */
  function Completed(box: Box, y: nat): nat {
    var s := Split(box, y);
    Join(box, (s.0, AddMod(s.1, box.Mix(box.rounds + 1, s.0), box.b)))
  }

  lemma AddingZero(x: nat, t: nat, n: nat)
    requires x < n
    ensures AddMod(x, t, n) == x <==> t % n == 0
  {
    if t % n == 0 {
      assert t == (t / n) * n;
      ModShift(x, t / n, n);
      DivModUnique(x, 0, x, n);
    }
    if AddMod(x, t, n) == x {
      assert x + t == ((x + t) / n) * n + x;
      DivModUnique(t, (x + t) / n, 0, n);
    }
  }

  lemma CompletedFacts(box: Box, y: nat)
    requires y < box.Size()
    ensures Completed(box, y) < box.Size() && Split(box, Completed(box, y)).0 == Split(box, y).0
    ensures Completed(box, y) == y <==> AddsNothing(box, Split(box, y).0)
  {
    var s := Split(box, y);
    var c := (s.0, AddMod(s.1, box.Mix(box.rounds + 1, s.0), box.b));
    SplitJoin(box, y, s);
    SplitJoin(box, Completed(box, y), c);
    AddingZero(s.1, box.Mix(box.rounds + 1, s.0), box.b);
  }

  lemma EvenCounts(box: Box, m: nat)
    requires box.rounds % 2 == 0
    ensures Scramble(box, m) == Encoded(box, m)
  {
    EvenStepsUp(box, box.rounds / 2, Split(box, m));
    assert Pairs(box) == box.rounds / 2;
  }

  /** The halves after an odd number of rounds, and after one more. */
  lemma LastHalves(box: Box, n: nat, s: (nat, nat))
    requires n > 0 && box.rounds == 2 * n - 1 && Halves(box, s)
    ensures var g := SwapOdd(box, StepUp(box, box.rounds, s));
      && Halves(box, g)
      && FwdN(box, n, s) == (g.0, AddMod(g.1, box.Mix(2 * n, g.0), box.b))
  {
    EvenStepsUp(box, n, s);
    EndHalves(box, s);
    EndSides(box, 2 * n - 1);
    OneUp(box, 2 * n, s);
  }

  lemma OneUp(box: Box, j: nat, s: (nat, nat))
    requires j > 0
    ensures StepUp(box, j, s) == Redo(box, j, StepUp(box, j - 1, s))
  {
  }

  lemma OddCounts(box: Box, m: nat)
    requires box.rounds % 2 == 1 && m < box.Size()
    ensures Encoded(box, m) < box.Size() && Scramble(box, m) == Completed(box, Encoded(box, m))
    ensures Split(box, Encoded(box, m)).0 == FwdN(box, Pairs(box), Split(box, m)).0
  {
    var n, s := Pairs(box), Split(box, m);
    SplitJoin(box, m, s);
    LastHalves(box, n, s);
    SplitJoin(box, m, SwapOdd(box, StepUp(box, box.rounds, s)));
  }

  /** For an even round count DECRYPT inverts ENCRYPT. */
  lemma {:induction false} EvenDecoded(box: Box, m: nat)
    requires m < box.Size() && box.rounds % 2 == 0
    ensures Decoded(box, m) == Unscramble(box, m)
  {
    var x := Unscramble(box, m);
    ScrambleInverse(box, m);
    EvenCounts(box, x);
    MoveInverse(box, Roundwise, x);
  }

  /** DECRYPT gives an encrypted index back exactly when both encryptions agree on it. */
  lemma DecodedScramble(box: Box, m: nat)
    requires m < box.Size()
    ensures Decoded(box, Scramble(box, m)) == m <==> Scramble(box, m) == Encoded(box, m)
  {
    ScrambleInverse(box, m);
    MoveInverse(box, Roundwise, m);
    MoveInverse(box, RoundwiseBack, Scramble(box, m));
  }

  /** For an odd round count, and any round function, DECRYPT gives back an encrypted index
      exactly when the added round was without effect on it. */
  lemma {:induction false} OddDecoded(box: Box, m: nat)
    requires box.rounds % 2 == 1 && m < box.Size()
    ensures Decoded(box, Scramble(box, m)) == m <==> AddsNothing(box, FwdN(box, Pairs(box), Split(box, m)).0)
  {
    DecodedScramble(box, m);
    OddCounts(box, m);
    CompletedFacts(box, Encoded(box, m));
  }

  /** On the whole box DECRYPT undoes ENCRYPT exactly when the round count is even, or the
      round that completes an odd count has no effect on any left half. */
  lemma {:induction false} BoxRoundTripsExactly(box: Box)
    ensures (forall m :: 0 <= m < box.Size() ==> Decoded(box, Scramble(box, m)) == m)
       <==> box.rounds % 2 == 0 || NeverAdds(box)
  {
    forall m | 0 <= m < box.Size() && (box.rounds % 2 == 0 || NeverAdds(box))
      ensures Decoded(box, Scramble(box, m)) == m
    {
      MapsAgree(box, m);
      DecodedScramble(box, m);
    }
    if box.rounds % 2 == 1 && !NeverAdds(box) {
      var left: nat :| left < box.a && !AddsNothing(box, left);
      var m := Decoded(box, Join(box, (left, 0)));
      InColumn(box, left, 0);
      DecodedScramble(box, m);
    }
  }

  lemma MapsAgree(box: Box, m: nat)
    requires m < box.Size() && (box.rounds % 2 == 0 || NeverAdds(box))
    ensures Scramble(box, m) == Encoded(box, m)
  {
    if box.rounds % 2 == 0 {
      EvenCounts(box, m);
    } else {
      OddCounts(box, m);
      SplitJoin(box, Encoded(box, m), (0, 0));
      CompletedFacts(box, Encoded(box, m));
    }
  }

  /** An index whose left half the added round changes: what encrypts to it by the exact number
      of rounds encrypts to another one by pairs. */
  lemma InColumn(box: Box, left: nat, right: nat)
    requires box.rounds % 2 == 1 && left < box.a && right < box.b
    ensures var y := Join(box, (left, right));
      var m := Decoded(box, y);
      && y < box.Size() && Split(box, y) == (left, right)
      && m < box.Size() && Encoded(box, m) == y && Scramble(box, m) == Completed(box, y)
      && (Completed(box, y) == y <==> AddsNothing(box, left))
  {
    var y := Join(box, (left, right));
    SplitJoin(box, 0, (left, right));
    MoveInverse(box, RoundwiseBack, y);
    OddCounts(box, Decoded(box, y));
    CompletedFacts(box, y);
  }

  // ----- ranges below the size of the box -----

  lemma {:induction false} AgreeIter(box: Box, k: nat, m: nat)
    requires m < box.Size() && (box.rounds % 2 == 0 || NeverAdds(box))
    ensures Iter(box, Pairwise, k, m) == Iter(box, Roundwise, k, m)
    decreases k
  {
    if k > 0 {
      AgreeIter(box, k - 1, m);
      IterInBox(box, Pairwise, k - 1, m);
      MapsAgree(box, Iter(box, Pairwise, k - 1, m));
    }
  }

  lemma {:induction false} AllAgree(box: Box, range: nat)
    requires range <= box.Size() && (box.rounds % 2 == 0 || NeverAdds(box))
    ensures WalksAgree(box, range)
  {
    forall m | 0 <= m < range ensures Walk(box, Pairwise, range, m) == Walk(box, Roundwise, range, m) {
      var h, k := Steps(box, Pairwise, range, m), Steps(box, Roundwise, range, m);
      AgreeIter(box, h, m);
      AgreeIter(box, k, m);
      forall j: nat ensures Iter(box, Pairwise, j, m) == Iter(box, Roundwise, j, m) {
        AgreeIter(box, j, m);
      }
      StepsAre(box, Pairwise, range, m, k);
    }
  }

  lemma {:induction false} EvenRoundTrips(box: Box, range: nat)
    requires range <= box.Size() && box.rounds % 2 == 0
    ensures Undone(box, range)
  {
    AllAgree(box, range);
    UndoneWhenAgreed(box, range);
  }

  /** The largest index of the box. */
  function Top(box: Box): nat {
    Join(box, (box.a - 1, box.b - 1))
  }

  lemma TopFacts(box: Box)
    ensures Top(box) == box.Size() - 1 && Split(box, Top(box)) == (box.a - 1, box.b - 1)
  {
    SplitJoin(box, 0, (box.a - 1, box.b - 1));
  }

  /** The walks of the range that leaves out the top agree: what encrypts to a changed index is
      then the top, or one of the two encryptions is. */
  lemma ChangedMeetsTop(box: Box, left: nat, right: nat)
    requires box.rounds % 2 == 1 && left < box.a && right < box.b && !AddsNothing(box, left)
    requires WalksAgree(box, Top(box))
    ensures var y := Join(box, (left, right));
      y == Top(box) || Completed(box, y) == Top(box) || Decoded(box, y) == Top(box)
  {
    var y := Join(box, (left, right));
    TopFacts(box);
    InColumn(box, left, right);
    CompletedFacts(box, y);
    var m := Decoded(box, y);
    if y != Top(box) && Completed(box, y) != Top(box) && m != Top(box) {
      OneStep(box, Pairwise, Top(box), m);
      OneStep(box, Roundwise, Top(box), m);
      assert false;
    }
  }

  /** No two indices are completed alike. */
  lemma CompletedInjective(box: Box, left: nat, r1: nat, r2: nat)
    requires left < box.a && r1 < box.b && r2 < box.b
    requires Completed(box, Join(box, (left, r1))) == Completed(box, Join(box, (left, r2)))
    ensures r1 == r2
  {
    var t := box.Mix(box.rounds + 1, left);
    SplitJoin(box, 0, (left, r1));
    SplitJoin(box, 0, (left, r2));
    SubThenAdd(r1, t, box.b);
    SubThenAdd(r2, t, box.b);
    SplitJoin(box, 0, (left, AddMod(r1, t, box.b)));
    SplitJoin(box, 0, (left, AddMod(r2, t, box.b)));
  }

  /** Which of the three ways right half r goes. */
  function Way(box: Box, left: nat, r: nat): (w: nat)
    ensures w < 3
  {
    var y := Join(box, (left, r));
    if y == Top(box) then 0 else if Completed(box, y) == Top(box) then 1 else 2
  }

  lemma WaysDiffer(box: Box, left: nat, r1: nat, r2: nat)
    requires box.rounds % 2 == 1 && left < box.a && r1 < r2 < box.b && !AddsNothing(box, left)
    requires WalksAgree(box, Top(box))
    ensures Way(box, left, r1) != Way(box, left, r2)
  {
    ChangedMeetsTop(box, left, r1);
    ChangedMeetsTop(box, left, r2);
    InColumn(box, left, r1);
    InColumn(box, left, r2);
    if Way(box, left, r1) == Way(box, left, r2) == 1 {
      CompletedInjective(box, left, r1, r2);
    }
  }

  /** So a changed column has three rows at most. */
  lemma FewRows(box: Box, left: nat)
    requires box.rounds % 2 == 1 && left < box.a && !AddsNothing(box, left)
    requires WalksAgree(box, Top(box))
    ensures box.b <= 3
  {
    if box.b >= 4 {
      WaysDiffer(box, left, 0, 1);
      WaysDiffer(box, left, 0, 2);
      WaysDiffer(box, left, 0, 3);
      WaysDiffer(box, left, 1, 2);
      WaysDiffer(box, left, 1, 3);
      WaysDiffer(box, left, 2, 3);
      assert false;
    }
  }

  // ----- boxes of two rows -----

  /** Two rows, only the last column changes, and the top stays in it: then one of the two
      encryptions makes a detour over the top where the other one does not. */
  ghost predicate Detours(box: Box) {
    && box.b == 2
    && (forall left :: 0 <= left < box.a - 1 ==> AddsNothing(box, left))
    && FwdN(box, Pairs(box), Split(box, Top(box))).0 == box.a - 1
  }

  lemma OneColumn(box: Box, left: nat)
    requires box.rounds % 2 == 1 && box.b == 2 && left < box.a - 1
    requires WalksAgree(box, Top(box))
    ensures AddsNothing(box, left)
  {
    if !AddsNothing(box, left) {
      TopFacts(box);
      WaysDiffer(box, left, 0, 1);
      InColumn(box, left, 0);
      InColumn(box, left, 1);
      CompletedFacts(box, Join(box, (left, 0)));
      CompletedFacts(box, Join(box, (left, 1)));
      assert false;
    }
  }

  /** The last column of two rows, its ends swapped. */
  lemma LastColumn(box: Box, y: nat)
    requires box.rounds % 2 == 1 && box.b == 2 && !AddsNothing(box, box.a - 1)
    requires y < box.Size() && Split(box, y).0 == box.a - 1
    ensures var low := Join(box, (box.a - 1, 0));
      && low < Top(box) < box.Size() && Split(box, low).0 == box.a - 1
      && (y == Top(box) || y == low) && Completed(box, y) == if y == low then Top(box) else low
  {
    var low, s := Join(box, (box.a - 1, 0)), Split(box, y);
    TopFacts(box);
    SplitJoin(box, y, (box.a - 1, 0));
    SplitJoin(box, y, (box.a - 1, 1));
    CompletedFacts(box, y);
    var c := Split(box, Completed(box, y));
    SplitJoin(box, Completed(box, y), c);
    assert low != Top(box);
  }

  lemma TopStays(box: Box)
    requires box.rounds % 2 == 1 && box.b == 2 && !AddsNothing(box, box.a - 1)
    requires WalksAgree(box, Top(box))
    ensures Split(box, Encoded(box, Top(box))).0 == box.a - 1
  {
    var top := Top(box);
    TopFacts(box);
    LastColumn(box, top);
    OddCounts(box, top);
    var z, m := Encoded(box, top), Decoded(box, top);
    MoveInverse(box, RoundwiseBack, top);
    OddCounts(box, m);
    if Split(box, z).0 != box.a - 1 {
      assert z != top && m != top;
      OneStep(box, Pairwise, top, m);
      TwoSteps(box, Roundwise, top, m);
      assert false;
    }
  }

  lemma DetourNeeded(box: Box)
    requires box.rounds % 2 == 1 && box.b == 2 && !NeverAdds(box)
    requires WalksAgree(box, Top(box))
    ensures Detours(box)
  {
    forall left | 0 <= left < box.a - 1 ensures AddsNothing(box, left) {
      OneColumn(box, left);
    }
    TopFacts(box);
    TopStays(box);
    OddCounts(box, Top(box));
  }

  /** `slow` goes from `source` over `via` to `goal` where `fast` goes straight and leaves `via`
      alone; otherwise they are the same. */
  ghost predicate Detour(box: Box, slow: Direction, fast: Direction, via: nat, source: nat, goal: nat) {
    && Move(box, fast, via) == via && Move(box, fast, source) == goal
    && Move(box, slow, source) == via && Move(box, slow, via) == goal
    && forall z :: 0 <= z < box.Size() && z != via && z != source ==> Move(box, slow, z) == Move(box, fast, z)
  }

  lemma {:induction false} Avoids(box: Box, dir: Direction, via: nat, k: nat, m: nat)
    requires via < box.Size() && m < box.Size() && m != via && Move(box, dir, via) == via
    ensures Iter(box, dir, k, m) != via
    decreases k
  {
    if k > 0 {
      Avoids(box, dir, via, k - 1, m);
      IterInBox(box, dir, k - 1, m);
      MoveInverse(box, dir, Iter(box, dir, k - 1, m));
      MoveInverse(box, dir, via);
    }
  }

  /** One step of the fast walk is one or two of the slow one. */
  lemma OneOrTwo(box: Box, slow: Direction, fast: Direction, via: nat, source: nat, goal: nat, m: nat, g: nat, k: nat)
    returns (h: nat)
    requires m < box.Size() && via < box.Size() && m != via && Detour(box, slow, fast, via, source, goal)
    requires Iter(box, slow, g, m) == Iter(box, fast, k, m)
    ensures h == g + 1 || (h == g + 2 && Iter(box, slow, g + 1, m) == via)
    ensures Iter(box, slow, h, m) == Iter(box, fast, k + 1, m)
  {
    var z := Iter(box, fast, k, m);
    IterInBox(box, fast, k, m);
    Avoids(box, fast, via, k, m);
    h := if z == source then g + 2 else g + 1;
  }

  /** All steps between the first and the k-th are out of the range. */
  ghost predicate Outside(box: Box, dir: Direction, range: nat, m: nat, k: nat) {
    forall j :: 0 < j < k ==> Iter(box, dir, j, m) >= range
  }

  /** The slow walk reaches whatever the fast one reaches, and stays out of the range as long. */
  lemma {:induction false} Follow(box: Box, slow: Direction, fast: Direction, via: nat, source: nat, goal: nat,
                                  range: nat, m: nat, k: nat) returns (h: nat)
    requires m < range <= via < box.Size() && Detour(box, slow, fast, via, source, goal)
    requires Outside(box, fast, range, m, k)
    ensures Iter(box, slow, h, m) == Iter(box, fast, k, m) && (k > 0 <==> h > 0)
    ensures Outside(box, slow, range, m, h)
    decreases k
  {
    h := 0;
    if k > 0 {
      var g := Follow(box, slow, fast, via, source, goal, range, m, k - 1);
      h := OneOrTwo(box, slow, fast, via, source, goal, m, g, k - 1);
      StillOutside(box, slow, range, m, g, h);
    }
  }

  lemma StillOutside(box: Box, dir: Direction, range: nat, m: nat, g: nat, h: nat)
    requires Outside(box, dir, range, m, g) && (g > 0 ==> Iter(box, dir, g, m) >= range)
    requires h == g + 1 || (h == g + 2 && Iter(box, dir, g + 1, m) >= range)
    ensures Outside(box, dir, range, m, h)
  {
  }

  lemma DetourWalk(box: Box, slow: Direction, fast: Direction, via: nat, source: nat, goal: nat, range: nat, m: nat)
    requires m < range <= via < box.Size() && Detour(box, slow, fast, via, source, goal)
    ensures Walk(box, slow, range, m) == Walk(box, fast, range, m)
  {
    var k := Steps(box, fast, range, m);
    var h := Follow(box, slow, fast, via, source, goal, range, m, k);
    StepsAre(box, slow, range, m, h);
  }

  /** An index that encrypts elsewhere than into the last column encrypts alike both ways. */
  lemma OtherColumns(box: Box, z: nat)
    requires box.rounds % 2 == 1 && Detours(box) && z < box.Size()
    requires Split(box, Encoded(box, z)).0 != box.a - 1
    ensures Scramble(box, z) == Encoded(box, z)
  {
    OddCounts(box, z);
    CompletedFacts(box, Encoded(box, z));
    SplitJoin(box, Encoded(box, z), (0, 0));
  }

  /** The detour goes from the index that encrypts, by the exact number of rounds, to the end of
      the last column that the top does not encrypt to. */
  lemma FindDetour(box: Box) returns (slow: Direction, fast: Direction, source: nat, goal: nat)
    requires box.rounds % 2 == 1 && Detours(box) && !AddsNothing(box, box.a - 1)
    ensures (slow == Pairwise && fast == Roundwise) || (slow == Roundwise && fast == Pairwise)
    ensures Detour(box, slow, fast, Top(box), source, goal)
  {
    var top := Top(box);
    TopFacts(box);
    LastColumn(box, top);
    OddCounts(box, top);
    var g := Encoded(box, top);
    LastColumn(box, g);
    goal := Join(box, (box.a - 1, 0));
    LastColumn(box, goal);
    if g == top {
      slow, fast := Pairwise, Roundwise;
      source := Decoded(box, goal);
      MoveInverse(box, RoundwiseBack, goal);
    } else {
      slow, fast := Roundwise, Pairwise;
      source := Decoded(box, top);
      MoveInverse(box, RoundwiseBack, top);
    }
    OddCounts(box, source);
    forall z | 0 <= z < box.Size() && z != top && z != source ensures Move(box, slow, z) == Move(box, fast, z) {
      MoveInverse(box, Roundwise, z);
      MoveInverse(box, Roundwise, top);
      MoveInverse(box, Roundwise, source);
      if Split(box, Encoded(box, z)).0 == box.a - 1 {
        LastColumn(box, Encoded(box, z));
        assert false;
      }
      OtherColumns(box, z);
    }
  }

  lemma DetourSuffices(box: Box, range: nat)
    requires box.rounds % 2 == 1 && Detours(box) && range <= Top(box)
    ensures range <= box.Size() && WalksAgree(box, range)
  {
    TopFacts(box);
    if AddsNothing(box, box.a - 1) {
      AllAgree(box, range);
    } else {
      var slow, fast, source, goal := FindDetour(box);
      forall m | 0 <= m < range ensures Walk(box, Pairwise, range, m) == Walk(box, Roundwise, range, m) {
        DetourWalk(box, slow, fast, Top(box), source, goal, range, m);
      }
    }
  }

  // ----- exactly when -----

  /** ENCRYPT and DECRYPT fit together: an even count, an added round without effect, or, in a
      box of two rows, a detour that no range below the size of the box sees. */
  ghost predicate Fits(box: Box) {
    box.rounds % 2 == 0 || NeverAdds(box) || Detours(box)
  }

  lemma FitsSuffices(box: Box, range: nat)
    requires Fits(box) && range < box.Size()
    ensures Undone(box, range)
  {
    TopFacts(box);
    if box.rounds % 2 == 0 || NeverAdds(box) {
      AllAgree(box, range);
    } else {
      DetourSuffices(box, range);
    }
    UndoneWhenAgreed(box, range);
  }

  /** The largest range below the size of a power-of-two box round-trips exactly then. */
  lemma {:induction false} TopRangeExactly(box: Box, bBits: nat)
    requires box.b == Pow2(bBits)
    ensures Undone(box, box.Size() - 1) <==> Fits(box)
  {
    TopFacts(box);
    if Fits(box) {
      FitsSuffices(box, box.Size() - 1);
    }
    if Undone(box, box.Size() - 1) && !Fits(box) {
      UndoneWhenAgreed(box, Top(box));
      var left: nat :| left < box.a && !AddsNothing(box, left);
      FewRows(box, left);
      SmallPower(bBits);
      assert box.b == 2;
      DetourNeeded(box);
    }
  }

  lemma SmallPower(k: nat)
    ensures Pow2(k) == 1 || Pow2(k) == 2 || Pow2(k) >= 4
  {
    if k >= 2 {
      Pow2Monotone(2, k);
    }
  }

  /** And so do all ranges below its size together. */
  lemma {:induction false} RangesRoundTripExactly(box: Box, bBits: nat)
    requires box.b == Pow2(bBits)
    ensures (forall range: nat :: range < box.Size() ==> Undone(box, range)) <==> Fits(box)
  {
    TopRangeExactly(box, bBits);
    if Fits(box) {
      forall range: nat | range < box.Size() ensures Undone(box, range) {
        FitsSuffices(box, range);
      }
    } else {
      var range: nat := box.Size() - 1;
      assert !Undone(box, range);
    }
  }

  /** A box of two rows with one round, where only the added round is not 0, and only for 1. */
  function Small(): Box {
    Box(2, 2, 0, 1, (j, r, seed) => if j == 2 && r == 1 then 1 else 0)
  }

  lemma SmallDetours()
    ensures !NeverAdds(Small()) && Detours(Small())
  {
    var box := Small();
    assert box.Mix(2, 1) == 1 && box.Mix(2, 0) == 0 && box.Mix(1, 1) == 0;
    assert !AddsNothing(box, 1) && AddsNothing(box, 0);
    TopFacts(box);
    assert Pairs(box) == 1 && FwdN(box, 0, (1, 1)) == (1, 1);
    assert Fwd(box, 1, (1, 1)).0 == 1;
  }

  /** There the detour happens: the count is odd and the added round changes something, yet
      every range below the size of the box round-trips, though the whole box does not. */
  lemma {:induction false} DetourHappens()
    ensures Small().rounds % 2 == 1 && !NeverAdds(Small())
    ensures forall range: nat :: range < Small().Size() ==> Undone(Small(), range)
    ensures !Undone(Small(), Small().Size())
  {
    SmallDetours();
    forall range: nat | range < Small().Size() ensures Undone(Small(), range) {
      FitsSuffices(Small(), range);
    }
    BoxRoundTripsExactly(Small());
    var m: nat :| m < Small().Size() && Decoded(Small(), Scramble(Small(), m)) != m;
    WholeBoxFails(Small(), m);
  }

  lemma WholeBoxFails(box: Box, m: nat)
    requires m < box.Size() && Decoded(box, Scramble(box, m)) != m
    ensures !Undone(box, box.Size())
  {
    var c := Scramble(box, m);
    ScrambleInverse(box, m);
    MoveInverse(box, RoundwiseBack, c);
    OneStep(box, Pairwise, box.Size(), m);
    OneStep(box, RoundwiseBack, box.Size(), c);
  }

  /** A box of one column and four rows, where the added round of the count adds 1. */
  function Spike(rounds: nat): Box {
    Box(1, 4, 0, rounds, (j, r, seed) => if j == rounds + 1 then 1 else 0)
  }

  lemma SpikeAdds(rounds: nat)
    requires rounds % 2 == 1
    ensures !Fits(Spike(rounds))
  {
    var box := Spike(rounds);
    assert box.Mix(rounds + 1, 0) == 1;
    assert !AddsNothing(box, 0);
  }

  /** The round trip holds for all networks of a round count exactly when it is even. */
  lemma {:induction false} RoundTripExactlyWhenEven(rounds: nat)
    ensures rounds % 2 == 0 <==>
      forall box: Box, range: nat :: box.rounds == rounds && range <= box.Size() ==> Undone(box, range)
  {
    if rounds % 2 == 0 {
      forall box: Box, range: nat | box.rounds == rounds && range <= box.Size() ensures Undone(box, range) {
        EvenRoundTrips(box, range);
      }
    } else {
      SpikeAdds(rounds);
      TopRangeExactly(Spike(rounds), 2);
      assert !Undone(Spike(rounds), 3);
    }
  }
}
