/** The order in which a scan visits its targets: an index over all (address, port) pairs,
    shifted by the rate, shuffled, and split into address and port. */
module HostScan {
  import opened Words
  import opened Feistel
  import BlackRock1

  datatype Task = Task(countIpv4: nat, countIpv6: nat, ports: nat, rate: nat)

  datatype Pick = Ipv6(address: nat, port: nat) | Ipv4(address: nat, port: nat)

  function Times(a: nat, b: nat): nat {
    a * b
  }

  function RangeIpv6(t: Task): nat {
    Times(t.countIpv6, t.ports)
  }

  function Range(t: Task): nat {
    Times(t.countIpv4, t.ports) + Times(t.countIpv6, t.ports)
  }

  /** Indices that one pass runs through: the IPv6 pairs are counted twice. */
  function Total(t: Task): nat {
    Range(t) + RangeIpv6(t)
  }

  predicate InBounds(t: Task, p: Pick) {
    p.port < t.ports && p.address < if p.Ipv6? then t.countIpv6 else t.countIpv4
  }

  /** The target an index stands for. */
  function PickOf(t: Task, x: nat): Pick
    requires x < Range(t)
  {
    if x < RangeIpv6(t) then
      PickSome(t.countIpv6, t.ports, x);
      Ipv6(Rem(x, t.countIpv6), Quot(x, t.countIpv6))
    else
      var y := x - RangeIpv6(t);
      PickSome(t.countIpv4, t.ports, y);
      Ipv4(Rem(y, t.countIpv4), Quot(y, t.countIpv4))
  }

  function IndexOf(t: Task, p: Pick): nat {
    match p
    case Ipv6(a, b) => a + Times(t.countIpv6, b)
    case Ipv4(a, b) => RangeIpv6(t) + a + Times(t.countIpv4, b)
  }

  lemma PickSome(count: nat, ports: nat, x: nat)
    requires x < Times(count, ports)
    ensures count > 0
  {
    assert count == 0 ==> Times(count, ports) == 0;
  }

  /** Splitting an index below count * ports. */
  lemma SplitIndex(count: nat, ports: nat, x: nat)
    requires count > 0 && x < Times(count, ports)
    ensures Rem(x, count) < count && Quot(x, count) < ports
    ensures Rem(x, count) + Times(count, Quot(x, count)) == x
  {
    var q := Quot(x, count);
    assert x == count * q + Rem(x, count);
    if ports <= q {
      MulMono(ports, q, count);
    }
  }

  lemma JoinIndex(count: nat, ports: nat, a: nat, b: nat)
    requires a < count && b < ports
    ensures a + Times(count, b) < Times(count, ports)
    ensures Rem(a + Times(count, b), count) == a && Quot(a + Times(count, b), count) == b
  {
    MulMono(b + 1, ports, count);
    assert (b + 1) * count == count * b + count;
    DivModUnique(a + count * b, b, a, count);
  }

  lemma PickInBounds(t: Task, x: nat)
    requires x < Range(t)
    ensures InBounds(t, PickOf(t, x)) && IndexOf(t, PickOf(t, x)) == x
  {
    if x < RangeIpv6(t) {
      PickSome(t.countIpv6, t.ports, x);
      SplitIndex(t.countIpv6, t.ports, x);
    } else {
      PickSome(t.countIpv4, t.ports, x - RangeIpv6(t));
      SplitIndex(t.countIpv4, t.ports, x - RangeIpv6(t));
    }
  }

  lemma IndexPicks(t: Task, p: Pick)
    requires InBounds(t, p)
    ensures IndexOf(t, p) < Range(t) && PickOf(t, IndexOf(t, p)) == p
  {
    JoinIndex(if p.Ipv6? then t.countIpv6 else t.countIpv4, t.ports, p.address, p.port);
  }

  // ----- one pass -----

  /** f permutes [0, range), and g undoes it. */
  ghost predicate Shuffles(f: nat -> nat, g: nat -> nat, range: nat) {
    forall x :: 0 <= x < range ==> f(x) < range && g(x) < range && g(f(x)) == x && f(g(x)) == x
  }

  /** The pair probed at step i. */
  function Picked(t: Task, f: nat -> nat, i: nat): Pick
    requires Range(t) > 0 && forall x :: 0 <= x < Range(t) ==> f(x) < Range(t)
  {
    PickOf(t, f(Rem(i + t.rate, Range(t))))
  }

  /** In plain numbers: the step plus the rate, modulo the range, is shuffled; what comes out is
      an IPv6 pair if it is below their count, else what is left is an IPv4 pair; addresses vary
      fastest. */
  lemma {:induction false} PickedIs(t: Task, f: nat -> nat, i: nat, x: nat)
    requires t.countIpv4 * t.ports + t.countIpv6 * t.ports > 0
    requires forall x :: 0 <= x < Range(t) ==> f(x) < Range(t)
    requires x == f((i + t.rate) % (t.countIpv4 * t.ports + t.countIpv6 * t.ports))
    ensures var n := t.countIpv6 * t.ports; x < n ==>
      t.countIpv6 > 0 && Picked(t, f, i) == Ipv6(x % t.countIpv6, x / t.countIpv6)
    ensures var n := t.countIpv6 * t.ports; x >= n ==>
      t.countIpv4 > 0 && Picked(t, f, i) == Ipv4((x - n) % t.countIpv4, (x - n) / t.countIpv4)
  {
    var n := RangeIpv6(t);
    if x < n {
      PickSome(t.countIpv6, t.ports, x);
    } else {
      PickSome(t.countIpv4, t.ports, x - n);
    }
  }

  /** The first step that probes p. */
  ghost function Home(t: Task, g: nat -> nat, p: Pick): nat
    requires InBounds(t, p) && forall x :: 0 <= x < Range(t) ==> g(x) < Range(t)
  {
    IndexPicks(t, p);
    Rem(g(IndexOf(t, p)) + Range(t) - Rem(t.rate, Range(t)), Range(t))
  }

  /** Shifting by the rate and shifting back, modulo the range. */
  lemma ShiftBack(i: nat, rate: nat, n: nat, x: nat)
    requires n > 0 && x < n
    ensures var h := Rem(x + n - Rem(rate, n), n);
      h < n && (Rem(i + rate, n) == x <==> Rem(i, n) == h)
  {
    var r, h := Rem(rate, n), Rem(x + n - Rem(rate, n), n);
    assert r < n;
    SumRem(i, rate, n);
    var k := Rem(i, n);
    assert k < n;
    Wrap(k + r, n);
    Wrap(x + n - r, n);
  }

  lemma Wrap(s: nat, n: nat)
    requires n > 0 && s < 2 * n
    ensures Rem(s, n) == if s < n then s else s - n
  {
    DivModUnique(s, if s < n then 0 else 1, if s < n then s else s - n, n);
  }

  lemma SumRem(i: nat, rate: nat, n: nat)
    requires n > 0
    ensures Rem(i + rate, n) == Rem(Rem(i, n) + Rem(rate, n), n)
  {
    var a, b := Quot(i, n) + Quot(rate, n), Rem(i, n) + Rem(rate, n);
    assert i == Quot(i, n) * n + Rem(i, n);
    assert rate == Quot(rate, n) * n + Rem(rate, n);
    assert a * n == Quot(i, n) * n + Quot(rate, n) * n;
    ModShift(b, a, n);
  }

  /** A pair is probed at its home step, and once more a full range later if the pass is
      still running then. */
  lemma {:induction false} PickedWhen(t: Task, f: nat -> nat, g: nat -> nat, p: Pick, i: nat)
    requires InBounds(t, p) && Range(t) > 0 && Shuffles(f, g, Range(t)) && i < Total(t)
    ensures Home(t, g, p) < Range(t)
    ensures Picked(t, f, i) == p <==> i == Home(t, g, p) || i == Home(t, g, p) + Range(t)
  {
    var n := Range(t);
    var j := Rem(i + t.rate, n);
    assert j < n;
    IndexPicks(t, p);
    PickInBounds(t, f(j));
    assert Picked(t, f, i) == p <==> j == g(IndexOf(t, p));
    ShiftBack(i, t.rate, n, g(IndexOf(t, p)));
    Wrap(i, n);
  }

  /** The steps at which a pair is probed. */
  ghost function Hits(t: Task, f: nat -> nat, p: Pick): set<nat>
    requires Range(t) > 0 && forall x :: 0 <= x < Range(t) ==> f(x) < Range(t)
  {
    set i: nat | i < Total(t) && Picked(t, f, i) == p
  }

  /** Whatever the rate: every pair is probed once or twice, twice exactly when its home
      step is among the first RangeIpv6 steps; all picks are in bounds. */
  lemma {:induction false} EveryPairCovered(t: Task, f: nat -> nat, g: nat -> nat, p: Pick)
    requires InBounds(t, p) && Range(t) > 0 && Shuffles(f, g, Range(t))
    ensures |Hits(t, f, p)| == if Home(t, g, p) < RangeIpv6(t) then 2 else 1
  {
    var h, n := Home(t, g, p), Range(t);
    forall i: nat | i < Total(t) ensures Picked(t, f, i) == p <==> i == h || i == h + n {
      PickedWhen(t, f, g, p, i);
    }
    PickedWhen(t, f, g, p, 0);
    if h < RangeIpv6(t) {
      assert Hits(t, f, p) == {h, h + n};
    } else {
      assert Hits(t, f, p) == {h};
    }
  }

  lemma {:induction false} AllPicksInBounds(t: Task, f: nat -> nat, g: nat -> nat, i: nat)
    requires Range(t) > 0 && Shuffles(f, g, Range(t))
    ensures InBounds(t, Picked(t, f, i))
  {
    assert Rem(i + t.rate, Range(t)) < Range(t);
    PickInBounds(t, f(Rem(i + t.rate, Range(t))));
  }

  /** Every pair is probed exactly once if and only if there is no IPv6 target. */
  lemma {:induction false} OnceExactlyWithoutIpv6(t: Task, f: nat -> nat, g: nat -> nat)
    requires Range(t) > 0 && Shuffles(f, g, Range(t))
    ensures (forall p :: InBounds(t, p) ==> |Hits(t, f, p)| == 1) <==> t.countIpv6 == 0
  {
    var p := Picked(t, f, 0);
    AllPicksInBounds(t, f, g, 0);
    PickedWhen(t, f, g, p, 0);
    EveryPairCovered(t, f, g, p);
    if t.countIpv6 == 0 {
      assert RangeIpv6(t) == 0;
      forall q | InBounds(t, q) ensures |Hits(t, f, q)| == 1 {
        EveryPairCovered(t, f, g, q);
      }
    } else {
      PositiveTimes(t);
      assert Home(t, g, p) == 0;
    }
  }

  lemma PositiveTimes(t: Task)
    requires Range(t) > 0 && t.countIpv6 > 0
    ensures RangeIpv6(t) > 0
  {
    assert t.ports == 0 ==> Times(t.countIpv4, t.ports) == 0 && Times(t.countIpv6, t.ports) == 0;
    MulMono(1, t.countIpv6, t.ports);
  }

  // ----- with the shuffle of the scan -----

  /** blackrock_shuffle and blackrock_unshuffle as functions on the range. */
  ghost function ShuffleOf(box: Box, n: nat): (f: nat -> nat)
    requires n <= box.Size()
    ensures forall x :: 0 <= x < n ==> f(x) == Walk(box, Roundwise, n, x)
  {
    (x: nat) => if x < n then Walk(box, Roundwise, n, x) else 0
  }

  ghost function UnshuffleOf(box: Box, n: nat): (g: nat -> nat)
    requires n <= box.Size()
    ensures forall x :: 0 <= x < n ==> g(x) == Walk(box, RoundwiseBack, n, x)
  {
    (x: nat) => if x < n then Walk(box, RoundwiseBack, n, x) else 0
  }

  lemma {:induction false} ShuffleShuffles(box: Box, n: nat)
    requires n <= box.Size()
    ensures Shuffles(ShuffleOf(box, n), UnshuffleOf(box, n), n)
  {
    forall x | 0 <= x < n
      ensures ShuffleOf(box, n)(x) < n && UnshuffleOf(box, n)(x) < n
      ensures UnshuffleOf(box, n)(ShuffleOf(box, n)(x)) == x && ShuffleOf(box, n)(UnshuffleOf(box, n)(x)) == x
    {
      WalkInverse(box, Roundwise, n, x);
      WalkInverse(box, RoundwiseBack, n, x);
    }
  }

  /** Whatever the rate, the seed and the sides: every pair is probed once or twice, twice exactly
      when the step it is unshuffled to is among the first. */
  lemma {:induction false} ScanCoversEveryPair(t: Task, box: Box, p: Pick)
    requires InBounds(t, p) && 0 < Range(t) <= box.Size()
    ensures var f, g := ShuffleOf(box, Range(t)), UnshuffleOf(box, Range(t));
      |Hits(t, f, p)| == if Home(t, g, p) < RangeIpv6(t) then 2 else 1
  {
    ShuffleShuffles(box, Range(t));
    EveryPairCovered(t, ShuffleOf(box, Range(t)), UnshuffleOf(box, Range(t)), p);
  }

  lemma {:induction false} ScanOnceExactlyWithoutIpv6(t: Task, box: Box)
    requires 0 < Range(t) <= box.Size()
    ensures (forall p :: InBounds(t, p) ==> |Hits(t, ShuffleOf(box, Range(t)), p)| == 1) <==> t.countIpv6 == 0
  {
    ShuffleShuffles(box, Range(t));
    OnceExactlyWithoutIpv6(t, ShuffleOf(box, Range(t)), UnshuffleOf(box, Range(t)));
  }

  // ----- the loops of send_thread -----

  /** The shift by the rate, reduced by division or by repeated subtraction. */
  method Reduce(i: nat, rate: nat, range: nat) returns (x: nat)
    requires range > 0
    ensures x == Rem(i + rate, range)
  {
    x := i + rate;
    if rate > range {
      x := x % range;
    } else {
      while x >= range
        invariant Rem(x, range) == Rem(i + rate, range)
      {
        SubtractOnce(x, range);
        x := x - range;
      }
      Wrap(x, range);
    }
  }

  lemma SubtractOnce(x: nat, n: nat)
    requires 0 < n <= x
    ensures Rem(x - n, n) == Rem(x, n)
  {
    ModShift(x - n, 1, n);
  }

  function Sum(batches: seq<nat>): nat
    decreases |batches|
  {
    if |batches| == 0 then 0 else batches[0] + Sum(batches[1..])
  }

  /** What the first n steps probe. */
  ghost function Sent(t: Task, f: nat -> nat, n: nat): (r: seq<Pick>)
    requires Range(t) > 0 && forall x :: 0 <= x < Range(t) ==> f(x) < Range(t)
    ensures |r| == n && forall i :: 0 <= i < n ==> r[i] == Picked(t, f, i)
  {
    seq(n, i requires 0 <= i < n => Picked(t, f, i))
  }

  ghost function HitsBefore(t: Task, f: nat -> nat, p: Pick, n: nat): set<nat>
    requires Range(t) > 0 && forall x :: 0 <= x < Range(t) ==> f(x) < Range(t)
  {
    set i: nat | i < n && Picked(t, f, i) == p
  }

  lemma HitsNext(t: Task, f: nat -> nat, p: Pick, k: nat)
    requires Range(t) > 0 && forall x :: 0 <= x < Range(t) ==> f(x) < Range(t)
    ensures |HitsBefore(t, f, p, k + 1)| == |HitsBefore(t, f, p, k)| + if Picked(t, f, k) == p then 1 else 0
  {
    if Picked(t, f, k) == p {
      assert HitsBefore(t, f, p, k + 1) == HitsBefore(t, f, p, k) + {k};
    } else {
      assert HitsBefore(t, f, p, k + 1) == HitsBefore(t, f, p, k);
    }
  }

  lemma SentNext(t: Task, f: nat -> nat, i: nat)
    requires Range(t) > 0 && forall x :: 0 <= x < Range(t) ==> f(x) < Range(t)
    ensures Sent(t, f, i + 1) == Sent(t, f, i) + [Picked(t, f, i)]
  {
  }

  /** A pair is sent as often as there are steps that pick it. */
  lemma {:induction false} SentCount(t: Task, f: nat -> nat, p: Pick, n: nat)
    requires Range(t) > 0 && forall x :: 0 <= x < Range(t) ==> f(x) < Range(t)
    ensures multiset(Sent(t, f, n))[p] == |HitsBefore(t, f, p, n)|
  {
    if n > 0 {
      SentCount(t, f, p, n - 1);
      SentNext(t, f, n - 1);
      HitsNext(t, f, p, n - 1);
    } else {
      assert HitsBefore(t, f, p, 0) == {};
    }
  }

  /** Every pair once or twice, and once when there is no IPv6 target. */
  ghost predicate Covers(t: Task, probes: seq<Pick>) {
    forall p :: InBounds(t, p) ==>
      1 <= multiset(probes)[p] <= 2 && (t.countIpv6 == 0 ==> multiset(probes)[p] == 1)
  }

  lemma PassCount(t: Task, f: nat -> nat, p: Pick)
    requires Range(t) > 0 && forall x :: 0 <= x < Range(t) ==> f(x) < Range(t)
    ensures multiset(Sent(t, f, Total(t)))[p] == |Hits(t, f, p)|
  {
    SentCount(t, f, p, Total(t));
    assert HitsBefore(t, f, p, Total(t)) == Hits(t, f, p);
  }

  lemma NoIpv6(t: Task)
    requires t.countIpv6 == 0
    ensures RangeIpv6(t) == 0
  {
  }

  lemma PairCovered(t: Task, box: Box, p: Pick)
    requires 0 < Range(t) <= box.Size() && InBounds(t, p)
    ensures var n := multiset(Sent(t, ShuffleOf(box, Range(t)), Total(t)))[p];
      1 <= n <= 2 && (t.countIpv6 == 0 ==> n == 1)
  {
    PassCount(t, ShuffleOf(box, Range(t)), p);
    ScanCoversEveryPair(t, box, p);
    if t.countIpv6 == 0 {
      NoIpv6(t);
    }
  }

  lemma {:induction false} PassCovers(t: Task, box: Box)
    requires 0 < Range(t) <= box.Size()
    ensures Covers(t, Sent(t, ShuffleOf(box, Range(t)), Total(t)))
  {
    forall p | InBounds(t, p)
      ensures var n := multiset(Sent(t, ShuffleOf(box, Range(t)), Total(t)))[p];
        1 <= n <= 2 && (t.countIpv6 == 0 ==> n == 1)
    {
      PairCovered(t, box, p);
    }
  }

  ghost predicate Serves(blackrock: BlackRock1.BlackRock, t: Task)
    reads blackrock
  {
    blackrock.Valid() && blackrock.range == Range(t)
  }

  /** The shuffle of this object on the range of the task. */
  ghost function Shuffled(blackrock: BlackRock1.BlackRock, t: Task): (f: nat -> nat)
    requires Serves(blackrock, t)
    reads blackrock
    ensures forall x :: 0 <= x < Range(t) ==> f(x) < Range(t)
  {
    ShuffleOf(blackrock.AsBox(), Range(t))
  }

  /** The target of step i. */
  method Target(t: Task, blackrock: BlackRock1.BlackRock, i: nat) returns (p: Pick)
    requires Serves(blackrock, t) && i + t.rate < WORD
    ensures p == Picked(t, Shuffled(blackrock, t), i)
  {
    var reduced := Reduce(i, t.rate, Range(t));
    var x := blackrock.Shuffle(reduced);
    assert x == Shuffled(blackrock, t)(reduced);
    p := PickOf(t, x);
  }

  /** One batch: as many steps as it allows, up to the end of the pass. */
  method SendBatch(t: Task, blackrock: BlackRock1.BlackRock, first: nat, size: nat, before: seq<Pick>)
    returns (i: nat, probes: seq<Pick>)
    requires Serves(blackrock, t) && Total(t) + t.rate < WORD && first <= Total(t)
    requires before == Sent(t, Shuffled(blackrock, t), first)
    ensures i == if first + size < Total(t) then first + size else Total(t)
    ensures probes == Sent(t, Shuffled(blackrock, t), i)
  {
    i, probes := first, before;
    var batchSize := size;
    while batchSize > 0 && i < Total(t)
      invariant i <= Total(t) && probes == Sent(t, Shuffled(blackrock, t), i)
      invariant i + batchSize == first + size
      decreases batchSize
    {
      var p := Target(t, blackrock, i);
      SentNext(t, Shuffled(blackrock, t), i);
      probes := probes + [p];
      batchSize := batchSize - 1;
      i := i + 1;
    }
  }

  function Least(x: nat, y: nat): nat {
    if x < y then x else y
  }

  /** All batches, until the pass is complete or no more batches come. */
  method SendBatches(t: Task, blackrock: BlackRock1.BlackRock, batches: seq<nat>) returns (probes: seq<Pick>)
    requires Serves(blackrock, t) && Total(t) + t.rate < WORD
    ensures probes == Sent(t, Shuffled(blackrock, t), Least(Sum(batches), Total(t)))
  {
    var i: nat, b: nat := 0, 0;
    probes := [];
    while i < Total(t) && b < |batches|
      invariant b <= |batches| && probes == Sent(t, Shuffled(blackrock, t), i)
      invariant i <= Total(t) && Least(Sum(batches), Total(t)) == Least(i + Sum(batches[b..]), Total(t))
      decreases |batches| - b
    {
      assert batches[b..][1..] == batches[b + 1..];
      i, probes := SendBatch(t, blackrock, i, batches[b], probes);
      b := b + 1;
    }
  }

  /** One pass, with fourteen rounds of the shuffle and the batch sizes the throttle gives. `root`
      is the square root of the range. */
  method SendThread(t: Task, sbox: BlackRock1.SBox, root: real, seed: nat, batches: seq<nat>)
    returns (probes: seq<Pick>, ghost box: Box)
    requires 0 < Range(t) < BlackRock1.RANGE_LIMIT && BlackRock1.NearRoot(root, Range(t))
    requires Total(t) + t.rate < WORD
    ensures Range(t) < box.Size() && box.round == BlackRock1.ReadOf(sbox) && box.seed == seed && box.rounds == 14
    ensures probes == Sent(t, ShuffleOf(box, Range(t)), Least(Sum(batches), Total(t)))
    ensures Sum(batches) >= Total(t) ==> Covers(t, probes)
  {
    var blackrock := new BlackRock1.BlackRock(sbox, Range(t), root, seed, 14);
    box := blackrock.AsBox();
    probes := SendBatches(t, blackrock, batches);
    PassCovers(t, box);
  }
}
