/** Forked script runs: a script that reads knowledge-base keys with several items is run
    once for every combination of items. */
module Fork {
  import opened Common
  import Words

  /** An index for each forked key. */
  predicate InRange(current: seq<nat>, values: seq<nat>) {
    |current| == |values| && forall i :: 0 <= i < |values| ==> current[i] < values[i]
  }

  function Product(values: seq<nat>): nat {
    if values == [] then 1 else Product(values[..|values| - 1]) * values[|values| - 1]
  }

  /** The mixed-radix number that `current` stands for, last digit fastest. */
  function Rank(current: seq<nat>, values: seq<nat>): nat
    requires |current| == |values|
  {
    if values == [] then 0
    else
      var n := |values| - 1;
      Rank(current[..n], values[..n]) * values[n] + current[n]
  }

  lemma MulLess(a: nat, b: nat, n: nat)
    requires a < b
    ensures (a + 1) * n <= b * n && (a + 1) * n == a * n + n
  {
    Words.MulMono(a + 1, b, n);
  }

  lemma {:induction false} RankBound(current: seq<nat>, values: seq<nat>)
    requires InRange(current, values)
    ensures Rank(current, values) < Product(values)
    decreases |values|
  {
    if values != [] {
      var n := |values| - 1;
      RankBound(current[..n], values[..n]);
      MulLess(Rank(current[..n], values[..n]), Product(values[..n]), values[n]);
    }
  }

  /** Lexicographic order on combinations. */
  ghost predicate Less(a: seq<nat>, b: seq<nat>) {
    |a| == |b| && exists j :: 0 <= j < |a| && a[..j] == b[..j] && a[j] < b[j]
  }

  /** Smaller combinations have smaller ranks. */
  lemma {:induction false} LessRank(a: seq<nat>, b: seq<nat>, values: seq<nat>)
    requires InRange(a, values) && InRange(b, values) && Less(a, b)
    ensures Rank(a, values) < Rank(b, values)
    decreases |values|
  {
    var j :| 0 <= j < |a| && a[..j] == b[..j] && a[j] < b[j];
    var n := |values| - 1;
    var p, q := a[..n], b[..n];
    if j == n {
      assert p == q;
    } else {
      assert p[..j] == a[..j] && q[..j] == b[..j] && p[j] < q[j];
      LessRank(p, q, values[..n]);
      MulLess(Rank(p, values[..n]), Rank(q, values[..n]), values[n]);
    }
  }

  lemma {:induction false} LessTotal(a: seq<nat>, b: seq<nat>)
    requires |a| == |b|
    ensures a == b || Less(a, b) || Less(b, a)
    decreases |a|
  {
    if a != [] {
      var n := |a| - 1;
      var p, q := a[..n], b[..n];
      LessTotal(p, q);
      if p == q {
        assert a[..n] == b[..n];
        if a[n] == b[n] {
          assert a == p + [a[n]] && b == q + [b[n]];
        }
      } else if Less(p, q) {
        var j :| 0 <= j < |p| && p[..j] == q[..j] && p[j] < q[j];
        assert a[..j] == p[..j] == q[..j] == b[..j];
      } else {
        var j :| 0 <= j < |p| && q[..j] == p[..j] && q[j] < p[j];
        assert a[..j] == p[..j] == q[..j] == b[..j];
      }
    }
  }

  /** Ranks order the combinations lexicographically and tell them apart. */
  lemma {:induction false} RankOrders(a: seq<nat>, b: seq<nat>, values: seq<nat>)
    requires InRange(a, values) && InRange(b, values)
    ensures Rank(a, values) < Rank(b, values) <==> Less(a, b)
    ensures Rank(a, values) == Rank(b, values) <==> a == b
  {
    LessTotal(a, b);
    if Less(a, b) { LessRank(a, b, values); }
    if Less(b, a) { LessRank(b, a, values); }
  }

  function Zeros(n: nat): (z: seq<nat>)
    ensures |z| == n
  {
    seq(n, _ => 0)
  }

  lemma {:induction false} ZeroRank(values: seq<nat>)
    ensures Rank(Zeros(|values|), values) == 0
    decreases |values|
  {
    if values != [] {
      var n := |values| - 1;
      ZeroRank(values[..n]);
      assert Zeros(|values|)[..n] == Zeros(n);
    }
  }

  class ForkedValue {
    var names: seq<string>
    var values: seq<nat>
    var current: seq<nat>

    ghost predicate Valid()
      reads this
    {
      && |names| == |values| && InRange(current, values)
      && (forall i :: 0 <= i < |values| ==> values[i] > 1)
      && (forall i, j :: 0 <= i < j < |names| ==> names[i] != names[j])
    }

    constructor ()
      ensures Valid() && names == [] && values == [] && current == []
    {
      names, values, current := [], [], [];
    }

    method IsNameExist(name: string) returns (found: bool)
      ensures found <==> name in names
    {
      for i := 0 to |names|
        invariant name !in names[..i]
      {
        if names[i] == name {
          return true;
        }
      }
      assert names[..|names|] == names;
      found := false;
    }

    method GetItemPos(name: string) returns (pos: int)
      requires Valid()
      ensures name !in names ==> pos == -1
      ensures forall i :: 0 <= i < |names| && names[i] == name ==> pos == current[i]
    {
      for i := 0 to |names|
        invariant name !in names[..i]
      {
        if name == names[i] {
          return current[i];
        }
      }
      assert names[..|names|] == names;
      pos := -1;
    }

    /** Adds one to the digits 0..i, or reports that they are all at their end. */
    method UpdateValue(i: nat) returns (ok: bool)
      requires Valid() && i < |current|
      modifies this`current
      ensures Valid() && |current| == |old(current)|
      ensures current[i + 1..] == old(current)[i + 1..]
      ensures ok ==> Rank(current[..i + 1], values[..i + 1]) == Rank(old(current)[..i + 1], values[..i + 1]) + 1
      ensures !ok ==> current == old(current)
      ensures !ok ==> Rank(current[..i + 1], values[..i + 1]) == Product(values[..i + 1]) - 1
      decreases i
    {
      ghost var before := current;
      assert current[..i + 1][..i] == current[..i] && values[..i + 1][..i] == values[..i];
      var n := current[i] + 1;
      if n >= values[i] {
        if i == 0 {
          assert values[..1] == [values[0]] && values[..1][..0] == [];
          assert Product(values[..1]) == Product(values[..1][..0]) * values[0];
          return false;
        }
        assert values[..i] == values[..i - 1 + 1];
        var carried := UpdateValue(i - 1);
        assert current[i] == before[i] by { assert current[i..][0] == before[i..][0]; }
        if !carried {
          EndDigits(Product(values[..i]), values[i]);
          return false;
        }
        n := 0;
        CarryDigits(Rank(before[..i], values[..i]), values[i]);
      }
      ghost var mid := current;
      current := current[i := n];
      assert current[..i + 1][..i] == mid[..i];
      assert current[i + 1..] == mid[i + 1..] == before[i + 1..] by {
        assert mid[i + 1..] == mid[i..][1..] && before[i + 1..] == before[i..][1..];
      }
      ok := true;
    }

    static lemma EndDigits(p: nat, v: nat)
      requires p > 0 && v > 0
      ensures (p - 1) * v + (v - 1) == p * v - 1
    {
    }

    static lemma CarryDigits(r: nat, v: nat)
      requires v > 0
      ensures (r + 1) * v == r * v + (v - 1) + 1
    {
    }

    method PrepareForNextScriptExecute() returns (ok: bool)
      requires Valid() && |current| > 0
      modifies this`current
      ensures Valid()
      ensures ok ==> Rank(current, values) == Rank(old(current), values) + 1
      ensures !ok ==> current == old(current) && Rank(current, values) == Product(values) - 1
    {
      ok := UpdateValue(|current| - 1);
      assert current[..|current|] == current && old(current)[..|current|] == old(current);
      assert values[..|values|] == values;
    }
  }

  /** Knowledge-base storage: the items of each key. */
  type Storage = map<string, seq<int>>

  /** No key is stored without an item. */
  ghost predicate NoneEmpty(s: Storage) {
    forall name :: name in s ==> s[name] != []
  }

  function ItemCount(s: Storage, name: string): nat {
    if name in s then |s[name]| else 0
  }

  /** GetItem: the last item for an index that is out of range, nothing for a key that is not
      there. */
  function GetItem(s: Storage, name: string, pos: int): Option<int>
    requires NoneEmpty(s)
  {
    if name !in s then None
    else Some(if 0 <= pos < |s[name]| then s[name][pos] else s[name][|s[name]| - 1])
  }

  /** Every forked key is stored, with as many items as it was registered with. */
  ghost predicate Registered(s: Storage, names: seq<string>, values: seq<nat>) {
    |names| == |values| && forall i :: 0 <= i < |names| ==> names[i] in s && |s[names[i]]| == values[i]
  }

  class OvaContext {
    const fork: ForkedValue
    var isForkedTask: bool
    var storage: Storage
    var snapshot: Storage

    ghost predicate Valid()
      reads this, fork
    {
      && fork.Valid()
      && NoneEmpty(storage) && NoneEmpty(snapshot)
      && (!isForkedTask ==> fork.current == Zeros(|fork.names|))
      && Registered(if isForkedTask then snapshot else storage, fork.names, fork.values)
    }

    constructor (storage: Storage)
      requires NoneEmpty(storage)
      ensures Valid() && this.storage == storage && !isForkedTask && fork.names == [] && fresh(fork)
    {
      fork := new ForkedValue();
      isForkedTask, this.storage, this.snapshot := false, storage, map[];
    }

    /** A first read of a key with several items registers it for forking and yields item 0; a
        forked run yields the item its combination selects; a key that is not there yields nothing. */
    method GetKbItem(name: string) returns (item: Option<int>)
      requires Valid()
      modifies fork
      ensures Valid()
      ensures isForkedTask ==> fork.names == old(fork.names) && fork.current == old(fork.current)
      ensures isForkedTask ==> forall i :: 0 <= i < |fork.names| && fork.names[i] == name ==>
        item == Some(snapshot[name][fork.current[i]])
      ensures isForkedTask && name !in fork.names ==>
        item == if name in snapshot then Some(snapshot[name][|snapshot[name]| - 1]) else None
      ensures !isForkedTask ==> item == if name in storage then Some(storage[name][0]) else None
      ensures old(fork.names) <= fork.names && old(fork.values) <= fork.values
      ensures if !isForkedTask && name !in old(fork.names) && name in storage && |storage[name]| > 1
        then fork.names == old(fork.names) + [name] && fork.values == old(fork.values) + [|storage[name]|]
        else fork.names == old(fork.names) && fork.values == old(fork.values)
    {
      if isForkedTask {
        var pos := fork.GetItemPos(name);
        return GetItem(snapshot, name, pos);
      }
      var count := ItemCount(storage, name);
      if count > 1 {
        var known := fork.IsNameExist(name);
        if !known {
          fork.names := fork.names + [name];
          fork.values := fork.values + [count];
          fork.current := fork.current + [0];
          assert fork.current == Zeros(|fork.names|);
        }
        return GetItem(storage, name, 0);
      }
      item := GetItem(storage, name, -1);
    }

    /** The run and fork loop of ExecuteScriptOnHost after the first run registered its keys.
        `runs` collects the combination of each run, the first one included. */
    method RunForks() returns (runs: seq<seq<nat>>)
      requires Valid() && !isForkedTask
      modifies this, fork`current
      ensures fork.Valid() && storage == old(storage)
      ensures AllCombinations(runs, fork.values) && Registered(storage, fork.names, fork.values)
      ensures ReadsAll(storage, fork.names, runs)
    {
      EachReading(storage, fork.names, fork.values);
      runs := [fork.current];
      ZeroRank(fork.values);
      if fork.names == [] {
        return;
      }
      snapshot := storage;
      isForkedTask := true;
      var more := fork.PrepareForNextScriptExecute();
      while more
        invariant fork.Valid() && |fork.current| > 0 && |runs| > 0 && storage == old(storage)
        invariant forall k :: 0 <= k < |runs| ==> InRange(runs[k], fork.values) && Rank(runs[k], fork.values) == k
        invariant more ==> Rank(fork.current, fork.values) == |runs|
        invariant !more ==> |runs| == Product(fork.values)
        decreases Product(fork.values) - |runs|, more
      {
        RankBound(fork.current, fork.values);
        runs := runs + [fork.current];
        more := fork.PrepareForNextScriptExecute();
      }
    }
  }

  /** Run k is the combination of rank k, for all k below the product. */
  ghost predicate AllCombinations(runs: seq<seq<nat>>, values: seq<nat>) {
    && |runs| == Product(values)
    && forall k :: 0 <= k < |runs| ==> InRange(runs[k], values) && Rank(runs[k], values) == k
  }

  /** So every combination is run exactly once, in lexicographic order. */
  lemma {:induction false} EachCombinationOnce(runs: seq<seq<nat>>, values: seq<nat>)
    requires AllCombinations(runs, values)
    ensures forall c :: InRange(c, values) ==> Rank(c, values) < |runs| && runs[Rank(c, values)] == c
    ensures forall i, j :: 0 <= i < j < |runs| ==> Less(runs[i], runs[j])
  {
    forall c | InRange(c, values) ensures Rank(c, values) < |runs| && runs[Rank(c, values)] == c {
      RankBound(c, values);
      RankOrders(runs[Rank(c, values)], c, values);
    }
    forall i, j | 0 <= i < j < |runs| ensures Less(runs[i], runs[j]) {
      RankOrders(runs[i], runs[j], values);
    }
  }

  // ----- what the runs read -----

  /** What a run with these indices reads under the forked keys. */
  function ReadsIn(s: Storage, names: seq<string>, c: seq<nat>): (items: seq<int>)
    requires |c| == |names| && forall i :: 0 <= i < |names| ==> names[i] in s && c[i] < |s[names[i]]|
    ensures |items| == |names| && forall i :: 0 <= i < |names| ==> items[i] == s[names[i]][c[i]]
  {
    seq(|names|, i requires 0 <= i < |names| => s[names[i]][c[i]])
  }

  /** One item for each key. */
  ghost predicate IsChoice(s: Storage, names: seq<string>, items: seq<int>) {
    |items| == |names| && forall i :: 0 <= i < |names| ==> names[i] in s && items[i] in s[names[i]]
  }

  ghost predicate RunReads(s: Storage, names: seq<string>, c: seq<nat>, items: seq<int>) {
    && |c| == |names| && (forall i :: 0 <= i < |names| ==> names[i] in s && c[i] < |s[names[i]]|)
    && ReadsIn(s, names, c) == items
  }

  /** The items of a key are different, as the storage keeps them. */
  ghost predicate NoRepeats(s: Storage, names: seq<string>) {
    forall i, j, k :: 0 <= i < |names| && names[i] in s && 0 <= j < k < |s[names[i]]| ==>
      s[names[i]][j] != s[names[i]][k]
  }

  /** This run reads one item of each key. */
  ghost predicate ReadsChoice(s: Storage, names: seq<string>, run: seq<nat>) {
    exists items :: IsChoice(s, names, items) && RunReads(s, names, run, items)
  }

  ghost predicate IsRead(s: Storage, names: seq<string>, runs: seq<seq<nat>>, items: seq<int>) {
    exists k :: 0 <= k < |runs| && RunReads(s, names, runs[k], items)
  }

  ghost predicate ReadOnce(s: Storage, names: seq<string>, runs: seq<seq<nat>>, items: seq<int>) {
    forall k, l | 0 <= k < |runs| && 0 <= l < |runs| ::
      RunReads(s, names, runs[k], items) && RunReads(s, names, runs[l], items) ==> k == l
  }

  /** Every choice of one item for each forked key is read by some run, and by one only if no
      key repeats an item; the runs read nothing else. */
  ghost predicate ReadsAll(s: Storage, names: seq<string>, runs: seq<seq<nat>>) {
    && (forall k :: 0 <= k < |runs| ==> ReadsChoice(s, names, runs[k]))
    && (forall items :: IsChoice(s, names, items) ==> IsRead(s, names, runs, items))
    && (NoRepeats(s, names) ==> forall items :: ReadOnce(s, names, runs, items))
  }

  function PositionOf(items: seq<int>, x: int): (i: nat)
    requires x in items
    ensures i < |items| && items[i] == x
  {
    if items[0] == x then 0 else 1 + PositionOf(items[1..], x)
  }

  lemma {:induction false} ReadOf(s: Storage, names: seq<string>, values: seq<nat>, c: seq<nat>)
    requires Registered(s, names, values) && InRange(c, values)
    ensures IsChoice(s, names, ReadsIn(s, names, c)) && RunReads(s, names, c, ReadsIn(s, names, c))
  {
  }

  lemma ChoiceRead(s: Storage, names: seq<string>, values: seq<nat>, items: seq<int>) returns (c: seq<nat>)
    requires Registered(s, names, values) && IsChoice(s, names, items)
    ensures InRange(c, values) && RunReads(s, names, c, items)
  {
    c := seq(|names|, i requires 0 <= i < |names| => PositionOf(s[names[i]], items[i]));
  }

  lemma SameReads(s: Storage, names: seq<string>, values: seq<nat>, c: seq<nat>, d: seq<nat>, items: seq<int>)
    requires Registered(s, names, values) && InRange(c, values) && InRange(d, values) && NoRepeats(s, names)
    requires RunReads(s, names, c, items) && RunReads(s, names, d, items)
    ensures c == d
  {
    forall i | 0 <= i < |names| ensures c[i] == d[i] {
      assert ReadsIn(s, names, c)[i] == ReadsIn(s, names, d)[i];
    }
  }

  lemma ChoiceIsRead(s: Storage, names: seq<string>, values: seq<nat>, runs: seq<seq<nat>>, items: seq<int>)
    requires Registered(s, names, values) && AllCombinations(runs, values) && IsChoice(s, names, items)
    ensures IsRead(s, names, runs, items)
  {
    EachCombinationOnce(runs, values);
    var c := ChoiceRead(s, names, values, items);
    var k := Rank(c, values);
    assert runs[k] == c;
  }

  lemma ChoiceReadOnce(s: Storage, names: seq<string>, values: seq<nat>, runs: seq<seq<nat>>, items: seq<int>)
    requires Registered(s, names, values) && AllCombinations(runs, values) && NoRepeats(s, names)
    ensures ReadOnce(s, names, runs, items)
  {
    forall k, l | 0 <= k < |runs| && 0 <= l < |runs| && RunReads(s, names, runs[k], items)
                  && RunReads(s, names, runs[l], items)
      ensures k == l
    {
      SameReads(s, names, values, runs[k], runs[l], items);
    }
  }

  /** So it is for the runs of RunForks. */
  lemma {:induction false} CombinationsRead(s: Storage, names: seq<string>, values: seq<nat>, runs: seq<seq<nat>>)
    requires Registered(s, names, values) && AllCombinations(runs, values)
    ensures ReadsAll(s, names, runs)
  {
    forall k | 0 <= k < |runs| ensures ReadsChoice(s, names, runs[k]) {
      ReadOf(s, names, values, runs[k]);
    }
    forall items | IsChoice(s, names, items) ensures IsRead(s, names, runs, items) {
      ChoiceIsRead(s, names, values, runs, items);
    }
    if NoRepeats(s, names) {
      forall items ensures ReadOnce(s, names, runs, items) {
        ChoiceReadOnce(s, names, values, runs, items);
      }
    }
  }

  /** The same, for every list of runs. */
  lemma EachReading(s: Storage, names: seq<string>, values: seq<nat>)
    requires Registered(s, names, values)
    ensures forall runs :: AllCombinations(runs, values) ==> ReadsAll(s, names, runs)
  {
    forall runs | AllCombinations(runs, values) ensures ReadsAll(s, names, runs) {
      CombinationsRead(s, names, values, runs);
    }
  }
}
