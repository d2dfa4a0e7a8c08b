/** What the timeout ring promises, on plain values: entries wait in the slot of their
    timestamp until the ring's index reaches it. */
module TimeoutSpec {

  datatype Item<T> = Item(id: T, ts: nat)

  datatype Ring<T> = Ring(cur: nat, slots: seq<seq<Item<T>>>) {
    function Size(): nat { |slots| }

    /** The slot that timestamp or index `c` falls into. */
    function At(c: nat): seq<Item<T>>
      requires Size() > 0
    {
      slots[c % Size()]
    }

    ghost predicate Has(it: Item<T>)
      requires Size() > 0
    {
      it in At(it.ts)
    }
  }

  /** Every item is in the slot of its timestamp, and no id occurs twice. */
  ghost predicate WellFormed<T>(r: Ring<T>) {
    && r.Size() > 0
    && (forall i, j :: 0 <= i < r.Size() && 0 <= j < |r.slots[i]| ==> r.slots[i][j].ts % r.Size() == i)
    && (forall i, j, k, l | 0 <= i < r.Size() && 0 <= k < r.Size() && 0 <= j < |r.slots[i]| && 0 <= l < |r.slots[k]| ::
          r.slots[i][j].id == r.slots[k][l].id ==> i == k && j == l)
  }

  /** Nothing in the ring was due before the index. */
  ghost predicate OnTime<T>(r: Ring<T>) {
    forall i, j :: 0 <= i < r.Size() && 0 <= j < |r.slots[i]| ==> r.slots[i][j].ts >= r.cur
  }

  function Without<A>(s: seq<A>, j: nat): seq<A>
    requires j < |s|
  {
    s[..j] + s[j + 1..]
  }

  function Take<T>(r: Ring<T>, i: nat, j: nat): Ring<T>
    requires i < r.Size() && j < |r.slots[i]|
  {
    r.(slots := r.slots[i := Without(r.slots[i], j)])
  }

  /** Linking an entry that is not in the ring: in front of its slot. */
  function Link<T>(r: Ring<T>, it: Item<T>): Ring<T>
    requires r.Size() > 0
  {
    r.(slots := r.slots[it.ts % r.Size() := [it] + r.At(it.ts)])
  }

  /** Position of the first item that is due at t, |s| when none is. */
  function FirstDue<T>(s: seq<Item<T>>, t: nat): (j: nat)
    ensures j <= |s|
    ensures j < |s| ==> s[j].ts <= t
    ensures forall k :: 0 <= k < j ==> s[k].ts > t
  {
    if s == [] then 0
    else if s[0].ts <= t then 0
    else 1 + FirstDue(s[1..], t)
  }

  datatype Found<T> = Nothing | Expired(it: Item<T>)

  /** timeouts_remove: advance the index until a slot holds something due. */
  function Remove<T>(r: Ring<T>, t: nat): (o: (Ring<T>, Found<T>))
    requires r.Size() > 0
    ensures o.0.Size() == r.Size()
    decreases t + 1 - r.cur
  {
    if r.cur > t then (r, Nothing)
    else
      var j := FirstDue(r.At(r.cur), t);
      if j < |r.At(r.cur)| then
        (Take(r, r.cur % r.Size(), j), Expired(r.At(r.cur)[j]))
      else Remove(r.(cur := r.cur + 1), t)
  }

  lemma TakeFacts<T>(r: Ring<T>, i: nat, j: nat)
    requires WellFormed(r) && i < r.Size() && j < |r.slots[i]|
    ensures WellFormed(Take(r, i, j))
    ensures forall it :: Take(r, i, j).Has(it) <==> r.Has(it) && it != r.slots[i][j]
    ensures OnTime(r) ==> OnTime(Take(r, i, j))
  {
    var q := Take(r, i, j);
    var gone := r.slots[i][j];
    assert forall k :: 0 <= k < |q.slots[i]| ==> q.slots[i][k] == r.slots[i][if k < j then k else k + 1];
    forall it ensures q.Has(it) <==> r.Has(it) && it != gone {
      if r.Has(it) && it != gone && it.ts % r.Size() == i {
        var k :| 0 <= k < |r.slots[i]| && r.slots[i][k] == it;
        assert q.slots[i][if k < j then k else k - 1] == it;
      }
    }
  }

  /** No item of the ring has this id. */
  ghost predicate Absent<T>(r: Ring<T>, id: T) {
    forall i, j :: 0 <= i < r.Size() && 0 <= j < |r.slots[i]| ==> r.slots[i][j].id != id
  }

  lemma {:induction false} LinkFacts<T>(r: Ring<T>, it: Item<T>)
    requires WellFormed(r) && Absent(r, it.id)
    ensures WellFormed(Link(r, it))
    ensures forall x :: Link(r, it).Has(x) <==> r.Has(x) || x == it
    ensures OnTime(r) && it.ts >= r.cur ==> OnTime(Link(r, it))
  {
    var q, i := Link(r, it), it.ts % r.Size();
    assert forall k :: 0 <= k < |q.slots[i]| ==> q.slots[i][k] == if k == 0 then it else r.slots[i][k - 1];
    assert q.slots[i][0] == it;
    forall x ensures q.Has(x) <==> r.Has(x) || x == it {
      if r.Has(x) && x.ts % r.Size() == i {
        var k :| 0 <= k < |r.slots[i]| && r.slots[i][k] == x;
        assert q.slots[i][k + 1] == x;
      }
    }
  }

  /** Exactly when remove finds something, with no assumption on what was added: an item
      due at t sits in a slot the index still has to pass. */
  lemma {:induction false} RemoveExact<T>(r: Ring<T>, t: nat)
    requires r.Size() > 0
    ensures Remove(r, t).1.Nothing? <==>
      forall c, j :: r.cur <= c <= t && 0 <= j < |r.At(c)| ==> r.At(c)[j].ts > t
    decreases t + 1 - r.cur
  {
    if r.cur <= t {
      var j := FirstDue(r.At(r.cur), t);
      if j == |r.At(r.cur)| {
        var q := r.(cur := r.cur + 1);
        RemoveExact(q, t);
        forall c, j | r.cur <= c <= t && 0 <= j < |r.At(c)| && Remove(r, t).1.Nothing? ensures r.At(c)[j].ts > t {
          if c > r.cur {
            assert q.At(c) == r.At(c);
          }
        }
        if forall c, j :: r.cur <= c <= t && 0 <= j < |r.At(c)| ==> r.At(c)[j].ts > t {
          assert forall c, j :: q.cur <= c <= t && 0 <= j < |q.At(c)| ==> q.At(c)[j].ts > t by {
            assert forall c :: q.At(c) == r.At(c);
          }
        }
      } else {
        assert r.At(r.cur)[j].ts <= t;
      }
    }
  }

  /** Nothing in the slot of index c is due at t. */
  ghost predicate Quiet<T>(r: Ring<T>, c: nat, t: nat)
    requires |r.slots| > 0
  {
    forall j :: 0 <= j < |r.slots[c % |r.slots|]| ==> r.slots[c % |r.slots|][j].ts > t
  }

  /** Entry j of slot i is the first one that is due at t. */
  ghost predicate First<T>(s: seq<Item<T>>, j: nat, t: nat) {
    j < |s| && s[j].ts <= t && forall k :: 0 <= k < j ==> s[k].ts > t
  }

  /** Where remove looks, on any ring: from its index up to t, at each index in the slot of that
      number modulo the number of slots. It takes the first due entry of the first slot that has
      one, and stays there; or it goes on to the index behind t. */
  lemma {:induction false} RemoveWhere<T>(r: Ring<T>, t: nat)
    requires |r.slots| > 0
    ensures var (q, f) := Remove(r, t);
      f.Nothing? ==>
        && q.slots == r.slots && q.cur == (if r.cur <= t then t + 1 else r.cur)
        && forall c: nat :: r.cur <= c <= t ==> Quiet(r, c, t)
    ensures var (q, f) := Remove(r, t);
      f.Expired? ==>
        && r.cur <= q.cur <= t && (forall c: nat :: r.cur <= c < q.cur ==> Quiet(r, c, t))
        && var i := q.cur % |r.slots|;
           exists j: nat :: First(r.slots[i], j, t) && f.it == r.slots[i][j]
             && q.slots == r.slots[i := r.slots[i][..j] + r.slots[i][j + 1..]]
    decreases t + 1 - r.cur
  {
    if r.cur <= t {
      var s := r.slots[r.cur % |r.slots|];
      var j := FirstDue(s, t);
      if j < |s| {
        assert First(s, j, t);
      } else {
        var next := r.(cur := r.cur + 1);
        assert Quiet(r, r.cur, t);
        RemoveWhere(next, t);
        assert forall c: nat :: Quiet(next, c, t) == Quiet(r, c, t);
      }
    }
  }

  /** One remove on a ring that is on time: it hands out one due item, or nothing and then
      nothing is due; everything else stays. */
  lemma {:induction false} RemoveFacts<T>(r: Ring<T>, t: nat)
    requires WellFormed(r) && OnTime(r)
    ensures var (q, f) := Remove(r, t);
      && WellFormed(q) && OnTime(q) && q.cur >= r.cur
      && match f
         case Nothing => q.slots == r.slots && q.cur > t && (forall it :: r.Has(it) ==> it.ts > t)
         case Expired(x) => x.ts <= t && r.Has(x) && (forall it :: q.Has(it) <==> r.Has(it) && it != x)
    decreases t + 1 - r.cur
  {
    if r.cur > t {
      forall it | r.Has(it) ensures it.ts > t { HasOnTime(r, it); }
    } else if FirstDue(r.At(r.cur), t) < |r.At(r.cur)| {
      TakeFacts(r, r.cur % r.Size(), FirstDue(r.At(r.cur), t));
    } else {
      SlotPassed(r, t);
      RemoveFacts(r.(cur := r.cur + 1), t);
      RemoveLater(r, t);
    }
  }

  lemma RemoveLater<T>(r: Ring<T>, t: nat)
    requires r.Size() > 0 && r.cur <= t && FirstDue(r.At(r.cur), t) == |r.At(r.cur)|
    ensures Remove(r, t) == Remove(r.(cur := r.cur + 1), t)
  {
  }

  /** A slot without anything due can be passed. */
  lemma SlotPassed<T>(r: Ring<T>, t: nat)
    requires WellFormed(r) && OnTime(r) && r.cur <= t && FirstDue(r.At(r.cur), t) == |r.At(r.cur)|
    ensures var q := r.(cur := r.cur + 1);
      WellFormed(q) && OnTime(q) && forall it :: q.Has(it) <==> r.Has(it)
  {
    var q := r.(cur := r.cur + 1);
    forall k, l | 0 <= k < q.Size() && 0 <= l < |q.slots[k]| ensures q.slots[k][l].ts >= q.cur {
      assert r.slots[k][l].ts % r.Size() == k;
    }
  }

  lemma HasOnTime<T>(r: Ring<T>, it: Item<T>)
    requires WellFormed(r) && OnTime(r) && r.Has(it)
    ensures it.ts >= r.cur
  {
    var j :| 0 <= j < |r.At(it.ts)| && r.At(it.ts)[j] == it;
    assert r.slots[it.ts % r.Size()][j].ts >= r.cur;
  }

  // ----- draining: remove until nothing comes back -----

  function Total<T>(slots: seq<seq<Item<T>>>): nat {
    if slots == [] then 0 else |slots[0]| + Total(slots[1..])
  }

  lemma {:induction false} TotalUpdate<T>(slots: seq<seq<Item<T>>>, i: nat, s: seq<Item<T>>)
    requires i < |slots|
    ensures Total(slots[i := s]) == Total(slots) - |slots[i]| + |s|
    decreases |slots|
  {
    if i > 0 {
      assert slots[i := s][1..] == slots[1..][i - 1 := s];
      TotalUpdate(slots[1..], i - 1, s);
    } else {
      assert slots[i := s][1..] == slots[1..];
    }
  }

  lemma {:induction false} RemoveShrinks<T>(r: Ring<T>, t: nat)
    requires r.Size() > 0
    ensures Remove(r, t).1.Expired? ==> Total(Remove(r, t).0.slots) < Total(r.slots)
    decreases t + 1 - r.cur
  {
    if r.cur <= t {
      var i := r.cur % r.Size();
      var j := FirstDue(r.slots[i], t);
      if j < |r.slots[i]| {
        TotalUpdate(r.slots, i, Without(r.slots[i], j));
      } else {
        RemoveShrinks(r.(cur := r.cur + 1), t);
      }
    }
  }

  /** The items a caller gets by calling remove(t) until it returns nothing. */
  function Drain<T>(r: Ring<T>, t: nat): (o: (Ring<T>, seq<Item<T>>))
    requires r.Size() > 0
    ensures o.0.Size() == r.Size()
    decreases Total(r.slots)
  {
    var (q, f) := Remove(r, t);
    if f.Nothing? then (q, [])
    else
      RemoveShrinks(r, t);
      var rest := Drain(q, t);
      (rest.0, [f.it] + rest.1)
  }

  /** Draining returns exactly the due items, each once, and leaves exactly the others. */
  lemma {:induction false} DrainExact<T>(r: Ring<T>, t: nat)
    requires WellFormed(r) && OnTime(r)
    ensures var (q, out) := Drain(r, t);
      && WellFormed(q) && OnTime(q)
      && (forall it :: it in out <==> r.Has(it) && it.ts <= t)
      && (forall i, j :: 0 <= i < j < |out| ==> out[i] != out[j])
      && (forall it :: q.Has(it) <==> r.Has(it) && it.ts > t)
    decreases Total(r.slots)
  {
    RemoveFacts(r, t);
    var (q, f) := Remove(r, t);
    if f.Expired? {
      RemoveShrinks(r, t);
      DrainExact(q, t);
      var rest := Drain(q, t).1;
      assert Drain(r, t).1 == [f.it] + rest;
      assert f.it !in rest;
    }
  }

  // ----- whole runs -----

  datatype Op<T> = Add(id: T, ts: nat) | Poll(t: nat)

  function Erased<T(==)>(s: seq<Item<T>>, id: T): seq<Item<T>> {
    if s == [] then []
    else if s[0].id == id then Erased(s[1..], id)
    else [s[0]] + Erased(s[1..], id)
  }

  /** The ring without an id, wherever it is linked. */
  function Erase<T(==)>(r: Ring<T>, id: T): Ring<T> {
    r.(slots := seq(r.Size(), i requires 0 <= i < r.Size() => Erased(r.slots[i], id)))
  }

  /** One call on the ring. Adding an entry that is linked moves it. */
  function Apply<T(==)>(r: Ring<T>, op: Op<T>): (o: (Ring<T>, Found<T>))
    requires r.Size() > 0
    ensures o.0.Size() == r.Size()
  {
    match op
    case Add(id, ts) => (Link(Erase(r, id), Item(id, ts)), Nothing)
    case Poll(t) => Remove(r, t)
  }

  lemma {:induction false} ErasedNone<T>(s: seq<Item<T>>, id: T)
    requires forall k :: 0 <= k < |s| ==> s[k].id != id
    ensures Erased(s, id) == s
  {
    if s != [] {
      ErasedNone(s[1..], id);
    }
  }

  lemma {:induction false} ErasedAt<T>(s: seq<Item<T>>, j: nat)
    requires j < |s| && forall k :: 0 <= k < |s| && k != j ==> s[k].id != s[j].id
    ensures Erased(s, s[j].id) == Without(s, j)
  {
    if j == 0 {
      ErasedNone(s[1..], s[0].id);
      assert Without(s, 0) == s[1..];
    } else {
      ErasedAt(s[1..], j - 1);
      assert Without(s, j) == [s[0]] + Without(s[1..], j - 1);
    }
  }

  lemma EraseAbsent<T>(r: Ring<T>, id: T)
    requires Absent(r, id)
    ensures Erase(r, id) == r
  {
    forall i | 0 <= i < r.Size() ensures Erased(r.slots[i], id) == r.slots[i] {
      ErasedNone(r.slots[i], id);
    }
    assert Erase(r, id).slots == r.slots;
  }

  /** Erasing an id that is linked takes out the one item that has it. */
  lemma ErasePresent<T>(r: Ring<T>, i: nat, j: nat)
    requires WellFormed(r) && i < r.Size() && j < |r.slots[i]|
    ensures Erase(r, r.slots[i][j].id) == Take(r, i, j)
  {
    var id := r.slots[i][j].id;
    forall k | 0 <= k < r.Size() ensures Erase(r, id).slots[k] == Take(r, i, j).slots[k] {
      if k == i {
        ErasedAt(r.slots[i], j);
      } else {
        ErasedNone(r.slots[k], id);
      }
    }
    assert Erase(r, id).slots == Take(r, i, j).slots;
  }

  lemma {:induction false} EraseFacts<T>(r: Ring<T>, id: T)
    requires WellFormed(r)
    ensures var q := Erase(r, id);
      && WellFormed(q) && Absent(q, id) && q.cur == r.cur && (OnTime(r) ==> OnTime(q))
      && (forall it :: q.Has(it) <==> r.Has(it) && it.id != id)
  {
    if Absent(r, id) {
      EraseAbsent(r, id);
      forall it | r.Has(it) ensures it.id != id {
        var j :| 0 <= j < |r.At(it.ts)| && r.At(it.ts)[j] == it;
        assert r.slots[it.ts % r.Size()][j].id != id;
      }
    } else {
      var i, j :| 0 <= i < r.Size() && 0 <= j < |r.slots[i]| && r.slots[i][j].id == id;
      ErasePresent(r, i, j);
      TakeFacts(r, i, j);
      TakenAbsent(r, i, j);
      forall it | r.Has(it) ensures it.id == id <==> it == r.slots[i][j] {
        SameId(r, i, j, it);
      }
    }
  }

  lemma SameId<T>(r: Ring<T>, i: nat, j: nat, it: Item<T>)
    requires WellFormed(r) && i < r.Size() && j < |r.slots[i]| && r.Has(it)
    ensures it.id == r.slots[i][j].id <==> it == r.slots[i][j]
  {
    var h := it.ts % r.Size();
    var k :| 0 <= k < |r.slots[h]| && r.slots[h][k] == it;
    if it.id == r.slots[i][j].id {
      assert r.slots[h][k].id == r.slots[i][j].id;
      assert h == i && k == j;
    }
  }

  lemma TakenAbsent<T>(r: Ring<T>, i: nat, j: nat)
    requires WellFormed(r) && i < r.Size() && j < |r.slots[i]|
    ensures Absent(Take(r, i, j), r.slots[i][j].id)
  {
    var q := Take(r, i, j);
    forall h, k | 0 <= h < q.Size() && 0 <= k < |q.slots[h]| ensures q.slots[h][k].id != r.slots[i][j].id {
      var l := if h == i && k >= j then k + 1 else k;
      assert q.slots[h][k] == r.slots[h][l];
      assert !(h == i && l == j);
    }
  }

  /** Where an entry goes that is not linked: to the front of the slot of its timestamp. */
  lemma {:induction false} AddInFront<T>(r: Ring<T>, id: T, ts: nat)
    requires |r.slots| > 0 && forall i, j :: 0 <= i < |r.slots| && 0 <= j < |r.slots[i]| ==> r.slots[i][j].id != id
    ensures var q, i := Apply(r, Add(id, ts)).0, ts % |r.slots|;
      q.cur == r.cur && q.slots == r.slots[i := [Item(id, ts)] + r.slots[i]]
  {
    EraseAbsent(r, id);
  }

  /** And one that is linked, from there to the front of the slot of its new timestamp; all others
      stay as they are. */
  lemma {:induction false} AddMoves<T>(r: Ring<T>, h: nat, j: nat, ts: nat)
    requires WellFormed(r) && h < |r.slots| && j < |r.slots[h]|
    ensures var q, k, id := Apply(r, Add(r.slots[h][j].id, ts)).0, ts % |r.slots|, r.slots[h][j].id;
      var rest := r.slots[h := r.slots[h][..j] + r.slots[h][j + 1..]];
      q.cur == r.cur && q.slots == rest[k := [Item(id, ts)] + rest[k]]
  {
    ErasePresent(r, h, j);
  }

  /** Timestamps are added no earlier than the index. */
  predicate Timely<T>(r: Ring<T>, op: Op<T>) {
    op.Add? ==> op.ts >= r.cur
  }

  lemma {:induction false} ApplyFacts<T>(r: Ring<T>, op: Op<T>)
    requires WellFormed(r) && OnTime(r) && Timely(r, op)
    ensures var (q, f) := Apply(r, op);
      && WellFormed(q) && OnTime(q) && q.cur >= r.cur
      && match op
         case Add(id, ts) => forall it :: q.Has(it) <==> it == Item(id, ts) || (r.Has(it) && it.id != id)
         case Poll(t) =>
           && (f.Nothing? <==> forall it :: r.Has(it) ==> it.ts > t)
           && (f.Nothing? ==> q.slots == r.slots)
           && (f.Expired? ==> f.it.ts <= t && r.Has(f.it) && forall it :: q.Has(it) <==> r.Has(it) && it != f.it)
  {
    match op
    case Poll(t) => RemoveFacts(r, t);
    case Add(id, ts) =>
      EraseFacts(r, id);
      LinkFacts(Erase(r, id), Item(id, ts));
  }

  /** The ring after a sequence of calls. */
  function After<T(==)>(r: Ring<T>, ops: seq<Op<T>>): (q: Ring<T>)
    requires r.Size() > 0
    ensures q.Size() == r.Size()
    decreases |ops|
  {
    if ops == [] then r else Apply(After(r, ops[..|ops| - 1]), ops[|ops| - 1]).0
  }

  /** Every add of the run is timely when it happens. */
  ghost predicate TimelyRun<T>(r: Ring<T>, ops: seq<Op<T>>)
    requires r.Size() > 0
  {
    forall k :: 0 <= k < |ops| ==> Timely(After(r, ops[..k]), ops[k])
  }

  ghost predicate Empty<T>(r: Ring<T>) {
    r.Size() > 0 && forall i :: 0 <= i < r.Size() ==> r.slots[i] == []
  }

  /** In every run of timely calls on a ring that starts empty the ring stays well formed
      and on time, so every call of the run does what ApplyFacts says. */
  lemma {:induction false} RunExact<T>(r: Ring<T>, ops: seq<Op<T>>)
    requires Empty(r) && TimelyRun(r, ops)
    ensures WellFormed(After(r, ops)) && OnTime(After(r, ops))
    decreases |ops|
  {
    if ops != [] {
      var k := |ops| - 1;
      var front := ops[..k];
      forall i | 0 <= i < k ensures Timely(After(r, front[..i]), front[i]) {
        assert front[..i] == ops[..i];
        assert Timely(After(r, ops[..i]), ops[i]);
      }
      RunExact(r, front);
      assert Timely(After(r, ops[..k]), ops[k]);
      ApplyFacts(After(r, front), ops[k]);
    }
  }

  // ----- what the calls of a run return -----

  /** What call k of the run hands out. */
  function Returned<T(==)>(r: Ring<T>, ops: seq<Op<T>>, k: nat): Found<T>
    requires r.Size() > 0 && k < |ops|
  {
    Apply(After(r, ops[..k]), ops[k]).1
  }

  /** Call k neither adds the item's id nor hands the item out. */
  ghost predicate Spared<T>(r: Ring<T>, ops: seq<Op<T>>, k: nat, it: Item<T>)
    requires r.Size() > 0 && k < |ops|
  {
    !(ops[k].Add? && ops[k].id == it.id) && Returned(r, ops, k) != Expired(it)
  }

  /** Call a added the item, and up to call k its id was not added again nor was it handed out. */
  ghost predicate WaitingSince<T>(r: Ring<T>, ops: seq<Op<T>>, a: nat, k: nat, it: Item<T>)
    requires r.Size() > 0 && k <= |ops|
  {
    && a < k && ops[a] == Add(it.id, it.ts)
    && forall b :: a < b < k ==> Spared(r, ops, b, it)
  }

  ghost predicate Waiting<T>(r: Ring<T>, ops: seq<Op<T>>, k: nat, it: Item<T>)
    requires r.Size() > 0 && k <= |ops|
  {
    exists a: nat :: WaitingSince(r, ops, a, k, it)
  }

  lemma {:induction false} Prefixes<T>(r: Ring<T>, ops: seq<Op<T>>, k: nat)
    requires Empty(r) && TimelyRun(r, ops) && k <= |ops|
    ensures WellFormed(After(r, ops[..k])) && OnTime(After(r, ops[..k]))
    ensures k < |ops| ==> Timely(After(r, ops[..k]), ops[k])
    ensures k < |ops| ==> After(r, ops[..k + 1]) == Apply(After(r, ops[..k]), ops[k]).0
  {
    forall i | 0 <= i < k ensures Timely(After(r, ops[..k][..i]), ops[..k][i]) {
      assert ops[..k][..i] == ops[..i];
    }
    RunExact(r, ops[..k]);
    if k < |ops| {
      assert ops[..k + 1][..k] == ops[..k];
    }
  }

  /** A call later, a waiting item still waits unless the call adds its id or hands it out. */
  lemma WaitingStep<T>(r: Ring<T>, ops: seq<Op<T>>, k: nat, it: Item<T>)
    requires r.Size() > 0 && k < |ops|
    ensures Waiting(r, ops, k + 1, it) <==>
      ops[k] == Add(it.id, it.ts) || (Waiting(r, ops, k, it) && Spared(r, ops, k, it))
  {
    if Waiting(r, ops, k + 1, it) {
      var a: nat :| WaitingSince(r, ops, a, k + 1, it);
      assert a < k ==> WaitingSince(r, ops, a, k, it);
    }
    if ops[k] == Add(it.id, it.ts) {
      assert WaitingSince(r, ops, k, k + 1, it);
    } else if Waiting(r, ops, k, it) && Spared(r, ops, k, it) {
      var a: nat :| WaitingSince(r, ops, a, k, it);
      assert WaitingSince(r, ops, a, k + 1, it);
    }
  }

  /** The ring holds exactly what was added, not added anew and not handed out since. */
  lemma {:induction false} HoldsWaiting<T>(r: Ring<T>, ops: seq<Op<T>>, k: nat, it: Item<T>)
    requires Empty(r) && TimelyRun(r, ops) && k <= |ops|
    ensures After(r, ops[..k]).Has(it) <==> Waiting(r, ops, k, it)
    decreases k
  {
    if k > 0 {
      HoldsWaiting(r, ops, k - 1, it);
      Prefixes(r, ops, k - 1);
      ApplyFacts(After(r, ops[..k - 1]), ops[k - 1]);
      WaitingStep(r, ops, k - 1, it);
      StepHolds(After(r, ops[..k - 1]), ops[k - 1], it);
    }
  }

  lemma StepHolds<T>(r: Ring<T>, op: Op<T>, it: Item<T>)
    requires WellFormed(r) && OnTime(r) && Timely(r, op)
    ensures var (q, f) := Apply(r, op);
      q.Has(it) <==> op == Add(it.id, it.ts) || (r.Has(it) && !(op.Add? && op.id == it.id) && f != Expired(it))
  {
    ApplyFacts(r, op);
  }

  /** A poll hands out an item that is due and still waits, or nothing, and then exactly when
      every item that still waits is later. */
  lemma {:induction false} PollExact<T>(r: Ring<T>, ops: seq<Op<T>>, k: nat)
    requires Empty(r) && TimelyRun(r, ops) && k < |ops| && ops[k].Poll?
    ensures match Returned(r, ops, k)
      case Expired(it) => it.ts <= ops[k].t && Waiting(r, ops, k, it)
      case Nothing => forall it :: Waiting(r, ops, k, it) ==> it.ts > ops[k].t
  {
    Prefixes(r, ops, k);
    ApplyFacts(After(r, ops[..k]), ops[k]);
    forall it ensures After(r, ops[..k]).Has(it) <==> Waiting(r, ops, k, it) {
      HoldsWaiting(r, ops, k, it);
    }
  }

  /** Between two calls that hand out the same entry it was added again, with whatever timestamp. */
  lemma {:induction false} OncePerAdd<T>(r: Ring<T>, ops: seq<Op<T>>, k: nat, l: nat, x: Item<T>, y: Item<T>)
    requires Empty(r) && TimelyRun(r, ops) && k < l < |ops| && x.id == y.id
    requires Returned(r, ops, k) == Expired(x) && Returned(r, ops, l) == Expired(y)
    ensures exists a :: k < a < l && ops[a] == Add(y.id, y.ts)
  {
    PollExact(r, ops, l);
    var a: nat :| WaitingSince(r, ops, a, l, y);
    if a < k {
      assert Spared(r, ops, k, y);
      OnlyOne(r, ops, a, k, l, x, y);
      assert false;
    }
    assert a != k;
  }

  /** An entry that waited since before call k and one of its id handed out by it are the same. */
  lemma OnlyOne<T>(r: Ring<T>, ops: seq<Op<T>>, a: nat, k: nat, l: nat, x: Item<T>, y: Item<T>)
    requires Empty(r) && TimelyRun(r, ops) && a < k < l < |ops| && x.id == y.id
    requires Returned(r, ops, k) == Expired(x) && WaitingSince(r, ops, a, l, y)
    ensures x == y
  {
    assert WaitingSince(r, ops, a, k, y);
    PollExact(r, ops, k);
    HoldsWaiting(r, ops, k, x);
    HoldsWaiting(r, ops, k, y);
    Prefixes(r, ops, k);
    UniqueId(After(r, ops[..k]), x, y);
  }

  lemma UniqueId<T>(r: Ring<T>, x: Item<T>, y: Item<T>)
    requires WellFormed(r) && r.Has(x) && r.Has(y) && x.id == y.id
    ensures x == y
  {
    var i, j := x.ts % r.Size(), y.ts % r.Size();
    var k :| 0 <= k < |r.slots[i]| && r.slots[i][k] == x;
    var l :| 0 <= l < |r.slots[j]| && r.slots[j][l] == y;
    assert r.slots[i][k].id == r.slots[j][l].id;
  }

  // ----- adding below the index -----

  /** Something due is found, whatever the time. */
  ghost predicate Prompt<T(!new)>(r: Ring<T>)
    requires r.Size() > 0
  {
    forall t: nat, it :: r.Has(it) && it.ts <= t ==> Remove(r, t).1.Expired?
  }

  /** An entry below the index is not handed out while the time stays below the index. */
  lemma {:induction false} LateAddIsMissed<T>(r: Ring<T>, id: T, ts: nat, t: nat)
    requires WellFormed(r) && ts <= t < r.cur
    ensures var q := Apply(r, Add(id, ts)).0;
      q.Has(Item(id, ts)) && Apply(q, Poll(t)).1 == Nothing
  {
    EraseFacts(r, id);
    LinkFacts(Erase(r, id), Item(id, ts));
  }

  /** A ring finds whatever is due exactly when nothing in it lies below the index. */
  lemma {:induction false} PromptExactly<T(!new)>(r: Ring<T>)
    requires WellFormed(r)
    ensures Prompt(r) <==> OnTime(r)
  {
    if OnTime(r) {
      forall t: nat, it | r.Has(it) && it.ts <= t ensures Remove(r, t).1.Expired? {
        RemoveFacts(r, t);
      }
    } else {
      var i, j :| 0 <= i < r.Size() && 0 <= j < |r.slots[i]| && r.slots[i][j].ts < r.cur;
      var it := r.slots[i][j];
      assert it.ts % r.Size() == i;
      assert r.Has(it) && Remove(r, it.ts).1 == Nothing;
    }
  }

  /** An add keeps that promise exactly when its timestamp is not below the index. */
  lemma {:induction false} AddKeepsPromptExactly<T(!new)>(r: Ring<T>, id: T, ts: nat)
    requires WellFormed(r) && OnTime(r)
    ensures Prompt(Apply(r, Add(id, ts)).0) <==> ts >= r.cur
  {
    var e, it := Erase(r, id), Item(id, ts);
    EraseFacts(r, id);
    LinkFacts(e, it);
    PromptExactly(Link(e, it));
    if ts < r.cur {
      assert Link(e, it).slots[ts % r.Size()][0] == it;
    }
  }
}
