/** The timeout ring in memory: an array of intrusive doubly linked lists whose back links
    name the location that points at the entry. */
module TimeoutRing {
  import opened Words
  import opened TimeoutSpec

  /** `prev`: the address of a slot or of another entry's `next`. */
  datatype Link = NoLink | SlotLink(slots: array<TimeoutEntry?>, index: nat) | NextLink(owner: TimeoutEntry)

  class TimeoutEntry {
    var timestamp: nat
    var next: TimeoutEntry?
    var prev: Link
    var offset: nat

    /** timeout_init */
    constructor ()
      ensures next == null && prev == NoLink
    {
      next, prev := null, NoLink;
      timestamp, offset := 0, 0;
    }
  }

  const SLOTS: nat := 1024 * 1024

  /** `list` is linked up correctly as slot `i` of the array. */
  ghost predicate SlotOk(slots: array<TimeoutEntry?>, i: nat, list: seq<TimeoutEntry>)
    reads slots, list
  {
    && i < slots.Length
    && slots[i] == (if list == [] then null else list[0])
    && (forall j :: 0 <= j < |list| ==> EntryOk(slots, i, list, j))
    && (forall j, k :: 0 <= j < k < |list| ==> list[j] != list[k])
  }

  ghost predicate EntryOk(slots: array<TimeoutEntry?>, i: nat, list: seq<TimeoutEntry>, j: nat)
    requires j < |list| && i < slots.Length
    reads list
  {
    && list[j].next == (if j + 1 < |list| then list[j + 1] else null)
    && list[j].prev == (if j == 0 then SlotLink(slots, i) else NextLink(list[j - 1]))
    && list[j].timestamp % slots.Length == i
  }

  /** The list around position j, which is being taken out. */
  ghost predicate GapOk(slots: array<TimeoutEntry?>, i: nat, list: seq<TimeoutEntry>, j: nat)
    requires j < |list|
    reads slots, list
  {
    && i < slots.Length
    && slots[i] == (if j > 0 then list[0] else if j + 1 < |list| then list[j + 1] else null)
    && (forall m :: 0 <= m < |list| && m != j ==> GapAt(slots, i, list, j, m))
    && (forall m, l :: 0 <= m < l < |list| ==> list[m] != list[l])
  }

  ghost predicate GapAt(slots: array<TimeoutEntry?>, i: nat, list: seq<TimeoutEntry>, j: nat, m: nat)
    requires j < |list| && m < |list| && i < slots.Length
    reads list
  {
    var succ, pred := if m + 1 == j then j + 1 else m + 1, if m == j + 1 then j - 1 else m - 1;
    && list[m].next == (if succ < |list| then list[succ] else null)
    && list[m].prev == (if pred < 0 then SlotLink(slots, i) else NextLink(list[pred]))
    && list[m].timestamp % slots.Length == i
  }

  lemma GapClosed(slots: array<TimeoutEntry?>, i: nat, list: seq<TimeoutEntry>, j: nat)
    requires j < |list| && GapOk(slots, i, list, j)
    ensures SlotOk(slots, i, Without(list, j))
  {
    var rest := Without(list, j);
    forall l | 0 <= l < |rest| ensures EntryOk(slots, i, rest, l) {
      assert GapAt(slots, i, list, j, if l >= j then l + 1 else l);
    }
  }

  ghost function Items(list: seq<TimeoutEntry>): (s: seq<Item<TimeoutEntry>>)
    reads list
    ensures |s| == |list|
  {
    seq(|list|, j requires 0 <= j < |list| reads list => Item(list[j], list[j].timestamp))
  }

  class Timeouts {
    var currentIndex: nat
    const mask: nat
    const slots: array<TimeoutEntry?>
    ghost var lists: seq<seq<TimeoutEntry>>

    ghost function Entries(): set<TimeoutEntry>
      reads this
    {
      set i, j | 0 <= i < |lists| && 0 <= j < |lists[i]| :: lists[i][j]
    }

    ghost predicate Valid()
      reads this, slots, Entries()
    {
      && slots.Length == |lists| == mask + 1 == SLOTS
      && forall i :: 0 <= i < |lists| ==> SlotOk(slots, i, lists[i])
    }

    /** The ring as a value: which entries wait where, with which timestamps. */
    ghost function Abs(): (r: Ring<TimeoutEntry>)
      reads this, Entries()
      ensures r.Size() == |lists| && r.cur == currentIndex
    {
      Ring(currentIndex, seq(|lists|, i requires 0 <= i < |lists| reads this, Entries() =>
        assert forall e :: e in lists[i] ==> e in Entries();
        Items(lists[i])))
    }

    /** What the entry's back link names holds the entry. */
    ghost predicate Held(e: TimeoutEntry)
      reads this, slots, e, Entries()
    {
      match e.prev
      case NoLink => false
      case SlotLink(a, i) => a == slots && i < slots.Length && slots[i] == e
      case NextLink(owner) => owner in Entries() && owner.next == e
    }

    lemma {:induction false} AbsWellFormed()
      requires Valid()
      ensures WellFormed(Abs())
      ensures forall e :: e in Entries() ==> Held(e)
    {
      var r := Abs();
      forall i, j | 0 <= i < r.Size() && 0 <= j < |r.slots[i]|
        ensures r.slots[i][j].ts % r.Size() == i && r.slots[i][j].id == lists[i][j]
        ensures lists[i][j].timestamp % |lists| == i
      {
        assert SlotOk(slots, i, lists[i]) && EntryOk(slots, i, lists[i], j);
      }
      forall e | e in Entries() ensures Held(e) {
        BackLink(e);
      }
    }

    lemma BackLink(e: TimeoutEntry)
      requires Valid() && e in Entries()
      ensures Held(e)
    {
      var i, j :| 0 <= i < |lists| && 0 <= j < |lists[i]| && lists[i][j] == e;
      assert SlotOk(slots, i, lists[i]) && EntryOk(slots, i, lists[i], j);
      if j > 0 {
        assert EntryOk(slots, i, lists[i], j - 1) && lists[i][j - 1] in Entries();
      }
    }

    /** Index in the ring by masking. */
    lemma Masked(c: nat)
      requires slots.Length == mask + 1 == SLOTS
      ensures And(c, mask) == c % slots.Length
    {
      assert Pow2(10) == 1024;
      Pow2Add(10, 10);
      MaskIsMod(c, 20);
    }

    /** timeouts_create */
    constructor (timestamp: nat)
      ensures Valid() && currentIndex == timestamp && fresh(slots)
      ensures Entries() == {} && Empty(Abs())
    {
      currentIndex := timestamp;
      mask := SLOTS - 1;
      slots := new TimeoutEntry?[SLOTS](_ => null);
      lists := seq(SLOTS, _ => []);
      new;
      forall i | 0 <= i < |lists| ensures SlotOk(slots, i, lists[i]) && Abs().slots[i] == [] {
      }
    }

    /** timeout_unlink: takes the entry out of whatever list it is in. */
    method Unlink(entry: TimeoutEntry)
      requires Valid()
      requires entry in Entries() || (entry.prev == NoLink && entry.next == null)
      modifies this`lists, slots, Entries(), entry
      ensures Valid() && Entries() == old(Entries()) - {entry}
      ensures Abs() == Erase(old(Abs()), entry)
      ensures entry.prev == NoLink && entry.next == null
    {
      AbsWellFormed();
      if entry.prev == NoLink && entry.next == null {
        NotLinked(entry);
        EraseAbsent(Abs(), entry);
        return;
      }
      ghost var i, j :| 0 <= i < |lists| && 0 <= j < |lists[i]| && lists[i][j] == entry;
      ErasePresent(Abs(), i, j);
      assert Abs().slots[i][j].id == entry;
      Detach(entry, i, j);
    }

    /** The writes of timeout_unlink: the list closes over position j. */
    method Splice(entry: TimeoutEntry, ghost i: nat, ghost j: nat)
      requires Valid() && i < |lists| && j < |lists[i]| && lists[i][j] == entry
      modifies slots, Entries()
      ensures entry.next == null && entry.prev == NoLink
      ensures forall k :: 0 <= k < |lists| && k != i ==> SlotOk(slots, k, lists[k])
      ensures GapOk(slots, i, lists[i], j)
      ensures forall k, m | 0 <= k < |lists| && 0 <= m < |lists[k]| && (k != i || m != j) ::
        lists[k][m].timestamp == old(lists[k][m].timestamp)
    {
      assert SlotOk(slots, i, lists[i]) && EntryOk(slots, i, lists[i], j);
      AllApart(i, j);
      if j > 0 {
        AllApart(i, j - 1);
      }
      if j + 1 < |lists[i]| {
        AllApart(i, j + 1);
      }
      match entry.prev {
        case SlotLink(s, k) => s[k] := entry.next;
        case NextLink(p) => p.next := entry.next;
      }
      if entry.next != null {
        entry.next.prev := entry.prev;
      }
      entry.next := null;
      entry.prev := NoLink;
      entry.timestamp := 0;
      forall k | 0 <= k < |lists| && k != i ensures SlotOk(slots, k, lists[k]) {
        assert old(SlotOk(slots, k, lists[k]));
        forall l | 0 <= l < |lists[k]| ensures EntryOk(slots, k, lists[k], l) {
          assert old(EntryOk(slots, k, lists[k], l));
        }
      }
      forall m | 0 <= m < |lists[i]| && m != j ensures GapAt(slots, i, lists[i], j, m) {
        assert old(EntryOk(slots, i, lists[i], m));
      }
    }

    method Detach(entry: TimeoutEntry, ghost i: nat, ghost j: nat)
      requires Valid() && i < |lists| && j < |lists[i]| && lists[i][j] == entry
      modifies this`lists, slots, Entries()
      ensures Valid() && Entries() == old(Entries()) - {entry}
      ensures Abs() == Take(old(Abs()), i, j)
      ensures entry.prev == NoLink && entry.next == null
    {
      assert EntryOk(slots, i, lists[i], j);
      ghost var before, ring := lists, Abs();
      AllApart(i, j);
      Splice(entry, i, j);
      lists := lists[i := Without(lists[i], j)];
      GapClosed(slots, i, before[i], j);
      EntriesWithout(before, i, j);
      AbsWithout(before, ring, i, j);
    }

    /** Taking one entry out of the lists. */
    lemma EntriesWithout(before: seq<seq<TimeoutEntry>>, i: nat, j: nat)
      requires i < |before| && j < |before[i]| && lists == before[i := Without(before[i], j)]
      requires forall k, m | 0 <= k < |before| && 0 <= m < |before[k]| ::
        k != i || m != j ==> before[k][m] != before[i][j]
      ensures Entries() == (set k, m | 0 <= k < |before| && 0 <= m < |before[k]| :: before[k][m]) - {before[i][j]}
    {
      var all := set k, m | 0 <= k < |before| && 0 <= m < |before[k]| :: before[k][m];
      forall e | e in all && e != before[i][j] ensures e in Entries() {
        var k, m :| 0 <= k < |before| && 0 <= m < |before[k]| && before[k][m] == e;
        assert lists[k][if k == i && m > j then m - 1 else m] == e;
      }
      forall e | e in Entries() ensures e in all && e != before[i][j] {
        var k, l :| 0 <= k < |lists| && 0 <= l < |lists[k]| && lists[k][l] == e;
        assert before[k][if k == i && l >= j then l + 1 else l] == e;
      }
    }

    lemma AbsWithout(before: seq<seq<TimeoutEntry>>, ring: Ring<TimeoutEntry>, i: nat, j: nat)
      requires i < |before| == ring.Size() && j < |before[i]| && lists == before[i := Without(before[i], j)]
      requires ring.cur == currentIndex
      requires forall k :: 0 <= k < |before| ==> |ring.slots[k]| == |before[k]|
      requires forall k, l :: 0 <= k < |before| && 0 <= l < |before[k]| && (k != i || l != j) ==>
        ring.slots[k][l] == Item(before[k][l], before[k][l].timestamp)
      ensures Abs() == Take(ring, i, j)
    {
      var goal := Take(ring, i, j);
      forall k | 0 <= k < |lists| ensures Abs().slots[k] == goal.slots[k] {
        forall l | 0 <= l < |lists[k]| ensures Abs().slots[k][l] == goal.slots[k][l] {
          var m := if k == i && l >= j then l + 1 else l;
          assert lists[k][l] == before[k][m] && goal.slots[k][l] == ring.slots[k][m];
        }
      }
      assert Abs().slots == goal.slots;
    }

    /** Entries at different places are different. */
    lemma AllApart(i: nat, j: nat)
      requires Valid() && i < |lists| && j < |lists[i]|
      ensures forall k, m | 0 <= k < |lists| && 0 <= m < |lists[k]| && (k != i || m != j) :: lists[k][m] != lists[i][j]
    {
      assert EntryOk(slots, i, lists[i], j);
      forall k, m | 0 <= k < |lists| && 0 <= m < |lists[k]| && (k != i || m != j) ensures lists[k][m] != lists[i][j] {
        assert EntryOk(slots, k, lists[k], m);
      }
    }

    lemma NotLinked(entry: TimeoutEntry)
      requires Valid() && entry.prev == NoLink
      ensures entry !in Entries() && Absent(Abs(), entry)
    {
      forall i, j | 0 <= i < |lists| && 0 <= j < |lists[i]| ensures lists[i][j] != entry {
        assert EntryOk(slots, i, lists[i], j);
      }
    }

    /** timeouts_add: moves or inserts the entry in front of the slot of its timestamp. */
    method Add(entry: TimeoutEntry, offset: nat, timestamp: nat)
      requires Valid()
      requires entry in Entries() || (entry.prev == NoLink && entry.next == null)
      modifies this`lists, slots, Entries(), entry
      ensures Valid() && Entries() == old(Entries()) + {entry} && entry.offset == offset
      ensures Abs() == Apply(old(Abs()), Op.Add(entry, timestamp)).0
    {
      Unlink(entry);
      AbsWellFormed();
      InsertFront(entry, offset, timestamp);
    }

    method InsertFront(entry: TimeoutEntry, offset: nat, timestamp: nat)
      requires Valid() && entry !in Entries()
      modifies this`lists, slots, Entries(), entry
      ensures Valid() && Entries() == old(Entries()) + {entry} && entry.offset == offset
      ensures Abs() == TimeoutSpec.Link(old(Abs()), Item(entry, timestamp))
    {
      ghost var ring, before := Abs(), lists;
      Hook(entry, offset, timestamp);
      ghost var index := timestamp % |lists|;
      lists := lists[index := [entry] + lists[index]];
      EntriesWith(before, entry, index);
      AbsWith(before, ring, entry, index);
    }

    /** The writes of timeouts_add. */
    method Hook(entry: TimeoutEntry, offset: nat, timestamp: nat)
      requires Valid() && entry !in Entries()
      modifies slots, Entries(), entry
      ensures entry.timestamp == timestamp && entry.offset == offset
      ensures var index := timestamp % |lists|;
        && SlotOk(slots, index, [entry] + lists[index])
        && forall k :: 0 <= k < |lists| && k != index ==> SlotOk(slots, k, lists[k])
      ensures forall k, m | 0 <= k < |lists| && 0 <= m < |lists[k]| ::
        lists[k][m].timestamp == old(lists[k][m].timestamp)
    {
      Masked(timestamp);
      var index := And(timestamp, mask);
      ghost var list := lists[index];
      assert SlotOk(slots, index, list);
      NotIn(entry);
      if list != [] {
        AllApart(index, 0);
      }
      entry.timestamp := timestamp;
      entry.offset := offset;
      entry.next := slots[index];
      slots[index] := entry;
      entry.prev := SlotLink(slots, index);
      if entry.next != null {
        entry.next.prev := NextLink(entry);
      }
      forall k | 0 <= k < |lists| && k != index ensures SlotOk(slots, k, lists[k]) {
        assert old(SlotOk(slots, k, lists[k]));
        forall l | 0 <= l < |lists[k]| ensures EntryOk(slots, k, lists[k], l) {
          assert old(EntryOk(slots, k, lists[k], l));
        }
      }
      ghost var longer := [entry] + list;
      forall l | 0 <= l < |longer| ensures EntryOk(slots, index, longer, l) {
        if l > 0 {
          assert old(EntryOk(slots, index, list, l - 1));
        }
      }
    }

    lemma NotIn(entry: TimeoutEntry)
      requires entry !in Entries()
      ensures forall k, m | 0 <= k < |lists| && 0 <= m < |lists[k]| :: lists[k][m] != entry
    {
      forall k, m | 0 <= k < |lists| && 0 <= m < |lists[k]| ensures lists[k][m] != entry {
        assert lists[k][m] in Entries();
      }
    }

    lemma EntriesWith(before: seq<seq<TimeoutEntry>>, entry: TimeoutEntry, index: nat)
      requires index < |before| && lists == before[index := [entry] + before[index]]
      ensures Entries() == (set k, m | 0 <= k < |before| && 0 <= m < |before[k]| :: before[k][m]) + {entry}
    {
      var all := set k, m | 0 <= k < |before| && 0 <= m < |before[k]| :: before[k][m];
      forall e | e in all ensures e in Entries() {
        var k, m :| 0 <= k < |before| && 0 <= m < |before[k]| && before[k][m] == e;
        assert lists[k][if k == index then m + 1 else m] == e;
      }
      assert lists[index][0] == entry;
      forall e | e in Entries() ensures e in all || e == entry {
        var k, l :| 0 <= k < |lists| && 0 <= l < |lists[k]| && lists[k][l] == e;
        if k == index && l > 0 {
          assert before[k][l - 1] == e;
        } else if k != index {
          assert before[k][l] == e;
        }
      }
    }

    lemma AbsWith(before: seq<seq<TimeoutEntry>>, ring: Ring<TimeoutEntry>, entry: TimeoutEntry, index: nat)
      requires index < |before| == ring.Size() && lists == before[index := [entry] + before[index]]
      requires entry.timestamp % |before| == index && ring.cur == currentIndex
      requires forall k :: 0 <= k < |before| ==> |ring.slots[k]| == |before[k]|
      requires forall k, l :: 0 <= k < |before| && 0 <= l < |before[k]| ==>
        ring.slots[k][l] == Item(before[k][l], before[k][l].timestamp)
      ensures Abs() == TimeoutSpec.Link(ring, Item(entry, entry.timestamp))
    {
      var goal := TimeoutSpec.Link(ring, Item(entry, entry.timestamp));
      forall k | 0 <= k < |lists| ensures Abs().slots[k] == goal.slots[k] {
        forall l | 0 <= l < |lists[k]| ensures Abs().slots[k][l] == goal.slots[k][l] {
          var m := if k == index then l - 1 else l;
          if m >= 0 {
            assert lists[k][l] == before[k][m] && goal.slots[k][l] == ring.slots[k][m];
          }
        }
      }
      assert Abs().slots == goal.slots;
    }

    /** timeouts_remove: the next entry that is due, out of the ring; null when none is. */
    method Remove(timestamp: nat) returns (entry: TimeoutEntry?)
      requires Valid()
      modifies this`currentIndex, this`lists, slots, Entries()
      ensures Valid()
      ensures var (q, f) := TimeoutSpec.Remove(old(Abs()), timestamp);
        && Abs() == q
        && (f.Nothing? <==> entry == null)
        && (entry != null ==> entry == f.it.id)
      ensures Entries() == if entry == null then old(Entries()) else old(Entries()) - {entry}
    {
      ghost var j, g;
      entry, j, g := Locate(timestamp);
      if entry != null {
        Detach(entry, currentIndex % |lists|, j);
      }
    }

    /** The search of timeouts_remove: the index stops at the first slot with a due entry. */
    method Locate(timestamp: nat) returns (entry: TimeoutEntry?, ghost j: nat, ghost g: Ring<TimeoutEntry>)
      requires Valid()
      modifies this`currentIndex
      ensures Valid() && g == Abs() && lists == old(lists)
      ensures var i, o := currentIndex % |lists|, TimeoutSpec.Remove(old(Abs()), timestamp);
        if entry == null then o == (g, Nothing)
        else
          && j < |lists[i]| == |g.slots[i]| && lists[i][j] == entry == g.slots[i][j].id
          && o == (Take(g, i, j), Expired(g.slots[i][j]))
    {
      entry, j, g := null, 0, Abs();
      ghost var goal := TimeoutSpec.Remove(g, timestamp);
      while currentIndex <= timestamp
        invariant Valid() && g == Abs() && lists == old(lists)
        invariant entry == null && goal == TimeoutSpec.Remove(g, timestamp)
        decreases timestamp + 1 - currentIndex
      {
        RemoveStep(g, timestamp);
        entry, j := FindDue(timestamp);
        if entry != null {
          return;
        }
        Advance();
        g := g.(cur := currentIndex);
      }
    }

    /** One turn of the loop, on the value. */
    static lemma RemoveStep(r: Ring<TimeoutEntry>, t: nat)
      requires r.Size() > 0 && r.cur <= t
      ensures var i, j := r.cur % r.Size(), FirstDue(r.At(r.cur), t);
        && r.At(r.cur) == r.slots[i]
        && TimeoutSpec.Remove(r, t) ==
           if j < |r.slots[i]| then (Take(r, i, j), Expired(r.slots[i][j]))
           else TimeoutSpec.Remove(r.(cur := r.cur + 1), t)
    {
    }

    method Advance()
      requires Valid()
      modifies this`currentIndex
      ensures Valid() && currentIndex == old(currentIndex) + 1
      ensures Abs() == old(Abs()).(cur := currentIndex)
    {
      currentIndex := currentIndex + 1;
      assert Abs().slots == old(Abs()).slots;
    }

    /** The first due entry of the current slot's list. */
    method FindDue(timestamp: nat) returns (entry: TimeoutEntry?, ghost j: nat)
      requires Valid()
      ensures var i := currentIndex % |lists|;
        && j == FirstDue(Abs().slots[i], timestamp) <= |lists[i]| == |Abs().slots[i]|
        && (j < |lists[i]| ==> Abs().slots[i][j].id == lists[i][j])
        && entry == (if j < |lists[i]| then lists[i][j] else null)
      ensures entry != null ==> entry.timestamp <= timestamp
    {
      Masked(currentIndex);
      ghost var i := currentIndex % |lists|;
      assert SlotOk(slots, i, lists[i]);
      entry, j := slots[And(currentIndex, mask)], 0;
      while entry != null && entry.timestamp > timestamp
        invariant j <= |lists[i]| && entry == (if j < |lists[i]| then lists[i][j] else null)
        invariant forall k :: 0 <= k < j ==> lists[i][k].timestamp > timestamp
        decreases |lists[i]| - j
      {
        assert EntryOk(slots, i, lists[i], j);
        entry := entry.next;
        j := j + 1;
      }
      DueAt(i, j, timestamp);
    }

    lemma DueAt(i: nat, j: nat, t: nat)
      requires Valid() && i < |lists| && j <= |lists[i]|
      requires forall k :: 0 <= k < j ==> lists[i][k].timestamp > t
      requires j < |lists[i]| ==> lists[i][j].timestamp <= t
      ensures FirstDue(Abs().slots[i], t) == j
    {
      var s := Abs().slots[i];
      assert forall k :: 0 <= k < |s| ==> s[k].ts == lists[i][k].timestamp;
    }
  }
}
