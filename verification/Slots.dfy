/** Storage indices: `storages_` and `free_slots_` under `new_torrent` and `remove_torrent`. */
module StorageSlots {

  datatype Slots<V> = Slots(storages: map<nat, V>, free: seq<nat>) {
    function Extent(): nat {
      |storages| + |free|
    }

    /** Live indices and free slots are disjoint, duplicate-free and together exactly 0..n-1. */
    ghost predicate Valid() {
      && (forall i, j :: 0 <= i < j < |free| ==> free[i] != free[j])
      && (forall i :: 0 <= i < |free| ==> free[i] !in storages)
      && (forall idx: nat :: idx in storages || idx in free <==> idx < Extent())
    }

    function NextIndex(): nat {
      if free == [] then |storages| else free[0]
    }

    /** `new_torrent`; `emplace` leaves an existing entry alone. */
    function Add(v: V): Slots<V> {
      Slots(if NextIndex() in storages then storages else storages[NextIndex() := v],
            if free == [] then [] else free[1..])
    }

    /** `remove_torrent`; removing an index that is not live still pushes it. */
    function Remove(idx: nat): Slots<V> {
      Slots(storages - {idx}, free + [idx])
    }

    lemma NextIsFresh()
      requires Valid()
      ensures NextIndex() !in storages && (free == [] ==> NextIndex() == Extent())
    {
      if free == [] {
        assert NextIndex() !in free && !(NextIndex() < Extent());
      } else {
        assert free[0] in free;
      }
    }

    lemma Added(v: V)
      requires NextIndex() !in storages
      ensures var s := Add(v);
        && s.storages == storages[NextIndex() := v] && |s.storages| == |storages| + 1
        && forall i: nat :: i in s.storages || i in s.free <==> i in storages || i in free || i == NextIndex()
    {
      var s := Add(v);
      assert s.storages.Keys == storages.Keys + {NextIndex()};
      assert |s.storages.Keys| == |storages.Keys| + 1;
      if free != [] {
        assert free == [free[0]] + free[1..];
      }
    }

    lemma AddKeepsValid(v: V)
      requires Valid()
      ensures NextIndex() !in storages
      ensures Add(v).Valid() && Add(v).storages == storages[NextIndex() := v]
      ensures Add(v).Extent() == if free == [] then Extent() + 1 else Extent()
      ensures NextIndex() < Add(v).Extent()
    {
      NextIsFresh();
      Added(v);
      if free != [] {
        assert free[0] in free;
      }
      assert forall i :: 0 <= i < |Add(v).free| ==> Add(v).free[i] == free[i + 1];
    }

    lemma Removed(idx: nat)
      ensures var s := Remove(idx); forall i: nat :: i in s.storages || i in s.free <==> i in storages || i in free || i == idx
      ensures var s := Remove(idx); |s.free| == |free| + 1 && s.free[|free|] == idx && forall k :: 0 <= k < |free| ==> s.free[k] == free[k]
      ensures |Remove(idx).storages| == if idx in storages then |storages| - 1 else |storages|
    {
      var s := Remove(idx);
      assert s.free[|free|] == idx;
      if idx in storages {
        assert s.storages.Keys == storages.Keys - {idx};
        assert |s.storages.Keys| + 1 == |storages.Keys|;
      } else {
        assert s.storages == storages;
      }
    }

    lemma RemoveOk(idx: nat)
      requires Valid() && (idx in storages || idx == Extent())
      ensures Remove(idx).Valid()
    {
      var s := Remove(idx);
      Removed(idx);
      assert idx !in free by {
        assert idx in storages || idx in free <==> idx < Extent();
      }
      forall i: nat ensures i in s.storages || i in s.free <==> i < s.Extent() {
        assert i in storages || i in free <==> i < Extent();
      }
    }

    lemma RemoveBad(idx: nat)
      requires Valid() && idx !in storages && idx != Extent()
      ensures !Remove(idx).Valid()
    {
      var s := Remove(idx);
      Removed(idx);
      if k :| 0 <= k < |free| && free[k] == idx {
        assert s.free[k] == s.free[|free|];
      } else {
        assert !(Extent() in storages || Extent() in free);
        assert Extent() < s.Extent() && !(Extent() in s.storages || Extent() in s.free);
      }
    }

    /** Valid slots stay valid exactly when the index is live, or is the next never-used one. */
    lemma RemoveKeepsValid(idx: nat)
      requires Valid()
      ensures Remove(idx).Valid() <==> idx in storages || idx == Extent()
      ensures idx in storages ==> Remove(idx).Extent() == Extent() && |Remove(idx).storages| + 1 == |storages|
    {
      Removed(idx);
      if idx in storages || idx == Extent() {
        RemoveOk(idx);
      } else {
        RemoveBad(idx);
      }
    }
  }

  datatype SlotOp<V> = AddOne(v: V) | RemoveOne(idx: nat)

  /** Adds, and removes of live storages, from the empty state. */
  ghost predicate IsSlotRun<V>(ss: seq<Slots<V>>, ops: seq<SlotOp<V>>) {
    && |ss| == |ops| + 1 && ss[0] == Slots(map[], [])
    && forall i :: 0 <= i < |ops| ==>
      match ops[i]
      case AddOne(v) => ss[i + 1] == ss[i].Add(v)
      case RemoveOne(idx) => idx in ss[i].storages && ss[i + 1] == ss[i].Remove(idx)
  }

  /** The indices freed by the first `n` operations, in order. */
  function Freed<V>(ops: seq<SlotOp<V>>, n: nat): seq<nat>
    requires n <= |ops|
  {
    if n == 0 then [] else Freed(ops, n - 1) + if ops[n - 1].RemoveOne? then [ops[n - 1].idx] else []
  }

  /** The indices handed out a second time by the first `n` operations, in order: those below the slots ever made. */
  function Reused<V>(ss: seq<Slots<V>>, ops: seq<SlotOp<V>>, n: nat): seq<nat>
    requires n <= |ops| && n <= |ss|
  {
    if n == 0 then [] else Reused(ss, ops, n - 1) + Reuse(ss[n - 1], ops[n - 1])
  }

  /** An index that is handed out a second time is the one that has been free for longest. */
  lemma AddTakesFirst<V>(s: Slots<V>, v: V)
    requires s.Valid()
    ensures s.free == (if s.NextIndex() < s.Extent() then [s.NextIndex()] else []) + s.Add(v).free
  {
    s.NextIsFresh();
    if s.free != [] {
      assert s.free[0] in s.free && s.free[0] < s.Extent();
      assert s.free == [s.free[0]] + s.free[1..];
    }
  }

  lemma ValidAt<V>(ss: seq<Slots<V>>, ops: seq<SlotOp<V>>, n: nat)
    requires IsSlotRun(ss, ops) && n <= |ops|
    ensures ss[n].Valid()
  {
    var _ := IndicesBelowPeak(ss, ops, n);
  }

  /** The index that the next addition hands out a second time, if it does. */
  function Reuse<V>(s: Slots<V>, op: SlotOp<V>): seq<nat> {
    if op.AddOne? && s.NextIndex() < s.Extent() then [s.NextIndex()] else []
  }

  lemma AddOrder<V>(freed: seq<nat>, reused: seq<nat>, s: Slots<V>, v: V)
    requires s.Valid() && freed == reused + s.free
    ensures freed == reused + Reuse(s, AddOne(v)) + s.Add(v).free
  {
    AddTakesFirst(s, v);
  }

  lemma RemoveOrder<V>(freed: seq<nat>, reused: seq<nat>, s: Slots<V>, idx: nat)
    requires freed == reused + s.free
    ensures freed + [idx] == reused + Reuse(s, RemoveOne(idx)) + s.Remove(idx).free
  {
  }

  /** First freed, first reused: what has been freed is what has been reused so far, and then what is still free. */
  lemma {:induction false} ReusedInOrder<V>(ss: seq<Slots<V>>, ops: seq<SlotOp<V>>, n: nat)
    requires IsSlotRun(ss, ops) && n <= |ops|
    ensures Freed(ops, n) == Reused(ss, ops, n) + ss[n].free
  {
    if n > 0 {
      var op, freed, reused := ops[n - 1], Freed(ops, n - 1), Reused(ss, ops, n - 1);
      ReusedInOrder(ss, ops, n - 1);
      if op.AddOne? {
        ValidAt(ss, ops, n - 1);
        assert ss[n - 1 + 1] == ss[n - 1].Add(op.v);
        AddOrder(freed, reused, ss[n - 1], op.v);
        assert Freed(ops, n) == freed + [] == freed;
      } else {
        assert ss[n - 1 + 1] == ss[n - 1].Remove(op.idx);
        RemoveOrder(freed, reused, ss[n - 1], op.idx);
      }
    }
  }

  /** The slots in use or free are as many as were ever live at once, so indices stay below that peak. */
  lemma {:induction false} IndicesBelowPeak<V>(ss: seq<Slots<V>>, ops: seq<SlotOp<V>>, n: nat) returns (peak: nat)
    requires IsSlotRun(ss, ops) && n <= |ops|
    ensures ss[n].Valid()
    ensures peak <= n && |ss[peak].storages| == ss[n].Extent()
    ensures forall m :: 0 <= m <= n ==> |ss[m].storages| <= ss[n].Extent()
    ensures forall idx: nat :: idx in ss[n].storages ==> idx < |ss[peak].storages|
    ensures n < |ops| && ops[n].AddOne? ==> ss[n].NextIndex() !in ss[n].storages
  {
    if n == 0 {
      peak := 0;
    } else {
      peak := IndicesBelowPeak(ss, ops, n - 1);
      var before := ss[n - 1];
      match ops[n - 1] {
        case AddOne(v) =>
          before.AddKeepsValid(v);
          assert ss[n - 1 + 1] == before.Add(v);
          if before.free == [] {
            peak := n;
          }
        case RemoveOne(idx) =>
          before.RemoveKeepsValid(idx);
          assert ss[n - 1 + 1] == before.Remove(idx);
      }
    }
    if n < |ops| && ops[n].AddOne? {
      ss[n].AddKeepsValid(ops[n].v);
    }
  }

  /** The two maps of `raw_disk_io` that these operations change. */
  class StorageTable<V> {
    var storages: map<nat, V>
    var freeSlots: seq<nat>

    function State(): Slots<V>
      reads this
    {
      Slots(storages, freeSlots)
    }

    constructor ()
      ensures State() == Slots(map[], []) && State().Valid()
    {
      storages, freeSlots := map[], [];
    }

    method NewTorrent(storage: V) returns (idx: nat)
      modifies this
      ensures State() == old(State()).Add(storage) && idx == old(State()).NextIndex()
      ensures old(State()).Valid() ==>
        State().Valid() && idx !in old(storages) && storages == old(storages)[idx := storage]
    {
      ghost var before := State();
      idx := |storages|;
      if freeSlots != [] {
        idx := freeSlots[0];
        freeSlots := freeSlots[1..];
      }
      if idx !in storages {
        storages := storages[idx := storage];
      }
      if before.Valid() {
        before.AddKeepsValid(storage);
      }
    }

    method RemoveTorrent(idx: nat)
      modifies this
      ensures State() == old(State()).Remove(idx)
      ensures old(State()).Valid() && idx in old(storages) ==> State().Valid()
    {
      ghost var before := State();
      storages := storages - {idx};
      freeSlots := freeSlots + [idx];
      if before.Valid() {
        before.RemoveKeepsValid(idx);
      }
    }
  }
}
