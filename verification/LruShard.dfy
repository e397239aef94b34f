/** A shard of the LRU cache. All operations run under one mutex, so each is atomic. */
module LruShard {
  import opened Basics
  import opened LruTable
  import opened LruList
  import opened LruHandles

  /** The same handles but for the pool they are in. */
  ghost predicate SameButPool(handles: Handles, handles': Handles) {
    handles'.Keys == handles.Keys && forall id :: id in handles ==>
        handles'[id] == handles[id].(inPool := handles'[id].inPool)
  }

  lemma EmptyConsistent()
    ensures Consistent(View(map[], [], map[], multiset{}, 1, [])) && Total(map[]) == 0 && PoolsOk(map[], [], 0)
            && NoDuplicates([])
  {
  }

  lemma PoolIsSeparate(v: View, handles': Handles)
    requires Consistent(v) && SameButPool(v.handles, handles')
    ensures Consistent(v.(handles := handles'))
  {
    var v' := v.(handles := handles');
    forall id | id in v'.handles
      ensures HandleOk(v', id)
    {
      assert HandleOk(v, id);
    }
    forall id: nat
      ensures FreedOk(v', id)
    {
      assert FreedOk(v, id);
    }
  }

  /** As few entries as possible, the oldest ones, have left the high priority pool to make it fit: the
      pool, which would start at `low`, starts at `low'`. */
  ghost predicate BorderMoved(handles: Handles, items: seq<nat>, low: nat, low': nat, poolCapacity: real)
    requires AllLive(handles, items)
  {
    && low <= low' <= |items| && Charges(handles, items[low'..]) as real <= poolCapacity
    && (low < low' ==> Charges(handles, items[low' - 1..]) as real > poolCapacity)
  }

  /** Where the high priority pool starts after an entry was put on the list. */
  ghost predicate Bordered(handles: Handles, items: seq<nat>, low: nat, low': nat, high: bool, poolCapacity: real)
    requires AllLive(handles, items)
  {
    if high then BorderMoved(handles, items, low, low', poolCapacity) else low' == low + 1
  }

  /** The part of the capacity the high priority pool may use. */
  function PoolShare(capacity: nat, ratio: real): real { capacity as real * ratio }

  lemma ShareNotNegative(capacity: nat, ratio: real)
    requires ratio >= 0.0
    ensures PoolShare(capacity, ratio) >= 0.0
  {
  }

  class Shard {
    const lru: List
    const table: Table
    var handles: Handles
    var issued: nat
    var freed: seq<nat>
    var usage: int
    var lruUsage: int
    var poolUsage: int
    var capacity: nat
    var strict: bool
    var ratio: real
    var poolCapacity: real
    var lowPri: nat
    ghost var low: nat
    ghost var external: multiset<nat>

    ghost function Snapshot(): View
      reads this, lru, table
    {
      View(handles, lru.items, table.contents, external, issued, freed)
    }

    /** The list: its two pools, the pointer to the newest low priority entry, and the charges. */
    ghost predicate PoolsValid()
      reads this`handles, this`low, this`lowPri, this`poolUsage, this`poolCapacity, lru
    {
      && lru.Valid() && NoDuplicates(lru.items) && PoolsOk(handles, lru.items, low) && lowPri == At(lru.items, low)
      && poolUsage == Charges(handles, lru.items[low..]) && poolCapacity >= 0.0
    }

    ghost predicate ListValid()
      reads this`handles, this`low, this`lowPri, this`poolUsage, this`poolCapacity, this`lruUsage, lru
    {
      PoolsValid() && lruUsage == Charges(handles, lru.items)
    }

    /** The high priority pool may use its part of the capacity. */
    predicate PoolSet()
      reads this`ratio, this`capacity, this`poolCapacity
    {
      ratio >= 0.0 && poolCapacity == PoolShare(capacity, ratio)
    }

    ghost predicate Valid()
      reads this, lru, table
    {
      && ListValid() && table.Valid() && Consistent(Snapshot()) && usage == Total(handles) && PoolSet()
      && (usage > capacity ==> lru.items == [])
    }

    constructor (capacity: nat, strict: bool, ratio: real)
      requires ratio >= 0.0
      ensures Valid() && fresh(lru) && fresh(table) && Snapshot() == View(map[], [], map[], multiset{}, 1, [])
      ensures this.capacity == capacity && this.strict == strict && this.ratio == ratio
    {
      hide Holds, Linked, Total, Consistent, NoDuplicates, PoolsOk;
      EmptyConsistent();
      lru := new List();
      table := new Table();
      handles := map[];
      issued := 1;
      freed := [];
      usage, lruUsage, poolUsage := 0, 0, 0;
      this.capacity, this.strict, this.ratio, this.poolCapacity :=
          capacity, strict, ratio, PoolShare(capacity, ratio);
      lowPri, low, external := 0, 0, multiset{};
    }

    // -------------------------------------------------------------- the list

    method LruRemove(e: nat)
      requires ListValid() && e in lru.items
      modifies this`lowPri, this`low, this`lruUsage, this`poolUsage, lru
      ensures ListValid() && lru.items == OffList(old(lru.items), e)
    {
      hide Linked, Charges, NoDuplicates, PoolsOk, Without, AllLive, Index;
      ghost var i := Index(lru.items, e);
      ghost var items := lru.items;
      RemoveKeepsPools(handles, items, low, i);
      ChargesWithout(handles, items, i);
      OffListHas(items, e);
      SameNode(items, low, i + 1);
      if lowPri == e {
        lowPri := lru.Previous(e, i + 1);
      }
      AtWithout(items, i, if i < low then low - 1 else low);
      lru.Remove(e, i);
      low := if i < low then low - 1 else low;
      lruUsage := lruUsage - handles[e].charge;
      if handles[e].inPool {
        poolUsage := poolUsage - handles[e].charge;
      }
    }

    /** The oldest high priority entry goes to the low priority pool. */
    method Overflow()
      requires PoolsValid() && poolUsage > 0
      modifies this`lowPri, this`low, this`poolUsage, this`handles
      ensures PoolsValid() && SameButPool(old(handles), handles) && low == old(low) + 1
      ensures Charges(handles, lru.items) == Charges(old(handles), lru.items)
      ensures Charges(handles, lru.items[low - 1..]) == old(poolUsage)
    {
      hide Linked, Charges, NoDuplicates, PoolsOk, AllLive;
      PoolFacts(handles, lru.items, low);
      OverflowKeepsPools(handles, lru.items, low);
      lowPri := lru.Following(lowPri, low);
      handles := handles[lowPri := handles[lowPri].(inPool := false)];
      poolUsage := poolUsage - handles[lowPri].charge;
      low := low + 1;
    }

    /** Overflows the oldest high priority entries to the low priority pool, as few as needed. */
    method MaintainPoolSize()
      requires PoolsValid()
      modifies this`lowPri, this`low, this`poolUsage, this`handles
      ensures PoolsValid() && SameButPool(old(handles), handles)
      ensures poolUsage as real <= poolCapacity
      ensures old(low) <= low && Charges(handles, lru.items) == Charges(old(handles), lru.items)
      ensures low == old(low) || Charges(handles, lru.items[low - 1..]) as real > poolCapacity
    {
      hide Linked, Charges, NoDuplicates;
      while poolUsage as real > poolCapacity
        invariant PoolsValid() && SameButPool(old(handles), handles) && old(low) <= low
        invariant Charges(handles, lru.items) == Charges(old(handles), lru.items)
        invariant low == old(low) || Charges(handles, lru.items[low - 1..]) as real > poolCapacity
        decreases |lru.items| - low
      {
        Overflow();
      }
    }

    /** To the end of the list and into the high priority pool, whatever its size. */
    method AppendHigh(e: nat)
      requires ListValid() && e in handles && e !in lru.items && e != 0
      modifies this`poolUsage, this`handles, lru
      ensures PoolsValid() && handles == old(handles)[e := old(handles)[e].(inPool := true)]
      ensures lru.items == With(old(lru.items), |old(lru.items)|, e) && AllLive(handles, lru.items)
      ensures Charges(handles, lru.items) == lruUsage + old(handles)[e].charge
    {
      hide Linked, Charges, NoDuplicates, PoolsOk, AllLive, With;
      ghost var items := lru.items;
      PoolFacts(handles, items, low);
      AtWith(items, |items|, e, low);
      InsertHighKeepsPools(handles, items, low, e);
      WithHas(items, |items|, e);
      var last := lru.Previous(0, 0);
      lru.InsertAfter(last, e, |items|);
      handles := handles[e := handles[e].(inPool := true)];
      poolUsage := poolUsage + handles[e].charge;
    }

    lemma PoolCharges()
      requires PoolsValid()
      ensures AllLive(handles, lru.items) && low <= |lru.items| && poolUsage == Charges(handles, lru.items[low..])
    {
    }

    method InsertHigh(e: nat)
      requires ListValid() && e in handles && e !in lru.items && e != 0
      modifies this`lowPri, this`low, this`lruUsage, this`poolUsage, this`handles, lru
      ensures ListValid() && SameButPool(old(handles), handles)
      ensures lru.items == With(old(lru.items), |old(lru.items)|, e)
      ensures AllLive(handles, lru.items) && BorderMoved(handles, lru.items, old(low), low, poolCapacity)
    {
      hide Charges, AllLive, With, PoolsValid;
      AppendHigh(e);
      MaintainPoolSize();
      PoolCharges();
      lruUsage := lruUsage + handles[e].charge;
    }

    method InsertLow(e: nat)
      requires ListValid() && e in handles && e !in lru.items && e != 0
      modifies this`lowPri, this`low, this`lruUsage, this`poolUsage, this`handles, lru
      ensures ListValid() && SameButPool(old(handles), handles)
      ensures lru.items == With(old(lru.items), old(low), e) && low == old(low) + 1
    {
      hide Linked, Charges, NoDuplicates, PoolsOk, AllLive, With;
      ghost var items := lru.items;
      PoolFacts(handles, items, low);
      AtWith(items, low, e, low + 1);
      InsertLowKeepsPools(handles, items, low, e);
      WithHas(items, low, e);
      lru.InsertAfter(lowPri, e, low);
      handles := handles[e := handles[e].(inPool := false)];
      lowPri := e;
      low := low + 1;
      lruUsage := lruUsage + handles[e].charge;
    }

    /** The newest entry of its pool; `k` is its place on the list. */
    method LruInsert(e: nat) returns (ghost k: nat)
      requires ListValid() && e in handles && e !in lru.items && e != 0
      modifies this`lowPri, this`low, this`lruUsage, this`poolUsage, this`handles, lru
      ensures ListValid() && SameButPool(old(handles), handles)
      ensures k == (if ratio > 0.0 && old(handles)[e].highPri then |old(lru.items)| else old(low)) <= |old(lru.items)|
      ensures lru.items == With(old(lru.items), k, e)
      ensures AllLive(handles, lru.items)
      ensures Bordered(handles, lru.items, old(low), low, ratio > 0.0 && old(handles)[e].highPri, poolCapacity)
    {
      hide Linked, Charges, NoDuplicates, AllLive, With;
      k := if ratio > 0.0 && handles[e].highPri then |lru.items| else low;
      if ratio > 0.0 && handles[e].highPri {
        InsertHigh(e);
      } else {
        InsertLow(e);
      }
      ListLive();
    }

    lemma ListLive()
      requires ListValid()
      ensures AllLive(handles, lru.items) && low <= |lru.items|
    {
    }

    // -------------------------------------------------------------- evicting

    /** All but the relation of usage and capacity. */
    ghost predicate Core()
      reads this, lru, table
    {
      ListValid() && table.Valid() && Consistent(Snapshot()) && usage == Total(handles) && PoolSet()
    }

    lemma CoreFacts()
      requires Core()
      ensures lru.Valid() && NoDuplicates(lru.items) && Consistent(Snapshot())
    {
    }

    /** Drops an entry that only the cache has, after it was taken off the list. */
    method DropEntry(e: nat)
      requires ListValid() && table.Valid() && e in handles && e !in lru.items && handles[e].refs == 1
               && handles[e].inCache
      modifies this`handles, this`usage, this`freed, table
      ensures ListValid() && table.Valid() && handles == old(handles) - {e}
              && table.contents == old(table.contents) - {old(handles)[e].name}
      ensures usage == old(usage) - old(handles)[e].charge && freed == old(freed) + [e]
    {
      hide Linked, Charges, NoDuplicates, PoolsOk, AllLive, Holds, At, Table.Valid, List.Valid;
      DropKeepsList(handles, lru.items, e, low);
      var h := handles[e];
      var _ := table.Remove(h.name);
      h := h.(inCache := false);
      h := h.(refs := h.refs - 1);
      usage := usage - h.charge;
      assert h.refs == 0 && !h.inCache;
      handles := handles - {e};
      freed := freed + [e];
    }

    /** Evicts the oldest entry. */
    method EvictOldest()
      requires Core() && lru.items != []
      modifies this`lowPri, this`low, this`lruUsage, this`poolUsage, this`handles, this`usage, this`freed, lru, table
      ensures Core() && lru.items == old(lru.items)[1..] && freed == old(freed) + [old(lru.items)[0]]
      ensures old(lru.items)[0] in old(handles) && Snapshot() == Dropped(old(Snapshot()), old(lru.items)[0])
      ensures usage == old(usage) - old(handles)[old(lru.items)[0]].charge
    {
      hide Linked, Charges, NoDuplicates, PoolsOk, AllLive, Consistent, Total, Holds, OffList, PoolsValid, PoolSet,
           Table.Valid, List.Valid;
      CoreFacts();
      ghost var v := Snapshot();
      var e := lru.First();
      FirstOff(lru.items);
      OffListHas(lru.items, e);
      OnListFacts(v, e);
      DroppedConsistent(v, e);
      TotalWithout(handles, e);
      LruRemove(e);
      DropEntry(e);
    }

    /** Evicts one more entry; returns the next one, or 0. */
    method EvictNext(ghost v: View) returns (first: nat)
      requires Core() && lru.items != [] && |lru.items| <= |v.items|
               && Evicted(v, Snapshot(), |v.items| - |lru.items|)
      modifies this`lowPri, this`low, this`lruUsage, this`poolUsage, this`handles, this`usage, this`freed, lru, table
      ensures Core() && |lru.items| == |old(lru.items)| - 1 && Evicted(v, Snapshot(), |v.items| - |lru.items|)
      ensures first == 0 <==> lru.items == []
      ensures old(lru.items)[0] in old(handles)
      ensures usage == old(usage) - old(handles)[old(lru.items)[0]].charge
    {
      hide Linked, Charges, NoDuplicates, PoolsOk, AllLive, Consistent, Total, Holds, OffList, Dropped, PoolsValid,
           ListValid, Core, Evicted, PoolSet;
      CoreFacts();
      OneMoreEvicted(v, Snapshot(), |v.items| - |lru.items|);
      EvictOldest();
      CoreFacts();
      first := lru.First();
      EmptyIff(lru.items);
    }

    /** Evicts in the order of the list, as few entries as needed or all. */
    method EvictFromLRU(charge: nat)
      requires Core()
      modifies this`lowPri, this`low, this`lruUsage, this`poolUsage, this`handles, this`usage, this`freed, lru, table
      ensures Core() && |lru.items| <= |old(lru.items)|
      ensures var k := |old(lru.items)| - |lru.items|;
              lru.items == old(lru.items)[k..] && freed == old(freed) + old(lru.items)[..k]
      ensures usage + charge <= capacity || lru.items == []
      ensures usage <= old(usage) && external == old(external) && issued == old(issued)
      ensures Evicted(old(Snapshot()), Snapshot(), |old(lru.items)| - |lru.items|)
      ensures LastWasNeeded(old(Snapshot()), |old(lru.items)| - |lru.items|, usage + charge, capacity)
    {
      hide Linked, Charges, NoDuplicates, PoolsOk, AllLive, Consistent, Total, Holds, OffList, Dropped, PoolsValid,
           ListValid, Core, Evicted, LastWasNeeded;
      CoreFacts();
      ghost var v := Snapshot();
      NothingEvicted(v);
      var first := lru.First();
      EmptyIff(lru.items);
      while usage + charge > capacity && first != 0
        invariant first == 0 <==> lru.items == []
        invariant LastWasNeeded(v, |v.items| - |lru.items|, usage + charge, capacity)
        invariant Core() && |lru.items| <= |old(lru.items)| && usage <= old(usage)
                  && Evicted(v, Snapshot(), |v.items| - |lru.items|)
        decreases |lru.items|
      {
        CoreFacts();
        OneMoreEvicted(v, Snapshot(), |v.items| - |lru.items|);
        NeededNow(v, |v.items| - |lru.items| + 1, usage + charge, capacity);
        first := EvictNext(v);
      }
      EvictedLists(v, Snapshot(), |v.items| - |lru.items|);
    }

    // -------------------------------------------------------------- operations

    method StoreCapacity(newCapacity: nat)
      requires Core()
      modifies this`capacity, this`poolCapacity
      ensures Core() && capacity == newCapacity && Snapshot() == old(Snapshot())
    {
      hide Linked, Charges, NoDuplicates, PoolsOk, AllLive, PoolShare, Consistent, Total, Holds;
      ShareNotNegative(newCapacity, ratio);
      capacity := newCapacity;
      poolCapacity := PoolShare(capacity, ratio);
    }

    lemma ValidIfFits()
      requires Core() && (usage > capacity ==> lru.items == [])
      ensures Valid()
    {
    }

    /** Evicts in the order of the list until the entries fit into the new capacity, as few entries
        as needed or all. */
    method SetCapacity(newCapacity: nat)
      requires Valid()
      modifies this, lru, table
      ensures Valid() && capacity == newCapacity && ratio == old(ratio) && strict == old(strict)
      ensures external == old(external) && issued == old(issued)
      ensures |lru.items| <= |old(lru.items)|
      ensures var k := |old(lru.items)| - |lru.items|;
              && lru.items == old(lru.items)[k..] && freed == old(freed) + old(lru.items)[..k]
              && Evicted(old(Snapshot()), Snapshot(), k) && LastWasNeeded(old(Snapshot()), k, usage, newCapacity)
    {
      hide Linked, Charges, NoDuplicates, PoolsOk, AllLive, Consistent, Total, Holds, Evicted, LastWasNeeded, PoolSet,
           ListValid, Core, Valid;
      CoreIfValid();
      StoreCapacity(newCapacity);
      EvictFromLRU(0);
      ValidIfFits();
    }

    /** Makes the high priority pool fit; nothing else changes. */
    method Rebalance(ghost v: View)
      requires ListValid() && Consistent(v) && v.handles == handles
      modifies this`lowPri, this`low, this`poolUsage, this`handles
      ensures ListValid() && SameButPool(old(handles), handles) && poolUsage as real <= poolCapacity
      ensures AllLive(handles, lru.items) && BorderMoved(handles, lru.items, old(low), low, poolCapacity)
      ensures Consistent(v.(handles := handles)) && Total(handles) == Total(old(handles))
    {
      hide Linked, Charges, NoDuplicates, PoolsOk, AllLive, Consistent, Total, SameButPool, At, PoolsValid;
      MaintainPoolSize();
      PoolCharges();
      PoolIsSeparate(v, handles);
      TotalSameButPool(v.handles, handles);
    }

    method SetHighPriorityPoolRatio(newRatio: real)
      requires Valid() && newRatio >= 0.0
      modifies this
      ensures Valid() && ratio == newRatio && poolUsage as real <= poolCapacity == PoolShare(capacity, newRatio)
      ensures SameButPool(old(handles), handles) && Snapshot() == old(Snapshot()).(handles := handles)
      ensures capacity == old(capacity) && strict == old(strict)
      ensures AllLive(handles, lru.items) && BorderMoved(handles, lru.items, old(low), low, poolCapacity)
    {
      hide Linked, Charges, NoDuplicates, PoolsOk, AllLive, Consistent, Total, Holds, SameButPool, At, PoolShare,
           BorderMoved;
      ghost var v := Snapshot();
      ShareNotNegative(capacity, newRatio);
      ratio := newRatio;
      poolCapacity := PoolShare(capacity, ratio);
      Rebalance(v);
    }

    /** Drops every entry that only the cache has. */
    method EraseUnRefEntries()
      requires Valid()
      modifies this, lru, table
      ensures Valid() && lru.items == [] && freed == old(freed) + old(lru.items)
      ensures Evicted(old(Snapshot()), Snapshot(), |old(lru.items)|)
      ensures capacity == old(capacity) && strict == old(strict) && ratio == old(ratio)
    {
      hide Linked, Charges, NoDuplicates, PoolsOk, AllLive, Consistent, Total, Holds, OffList, Dropped, PoolsValid,
           ListValid, Core, Evicted, PoolShare;
      CoreIfValid();
      CoreFacts();
      ghost var v := Snapshot();
      NothingEvicted(v);
      var first := lru.First();
      EmptyIff(lru.items);
      while first != 0
        invariant first == 0 <==> lru.items == []
        invariant Core() && |lru.items| <= |v.items| && Evicted(v, Snapshot(), |v.items| - |lru.items|)
        invariant capacity == old(capacity) && strict == old(strict) && ratio == old(ratio)
        decreases |lru.items|
      {
        first := EvictNext(v);
      }
      ValidIfEmpty();
      EvictedLists(v, Snapshot(), |v.items|);
    }

    lemma CoreIfValid()
      requires Valid()
      ensures Core()
    {
    }

    lemma ValidIfEmpty()
      requires Core() && lru.items == []
      ensures Valid()
    {
    }

    /** A caller takes a reference. */
    method Pin(e: nat)
      requires Valid() && e in handles
      modifies this`handles, this`lowPri, this`low, this`lruUsage, this`poolUsage, this`external, lru
      ensures Valid() && Snapshot() == Pinned(old(Snapshot()), e)
    {
      hide Linked, Charges, NoDuplicates, PoolsOk, AllLive, Consistent, Total, Holds, OffList, At, ListValid,
           PoolsValid, PoolSet, Table.Valid, List.Valid;
      ghost var v := Snapshot();
      PinnedConsistent(v, e);
      ListedIff(v, e);
      if handles[e].inCache && handles[e].refs == 1 {
        LruRemove(e);
      }
      OffListKeeps(v.items, e);
      var h := handles[e].(refs := handles[e].refs + 1);
      TotalUpdate(handles, e, h);
      UpdateHandle(e, h);
      external := external + multiset{e};
    }

    /** Changes a handle in a way the list does not notice. */
    method UpdateHandle(e: nat, h: Handle)
      requires ListValid() && e in handles && h.charge == handles[e].charge && h.inPool == handles[e].inPool
      modifies this`handles
      ensures ListValid() && handles == old(handles)[e := h]
    {
      hide Linked, Charges, NoDuplicates, PoolsOk, AllLive;
      UpdateKeepsList(handles, lru.items, e, h, low);
      handles := handles[e := h];
    }

    method Lookup(name: Name) returns (handle: Option<nat>)
      requires Valid()
      modifies this`handles, this`lowPri, this`low, this`lruUsage, this`poolUsage, this`external, lru
      ensures Valid() && handle == (if name in old(table.contents) then Some(old(table.contents)[name]) else None)
      ensures handle.Some? ==> handle.value in old(handles) && Snapshot() == Pinned(old(Snapshot()), handle.value)
      ensures handle.None? ==> Snapshot() == old(Snapshot())
    {
      hide Linked, Charges, NoDuplicates, PoolsOk, AllLive, Total, Holds, OffList, PoolsValid, ListValid;
      handle := table.Lookup(name);
      if handle.Some? {
        Pin(handle.value);
      }
    }

    method Ref(e: nat)
      requires Valid() && e in handles
      modifies this`handles, this`lowPri, this`low, this`lruUsage, this`poolUsage, this`external, lru
      ensures Valid() && Snapshot() == Pinned(old(Snapshot()), e)
    {
      Pin(e);
    }

    /** An entry leaves the cache: it is freed if only the cache had it, and otherwise lives on
        until its last reference is given back. The table no longer leads to it. */
    method Retire(e: nat)
      requires ListValid() && e in handles && handles[e].inCache && handles[e].refs >= 1
      requires e in lru.items <==> handles[e].refs == 1
      modifies this`handles, this`lowPri, this`low, this`lruUsage, this`poolUsage, this`usage, this`freed, lru
      ensures ListValid()
      ensures var h := old(handles)[e];
              if h.refs == 1 then
                && handles == old(handles) - {e} && lru.items == OffList(old(lru.items), e)
                && usage == old(usage) - h.charge && freed == old(freed) + [e]
              else
                && handles == old(handles)[e := h.(refs := h.refs - 1, inCache := false)] && lru.items == old(lru.items)
                && usage == old(usage) && freed == old(freed)
    {
      hide Linked, Charges, NoDuplicates, PoolsOk, AllLive, OffList, At;
      var h := handles[e];
      if h.refs == 1 {
        usage := usage - h.charge;
        ghost var items := lru.items;
        OffListHas(items, e);
        LruRemove(e);
        DropKeepsList(handles, lru.items, e, low);
        handles := handles - {e};
        freed := freed + [e];
      } else {
        UpdateHandle(e, h.(refs := h.refs - 1, inCache := false));
      }
    }

    /** Removes a name from the cache. */
    method Erase(name: Name)
      requires Valid()
      modifies this`handles, this`lowPri, this`low, this`lruUsage, this`poolUsage, this`usage, this`freed, lru, table
      ensures Valid() && name !in table.contents
      ensures name !in old(table.contents) ==> Snapshot() == old(Snapshot())
      ensures name in old(table.contents) ==>
                var v, e := old(Snapshot()), old(table.contents)[name];
                e in v.handles && v.handles[e].refs >= 1
                    && Snapshot() == (if v.handles[e].refs == 1 then Dropped(v, e) else Detached(v, e))
    {
      hide Linked, Charges, NoDuplicates, PoolsOk, AllLive, Consistent, Total, Holds, OffList, At, ListValid,
           PoolsValid, PoolSet, WithoutName, Dropped, Detached, Table.Valid, List.Valid;
      ghost var v := Snapshot();
      var removed := table.Remove(name);
      if removed.Some? {
        ErasedFacts(v, name);
        RetireErased(v, name, removed.value);
        assert Snapshot() == WithoutName(v, name);
      } else {
        assert table.contents == v.contents;
      }
    }

    /** The entry whose name was taken out of the table leaves the cache. */
    method RetireErased(ghost v: View, ghost name: Name, e: nat)
      requires ListValid() && Consistent(v) && name in v.contents && e == v.contents[name]
      requires handles == v.handles && lru.items == v.items && freed == v.freed && usage == Total(v.handles)
      modifies this`handles, this`lowPri, this`low, this`lruUsage, this`poolUsage, this`usage, this`freed, lru
      ensures ListValid()
      ensures var w := WithoutName(v, name);
              handles == w.handles && lru.items == w.items && freed == w.freed && usage == Total(w.handles)
    {
      hide ListValid, Consistent, Total, OffList;
      CachedFacts(v, name);
      LeavingConsistent(v, e);
      Retire(e);
    }

    lemma LowInList()
      requires ListValid()
      ensures low <= |lru.items|
    {
    }

    /** Frees a handle that is not on the list. */
    method Free(e: nat)
      requires ListValid() && e in handles && e !in lru.items
      modifies this`handles, this`freed
      ensures ListValid() && handles == old(handles) - {e} && freed == old(freed) + [e]
    {
      hide Linked, Charges, NoDuplicates, PoolsOk, AllLive, At;
      DropKeepsList(handles, lru.items, e, low);
      handles := handles - {e};
      freed := freed + [e];
    }

    /** The last reference, to a handle outside the cache. */
    method ReleaseLast(e: nat)
      requires Valid() && e in external && e in handles && handles[e].refs == 1
      modifies this`handles, this`usage, this`freed, this`external
      ensures Valid() && Snapshot() == Discarded(old(Snapshot()), e)
    {
      hide ListValid, Consistent, Total, Holds;
      ghost var v := Snapshot();
      ExternalFacts(v, e);
      DiscardedConsistent(v, e);
      TotalWithout(handles, e);
      usage := usage - handles[e].charge;
      external := external - multiset{e};
      Free(e);
    }

    /** Only the cache is left with the handle, and does not keep it. */
    method ReleaseAndDrop(e: nat)
      requires Valid() && e in external && e in handles && handles[e].refs == 2 && handles[e].inCache
      modifies this`handles, this`usage, this`freed, this`external, table
      ensures Valid() && Snapshot() == Dropped(Unpinned(old(Snapshot()), e, 0), e)
    {
      hide ListValid, Consistent, Total, Holds, Unpinned, Dropped, PoolSet, Table.Valid, List.Valid;
      ghost var v := Snapshot();
      UnpinnedAndDropped(v, e);
      var h := handles[e].(refs := handles[e].refs - 1);
      external := external - multiset{e};
      UpdateHandle(e, h);
      DropEntry(e);
    }

    /** Other references remain. */
    method ReleaseAndHold(e: nat)
      requires Valid() && e in external && e in handles && handles[e].refs >= 2
               && !(handles[e].refs == 2 && handles[e].inCache)
      modifies this`handles, this`external
      ensures Valid() && handles == old(handles)[e := old(handles)[e].(refs := old(handles)[e].refs - 1)]
      ensures forall k: nat :: k <= |old(lru.items)| ==> Snapshot() == Unpinned(old(Snapshot()), e, k)
    {
      hide ListValid, Consistent, Total, Holds;
      ghost var v := Snapshot();
      UnpinnedConsistent(v, e, 0);
      var h := handles[e].(refs := handles[e].refs - 1);
      TotalUpdate(handles, e, h);
      external := external - multiset{e};
      UpdateHandle(e, h);
    }

    /** Only the cache is left with the handle, and keeps it: it goes on the list. */
    method ReleaseAndKeep(e: nat) returns (ghost k: nat)
      requires Valid() && e in external && e in handles && handles[e].refs == 2 && handles[e].inCache
               && usage <= capacity
      modifies this`handles, this`lowPri, this`low, this`lruUsage, this`poolUsage, this`external, lru
      ensures Valid()
              && k == (if ratio > 0.0 && old(handles)[e].highPri then |old(lru.items)|
              else old(low)) <= |old(lru.items)|
      ensures SameButPool(Unpinned(old(Snapshot()), e, k).handles, handles)
      ensures Snapshot() == Unpinned(old(Snapshot()), e, k).(handles := handles)
      ensures AllLive(handles, lru.items)
      ensures Bordered(handles, lru.items, old(low), low, ratio > 0.0 && old(handles)[e].highPri, poolCapacity)
    {
      hide ListValid, Consistent, Total, Holds, With, SameButPool, Unpinned, Bordered, AllLive;
      ghost var v := Snapshot();
      ExternalFacts(v, e);
      var h := handles[e].(refs := handles[e].refs - 1);
      external := external - multiset{e};
      UpdateHandle(e, h);
      k := LruInsert(e);
      UnpinnedAndKept(v, e, k, handles);
    }

    /** A caller gives a reference back. The handle is freed with its last reference, or when only
        the cache is left and the cache is too full or asked to erase it; if the cache keeps it, it
        becomes the newest entry of its pool. */
    method Release(e: nat, forceErase: bool) returns (last: bool, ghost k: nat)
      requires Valid() && e in external
      modifies this`handles, this`lowPri, this`low, this`lruUsage, this`poolUsage, this`usage, this`freed,
               this`external, lru, table
      ensures Valid() && k <= |old(lru.items)|
      ensures var v := old(Snapshot());
              && e in v.handles && v.handles[e].refs >= 1
              && var h := v.handles[e];
                 if h.refs == 1 then last && Snapshot() == Discarded(v, e)
                 else if h.refs == 2 && h.inCache && (old(usage) > old(capacity) || forceErase) then
                   last && Snapshot() == Dropped(Unpinned(v, e, 0), e)
                 else
                   && !last && SameButPool(Unpinned(v, e, k).handles, handles)
                       && Snapshot() == Unpinned(v, e, k).(handles := handles)
                   && k == (if ratio > 0.0 && h.highPri then |v.items| else old(low))
                   && AllLive(handles, lru.items)
                   && if h.refs == 2 && h.inCache
                      then Bordered(handles, lru.items, old(low), low, ratio > 0.0 && h.highPri, poolCapacity)
                      else low == old(low)
    {
      hide Consistent, Total, Holds, ListValid, Dropped, Discarded, With, Bordered, AllLive;
      ExternalFacts(Snapshot(), e);
      last, k := true, 0;
      if handles[e].refs == 1 {
        ReleaseLast(e);
      } else if handles[e].refs == 2 && handles[e].inCache && (usage > capacity || forceErase) {
        ReleaseAndDrop(e);
      } else {
        last := false;
        LowInList();
        if handles[e].refs == 2 && handles[e].inCache {
          k := ReleaseAndKeep(e);
        } else {
          k := if ratio > 0.0 && handles[e].highPri then |lru.items| else low;
          ReleaseAndHold(e);
          ListLive();
        }
      }
    }

    // -------------------------------------------------------------- inserting

    /** A new handle, not on the list yet. */
    method AddHandle(e: nat, h: Handle)
      requires ListValid() && e !in handles
      modifies this`handles
      ensures ListValid() && handles == old(handles)[e := h]
    {
      hide Linked, Charges, NoDuplicates, PoolsOk, AllLive, At;
      AddKeepsList(handles, lru.items, e, h, low);
      handles := handles[e := h];
    }

    /** Puts a new handle into the table, in place of one with the same name. */
    method EnterTable(h: Handle, hold: bool) returns (e: nat)
      requires Core() && h.inCache
      modifies this`handles, this`lowPri, this`low, this`lruUsage, this`poolUsage, this`usage, this`freed,
               this`external, this`issued,
               lru, table
      ensures ListValid() && table.Valid() && e == old(issued)
      ensures var v := old(Snapshot()); var w := WithoutName(v, h.name);
              && handles == w.handles[e := h] && lru.items == w.items && table.contents == w.contents[h.name := e]
              && issued == v.issued + 1 && freed == w.freed
              && external == (if hold then v.external + multiset{e} else v.external)
      ensures usage == Total(WithoutName(old(Snapshot()), h.name).handles) + h.charge <= old(usage) + h.charge
    {
      hide ListValid, Consistent, Total, Holds, WithoutName, OffList;
      ghost var v := Snapshot();
      NameLeaves(v, h);
      e := issued;
      issued := issued + 1;
      AddHandle(e, h);
      if hold {
        external := external + multiset{e};
      }
      var old_ := table.Insert(h.name, e);
      usage := usage + h.charge;
      if old_.Some? {
        RetireNamed(v, h, e, old_.value);
      }
    }

    /** The entry that had the name of the new handle leaves the cache. */
    method RetireNamed(ghost v: View, h: Handle, ghost e: nat, o: nat)
      requires ListValid() && Consistent(v) && e == v.issued && h.name in v.contents && o == v.contents[h.name]
      requires handles == v.handles[e := h] && lru.items == v.items && freed == v.freed
      requires usage == Total(v.handles) + h.charge
      modifies this`handles, this`lowPri, this`low, this`lruUsage, this`poolUsage, this`usage, this`freed, lru
      ensures ListValid()
      ensures var w := WithoutName(v, h.name);
              && handles == w.handles[e := h] && lru.items == w.items && freed == w.freed
              && usage == Total(w.handles) + h.charge
    {
      hide ListValid, Consistent, Total, WithoutName, OffList;
      WithoutNameFacts(v, h);
      Retire(o);
    }

    method Enter(h: Handle, hold: bool) returns (e: nat, ghost k: nat, ghost border: nat)
      requires Core() && h.inCache && h.refs == (if hold then 2 else 1)
      requires usage + h.charge <= capacity || (hold && lru.items == [])
      modifies this`handles, this`lowPri, this`low, this`lruUsage, this`poolUsage, this`usage, this`freed,
               this`external, this`issued,
               lru, table
      ensures Valid() && e == old(issued)
      ensures k <= |WithoutName(old(Snapshot()), h.name).items|
      ensures !hold ==> NewestPlace(WithoutName(old(Snapshot()), h.name), ratio > 0.0 && h.highPri, k)
      ensures var v := Entered(WithoutName(old(Snapshot()), h.name), h, hold, k);
              SameButPool(v.handles, handles) && Snapshot() == v.(handles := handles) && (hold ==> handles == v.handles)
      ensures AllLive(handles, lru.items)
      ensures !hold ==>
                var w := WithoutName(old(Snapshot()), h.name);
                PoolsOk(w.handles, w.items, border)
                && Bordered(handles, lru.items, border, low, ratio > 0.0 && h.highPri, poolCapacity)
      ensures h.name in table.contents && table.contents[h.name] == e && e in handles && (!hold ==> e in lru.items)
      ensures issued == old(issued) + 1 && external == if hold then old(external) + multiset{e} else old(external)
    {
      hide ListValid, Consistent, Total, Holds, WithoutName, SameButPool, With, NewestPlace, Bordered, AllLive, PoolsOk,
           PoolSet, Table.Valid, List.Valid;
      ghost var v := Snapshot();
      WithoutNameFacts(v, h);
      e := EnterTable(h, hold);
      k, border := 0, low;
      SamePool(handles);
      if !hold {
        ListPools();
        PlaceOfNewest(WithoutName(v, h.name), e, h, low, ratio > 0.0 && h.highPri);
        k := LruInsert(e);
      }
      ListLive();
      EnteredFacts(WithoutName(v, h.name), h, hold, k, handles);
    }

    /** A new handle that does not enter the cache is freed at once. */
    method FreeNew()
      requires Core() && (usage > capacity ==> lru.items == [])
      modifies this`freed, this`issued
      ensures Valid() && Snapshot() == old(Snapshot()).(issued := old(issued) + 1, freed := old(freed) + [old(issued)])
    {
      hide ListValid, Consistent, Total, Holds;
      RejectedConsistent(Snapshot());
      freed := freed + [issued];
      issued := issued + 1;
    }

    /** Inserts an entry: `mid` is the state after the evictions, which follow the list and are as few
        as needed or all. An entry nobody holds becomes the newest of its pool. A cache that is
        full even without the entries on the list rejects the new one if it is strict or nobody
        would hold the entry; then the new handle is freed. */
    method Insert(name: Name, charge: nat, hold: bool, highPri: bool)
      returns (ok: bool, handle: Option<nat>, ghost entered: bool, ghost mid: View, ghost k: nat, ghost border: nat)
      requires Valid()
      modifies this`handles, this`lowPri, this`low, this`lruUsage, this`poolUsage, this`usage, this`freed,
               this`external, this`issued,
               lru, table
      ensures Valid() && Evicted(old(Snapshot()), mid, |old(lru.items)| - |mid.items|)
              && AllLive(mid.handles, mid.items)
      ensures Total(mid.handles) + charge <= capacity || mid.items == []
      ensures LastWasNeeded(old(Snapshot()), |old(lru.items)| - |mid.items|, Total(mid.handles) + charge, capacity)
      ensures entered
              <==> Total(mid.handles) - Charges(mid.handles, mid.items) + charge <= capacity || (!strict && hold)
      ensures (ok <==> entered || !hold) && handle == (if entered && hold then Some(mid.issued) else None)
      ensures !entered ==> Snapshot() == mid.(issued := mid.issued + 1, freed := mid.freed + [mid.issued])
      ensures entered ==> k <= |WithoutName(mid, name).items|
      ensures entered && !hold ==> NewestPlace(WithoutName(mid, name), ratio > 0.0 && highPri, k)
      ensures entered ==>
                var v := Entered(WithoutName(mid, name),
                    Handle(name, charge, if hold then 2 else 1, true, highPri, false), hold, k);
                && SameButPool(v.handles, handles) && Snapshot() == v.(handles := handles)
                && (hold ==> handles == v.handles)
      ensures AllLive(handles, lru.items)
      ensures entered && !hold ==>
                var w := WithoutName(mid, name);
                PoolsOk(w.handles, w.items, border)
                && Bordered(handles, lru.items, border, low, ratio > 0.0 && highPri, poolCapacity)
    {
      hide ListValid, Consistent, Total, Holds, WithoutName, SameButPool, With, Dropped, Evicted, Entered, Charges,
           AllLive, LastWasNeeded, NewestPlace, Bordered, PoolsOk;
      EvictFromLRU(charge);
      mid := Snapshot();
      CoreConsistent();
      handle := None;
      k, border := 0, 0;
      ok := !hold;
      entered := usage - lruUsage + charge <= capacity || (!strict && hold);
      if usage - lruUsage + charge > capacity && (strict || !hold) {
        FreeNew();
        ListLive();
      } else {
        var e;
        e, k, border := Enter(Handle(name, charge, if hold then 2 else 1, true, highPri, false), hold);
        ok := true;
        handle := if hold then Some(e) else None;
      }
    }

    lemma ListPools()
      requires ListValid()
      ensures PoolsOk(handles, lru.items, low) && low <= |lru.items|
    {
    }

    lemma CoreConsistent()
      requires Core()
      ensures Consistent(Snapshot()) && AllLive(handles, lru.items)
      ensures usage == Total(handles) && lruUsage == Charges(handles, lru.items) && (lru.items == [] ==> lruUsage == 0)
    {
    }
  }

  /** A name out of the cache. */
  ghost function WithoutName(v: View, name: Name): View {
    if name !in v.contents || v.contents[name] !in v.handles || v.handles[v.contents[name]].refs == 0 then v
    else if v.handles[v.contents[name]].refs == 1 then Dropped(v, v.contents[name])
    else Detached(v, v.contents[name])
  }

  /** The place behind all entries of the pool: of the whole list if `high`, otherwise of those that
      are out of the high priority pool. */
  ghost predicate NewestPlace(v: View, high: bool, k: nat) {
    if high then k == |v.items| else PoolsOk(v.handles, v.items, k)
  }

  lemma PlaceOfNewest(w: View, e: nat, h: Handle, low: nat, high: bool)
    requires e !in w.handles && e !in w.items && PoolsOk(w.handles[e := h], w.items, low)
    ensures NewestPlace(w, high, if high then |w.items| else low) && PoolsOk(w.handles, w.items, low)
  {
    assert forall k :: 0 <= k < |w.items| ==> w.items[k] in w.items;
  }

  lemma EmptyIff(items: seq<nat>)
    requires NoDuplicates(items)
    ensures Succ(items, 0) == 0 <==> items == []
  {
    assert items != [] ==> items[0] in items;
  }

  lemma FirstOff(items: seq<nat>)
    requires items != []
    ensures items[0] in items && OffList(items, items[0]) == items[1..] && Succ(items, 0) == items[0]
  {
  }

  lemma OnListFacts(v: View, e: nat)
    requires Consistent(v) && e in v.items
    ensures e in v.handles && v.handles[e].inCache && v.handles[e].refs == 1 && e != 0
    ensures v.handles[e].name in v.contents && v.contents[v.handles[e].name] == e
  {
    var i := Index(v.items, e);
    assert v.items[i] in v.handles;
    assert HandleOk(v, e);
  }

  /** Dropping a handle that is not on the list does not concern the list. */
  lemma DropKeepsList(handles: Handles, items: seq<nat>, e: nat, low: nat)
    requires PoolsOk(handles, items, low) && e !in items
    ensures PoolsOk(handles - {e}, items, low) && AllLive(handles, items)
    ensures Charges(handles - {e}, items) == Charges(handles, items)
    ensures Charges(handles - {e}, items[low..]) == Charges(handles, items[low..])
  {
    assert forall k :: 0 <= k < |items| ==> items[k] in items;
    ChargesSame(handles, handles - {e}, items);
    ChargesSame(handles, handles - {e}, items[low..]);
  }

  lemma {:induction false} TotalSameButPool(handles: Handles, handles': Handles)
    requires SameButPool(handles, handles')
    ensures Total(handles') == Total(handles)
    decreases |handles|
  {
    if handles != map[] {
      var id :| id in handles;
      TotalWithout(handles, id);
      TotalWithout(handles', id);
      assert (handles - {id}).Keys == handles.Keys - {id};
      TotalSameButPool(handles - {id}, handles' - {id});
    }
  }

  lemma ListedIff(v: View, e: nat)
    requires Consistent(v) && e in v.handles
    ensures e in v.items <==> v.handles[e].inCache && v.handles[e].refs == 1
  {
    assert HandleOk(v, e);
  }

  lemma OffListKeeps(items: seq<nat>, e: nat)
    ensures e !in items ==> OffList(items, e) == items
  {
  }

  lemma UpdateKeepsList(handles: Handles, items: seq<nat>, e: nat, h: Handle, low: nat)
    requires PoolsOk(handles, items, low) && e in handles && h.charge == handles[e].charge
             && h.inPool == handles[e].inPool
    ensures PoolsOk(handles[e := h], items, low) && AllLive(handles, items)
    ensures Charges(handles[e := h], items) == Charges(handles, items)
    ensures Charges(handles[e := h], items[low..]) == Charges(handles, items[low..])
  {
    ChargesSame(handles, handles[e := h], items);
    ChargesSame(handles, handles[e := h], items[low..]);
  }

  lemma CachedFacts(v: View, name: Name)
    requires Consistent(v) && name in v.contents
    ensures var e := v.contents[name];
            && e in v.handles && v.handles[e].inCache && v.handles[e].name == name && v.handles[e].refs >= 1
            && (e in v.items <==> v.handles[e].refs == 1)
  {
    assert HandleOk(v, v.contents[name]);
  }

  lemma OffListShorter(items: seq<nat>, e: nat)
    ensures items == [] ==> OffList(items, e) == []
  {
  }

  /** A view without a name it had. */
  lemma ErasedFacts(v: View, name: Name)
    requires Consistent(v) && name in v.contents
    ensures var w, e := WithoutName(v, name), v.contents[name];
            && Consistent(w) && w == View(w.handles, w.items, v.contents - {name}, v.external, v.issued, w.freed)
            && e in v.handles && v.handles[e].refs >= 1 && Total(w.handles) <= Total(v.handles)
            && w == (if v.handles[e].refs == 1 then Dropped(v, e) else Detached(v, e))
            && (v.items == [] ==> w.items == [])
  {
    hide Consistent, Total, OffList;
    CachedFacts(v, name);
    LeavingConsistent(v, v.contents[name]);
    OffListShorter(v.items, v.contents[name]);
  }

  /** Both ways of leaving the cache keep everything consistent and the charges exact. */
  lemma LeavingConsistent(v: View, e: nat)
    requires Consistent(v) && e in v.handles && v.handles[e].inCache && v.handles[e].refs >= 1
    ensures v.handles[e].refs == 1 ==>
            Consistent(Dropped(v, e)) && Total(v.handles - {e}) == Total(v.handles) - v.handles[e].charge
    ensures v.handles[e].refs > 1 ==> Consistent(Detached(v, e)) && Total(Detached(v, e).handles) == Total(v.handles)
  {
    hide Total;
    assert HandleOk(v, e);
    if v.handles[e].refs == 1 {
      DroppedConsistent(v, e);
      TotalWithout(v.handles, e);
    } else {
      DetachedConsistent(v, e);
      TotalUpdate(v.handles, e, v.handles[e].(refs := v.handles[e].refs - 1, inCache := false));
    }
  }

  lemma ExternalFacts(v: View, e: nat)
    requires Consistent(v) && e in v.external
    ensures e in v.handles && v.handles[e].refs >= 1 && e != 0 && e !in v.items
    ensures v.handles[e].refs == 1 ==> !v.handles[e].inCache
  {
    assert HandleOk(v, e) && FreedOk(v, e);
  }

  lemma OffWith(items: seq<nat>, k: nat, e: nat)
    requires k <= |items| && e !in items
    ensures e in With(items, k, e) && OffList(With(items, k, e), e) == items
  {
    var ys := With(items, k, e);
    assert ys[k] == e;
    assert Index(ys, e) == k by {
      assert forall j :: 0 <= j < |ys| && j != k ==> ys[j] in items;
    }
  }

  lemma UnpinnedAndDropped(v: View, e: nat)
    requires Consistent(v) && e in v.external && e in v.handles && v.handles[e].refs == 2 && v.handles[e].inCache
    ensures e !in v.items
    ensures Dropped(Unpinned(v, e, 0), e) ==
            v.(handles := v.handles - {e}, external := v.external - multiset{e}, contents :=
                v.contents - {v.handles[e].name},
               freed := v.freed + [e])
    ensures Consistent(Dropped(Unpinned(v, e, 0), e))
            && Total(v.handles - {e}) == Total(v.handles) - v.handles[e].charge
    ensures v.handles[e := v.handles[e].(refs := 1)] - {e} == v.handles - {e}
  {
    hide Total, Consistent, OffList, With;
    ExternalFacts(v, e);
    UnpinnedConsistent(v, e, 0);
    OffWith(v.items, 0, e);
    DroppedConsistent(Unpinned(v, e, 0), e);
    TotalWithout(v.handles, e);
  }

  lemma UnpinnedAndKept(v: View, e: nat, k: nat, handles': Handles)
    requires Consistent(v) && e in v.external && e in v.handles && v.handles[e].refs == 2 && v.handles[e].inCache
             && k <= |v.items|
    requires SameButPool(v.handles[e := v.handles[e].(refs := 1)], handles')
    ensures var v' := Unpinned(v, e, k);
            && v'.handles == v.handles[e := v.handles[e].(refs := 1)]
            && v'.(handles := handles')
                == v.(handles := handles', external := v.external - multiset{e}, items := With(v.items, k, e))
            && Consistent(v'.(handles := handles')) && Total(handles') == Total(v.handles)
  {
    hide Total, Consistent, With, SameButPool;
    UnpinnedConsistent(v, e, k);
    PoolIsSeparate(Unpinned(v, e, k), handles');
    TotalUpdate(v.handles, e, v.handles[e].(refs := 1));
    TotalSameButPool(v.handles[e := v.handles[e].(refs := 1)], handles');
  }

  lemma AddKeepsList(handles: Handles, items: seq<nat>, e: nat, h: Handle, low: nat)
    requires PoolsOk(handles, items, low) && e !in handles
    ensures PoolsOk(handles[e := h], items, low) && AllLive(handles, items)
    ensures Charges(handles[e := h], items) == Charges(handles, items)
    ensures Charges(handles[e := h], items[low..]) == Charges(handles, items[low..])
  {
    ChargesSame(handles, handles[e := h], items);
    ChargesSame(handles, handles[e := h], items[low..]);
  }

  lemma SamePool(handles: Handles)
    ensures SameButPool(handles, handles)
  {
  }

  /** Taking a name out of the cache, in the terms of the single updates. */
  lemma WithoutNameFacts(v: View, h: Handle)
    requires Consistent(v)
    ensures var w, e := WithoutName(v, h.name), v.issued;
            && Consistent(w) && h.name !in w.contents && w.issued == v.issued && w.external == v.external
            && e !in v.handles && e !in w.handles && e !in w.items && e != 0 && Total(w.handles) <= Total(v.handles)
            && v.contents[h.name := e] == w.contents[h.name := e] && (v.items == [] ==> w.items == [])
            && (h.name !in v.contents ==> w == v)
    ensures h.name in v.contents ==>
              var w, e, o := WithoutName(v, h.name), v.issued, v.contents[h.name];
              && o in v.handles && o != e && v.handles[o].inCache && v.handles[o].refs >= 1
              && (o in v.items <==> v.handles[o].refs == 1)
              && var g := v.handles[o];
                 if g.refs == 1 then
                   && w.items == OffList(v.items, o) && w.freed == v.freed + [o]
                       && v.handles[e := h] - {o} == w.handles[e := h]
                   && Total(w.handles) == Total(v.handles) - g.charge
                 else
                   && w.items == v.items && w.freed == v.freed && Total(w.handles) == Total(v.handles)
                   && v.handles[e := h][o := g.(refs := g.refs - 1, inCache := false)] == w.handles[e := h]
  {
    hide Consistent, Total, OffList;
    NewIsFresh(v);
    if h.name in v.contents {
      CachedFacts(v, h.name);
      LeavingConsistent(v, v.contents[h.name]);
      OffListShorter(v.items, v.contents[h.name]);
    }
    NewIsFresh(WithoutName(v, h.name));
  }

  lemma NameLeaves(v: View, h: Handle)
    requires Consistent(v)
    ensures var w, e := WithoutName(v, h.name), v.issued;
            && e !in v.handles && e !in v.items && Total(w.handles) <= Total(v.handles)
            && (h.name !in v.contents ==> w == v)
            && v.contents[h.name := e] == w.contents[h.name := e]
  {
    hide Consistent, Total, OffList, WithoutName;
    WithoutNameFacts(v, h);
    NewIsFresh(v);
  }

  /** Entering the cache, in the terms of the single updates. */
  lemma EnteredFacts(w: View, h: Handle, hold: bool, k: nat, handles': Handles)
    requires Consistent(w) && h.name !in w.contents && h.inCache && h.refs == (if hold then 2 else 1) && k <= |w.items|
    requires SameButPool(w.handles[w.issued := h], handles')
    ensures var v := Entered(w, h, hold, k);
            && SameButPool(v.handles, handles') && Consistent(v.(handles := handles'))
                && Total(handles') == Total(w.handles) + h.charge
            && w.issued in handles' && (!hold ==> w.issued in v.items)
  {
    hide Consistent, Total, With;
    NewIsFresh(w);
    EnteredConsistent(w, h, hold, k);
    PoolIsSeparate(Entered(w, h, hold, k), handles');
    TotalWith(w.handles, w.issued, h);
    TotalSameButPool(w.handles[w.issued := h], handles');
    OffWith(w.items, k, w.issued);
  }

  /** A handle that is freed at once. */
  lemma RejectedConsistent(v: View)
    requires Consistent(v)
    ensures Consistent(v.(issued := v.issued + 1, freed := v.freed + [v.issued]))
    ensures multiset(v.freed + [v.issued])[v.issued] == 1 && v.issued !in v.handles
  {
    var v' := v.(issued := v.issued + 1, freed := v.freed + [v.issued]);
    assert FreedOk(v, v.issued);
    forall id | id in v'.handles
      ensures HandleOk(v', id)
    {
      assert HandleOk(v, id);
    }
    forall id: nat
      ensures FreedOk(v', id)
    {
      assert FreedOk(v, id);
    }
  }

  /** The first `k` entries of the list are gone, from everywhere, and are freed in this order. */
  ghost predicate Evicted(v: View, v': View, k: int) {
    && 0 <= k <= |v.items| && v'.items == v.items[k..] && v'.freed == v.freed + v.items[..k]
    && v'.external == v.external && v'.issued == v.issued
    && (forall id :: id in v'.handles <==> id in v.handles && id !in v.items[..k])
    && (forall id :: id in v'.handles ==> v'.handles[id] == v.handles[id])
    && (forall name :: name in v'.contents <==> name in v.contents && v.contents[name] !in v.items[..k])
    && (forall name :: name in v'.contents ==> v'.contents[name] == v.contents[name])
  }

  /** Without the last of the `k` evictions the new entry would not fit. */
  ghost predicate LastWasNeeded(v: View, k: int, need: int, capacity: int) {
    0 < k <= |v.items| ==> v.items[k - 1] in v.handles && need + v.handles[v.items[k - 1]].charge > capacity
  }

  lemma NeededNow(v: View, k: int, need: int, capacity: int)
    requires 0 < k <= |v.items| && v.items[k - 1] in v.handles && need > capacity
    ensures LastWasNeeded(v, k, need - v.handles[v.items[k - 1]].charge, capacity)
  {
  }

  lemma NothingEvicted(v: View)
    ensures Evicted(v, v, 0) && forall need, capacity :: LastWasNeeded(v, 0, need, capacity)
  {
  }

  lemma EvictedLists(v: View, v': View, k: int)
    requires Evicted(v, v', k)
    ensures 0 <= k <= |v.items| && v'.items == v.items[k..] && v'.freed == v.freed + v.items[..k]
    ensures v'.external == v.external && v'.issued == v.issued
  {
  }

  lemma OneMoreId(v: View, w: View, k: int, id: nat)
    requires Evicted(v, w, k) && w.items != [] && w.items[0] in w.handles
    ensures var w' := Dropped(w, w.items[0]);
            && (id in w'.handles <==> id in v.handles && id !in v.items[..k + 1])
            && (id in w'.handles ==> w'.handles[id] == v.handles[id])
  {
    assert v.items[..k + 1] == v.items[..k] + [w.items[0]];
  }

  lemma OneMoreName(v: View, w: View, k: int, name: Name)
    requires Consistent(w) && Evicted(v, w, k) && w.items != [] && w.items[0] in w.handles
    ensures var w' := Dropped(w, w.items[0]);
            && (name in w'.contents <==> name in v.contents && v.contents[name] !in v.items[..k + 1])
            && (name in w'.contents ==> w'.contents[name] == v.contents[name])
  {
    var e := w.items[0];
    OnListFacts(w, e);
    assert v.items[..k + 1] == v.items[..k] + [e];
    assert name in w.contents ==> w.handles[w.contents[name]].name == name;
  }

  lemma OneMoreEvicted(v: View, w: View, k: int)
    requires Consistent(w) && Evicted(v, w, k) && w.items != []
    ensures w.items[0] in w.handles && Evicted(v, Dropped(w, w.items[0]), k + 1)
    ensures 0 <= k < |v.items| && w.items[0] == v.items[k] && v.items[k] in v.handles
            && w.handles[w.items[0]] == v.handles[v.items[k]]
  {
    hide Consistent, OffList, Index;
    var e := w.items[0];
    OnListFacts(w, e);
    FirstOff(w.items);
    assert Dropped(w, e).items == v.items[k + 1..];
    assert v.items[..k + 1] == v.items[..k] + [e];
    forall id
      ensures id in Dropped(w, e).handles <==> id in v.handles && id !in v.items[..k + 1]
      ensures id in Dropped(w, e).handles ==> Dropped(w, e).handles[id] == v.handles[id]
    {
      OneMoreId(v, w, k, id);
    }
    forall name
      ensures name in Dropped(w, e).contents <==> name in v.contents && v.contents[name] !in v.items[..k + 1]
      ensures name in Dropped(w, e).contents ==> Dropped(w, e).contents[name] == v.contents[name]
    {
      OneMoreName(v, w, k, name);
    }
  }

  /** The three states of a live handle, of which it is in exactly one. */
  lemma ThreeStates(v: View, id: nat)
    requires Consistent(v) && id in v.handles
    ensures var h := v.handles[id]; var listed, named := id in v.items, h.name in v.contents
            && v.contents[h.name] == id;
            || (h.refs > 1 && h.inCache && named && !listed && id in v.external)
            || (h.refs == 1 && h.inCache && named && listed && id !in v.external)
            || (h.refs >= 1 && !h.inCache && !named && !listed && id in v.external)
  {
    assert HandleOk(v, id);
  }
}
