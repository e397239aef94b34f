/** Handles of the LRU cache, their charges, and what holds of them between operations. */
module LruHandles {
  import opened Basics
  import opened LruTable
  import opened LruList

  datatype Handle = Handle(name: Name, charge: nat, refs: nat, inCache: bool, highPri: bool, inPool: bool)

  type Handles = map<nat, Handle>

  // ---------------------------------------------------------------- sums of charges

  ghost function Total(handles: Handles): nat
    decreases |handles|
  {
    if handles == map[] then 0
    else
      var id :| id in handles;
      assert (handles - {id}).Keys == handles.Keys - {id};
      handles[id].charge + Total(handles - {id})
  }

  lemma {:induction false} TotalWithout(handles: Handles, id: nat)
    requires id in handles
    ensures Total(handles) == handles[id].charge + Total(handles - {id})
    decreases |handles|
  {
    var g :| g in handles && Total(handles) == handles[g].charge + Total(handles - {g});
    if g != id {
      assert (handles - {g}).Keys == handles.Keys - {g};
      assert (handles - {id}).Keys == handles.Keys - {id};
      TotalWithout(handles - {g}, id);
      TotalWithout(handles - {id}, g);
      assert handles - {g} - {id} == handles - {id} - {g};
    }
  }

  lemma TotalWith(handles: Handles, id: nat, h: Handle)
    requires id !in handles
    ensures Total(handles[id := h]) == Total(handles) + h.charge
  {
    TotalWithout(handles[id := h], id);
    assert handles[id := h] - {id} == handles;
  }

  /** Changing a handle but not its charge. */
  lemma TotalUpdate(handles: Handles, id: nat, h: Handle)
    requires id in handles && h.charge == handles[id].charge
    ensures Total(handles[id := h]) == Total(handles)
  {
    TotalWithout(handles, id);
    TotalWithout(handles[id := h], id);
    assert handles[id := h] - {id} == handles - {id};
  }

  predicate AllLive(handles: Handles, items: seq<nat>) {
    forall k :: 0 <= k < |items| ==> items[k] in handles
  }

  function Charges(handles: Handles, items: seq<nat>): nat
    requires AllLive(handles, items)
  {
    if items == [] then 0 else handles[items[0]].charge + Charges(handles, items[1..])
  }

  lemma {:induction false} ChargesSame(handles: Handles, handles': Handles, items: seq<nat>)
    requires AllLive(handles, items) && AllLive(handles', items)
    requires forall k :: 0 <= k < |items| ==> handles'[items[k]].charge == handles[items[k]].charge
    ensures Charges(handles', items) == Charges(handles, items)
  {
    if items != [] {
      ChargesSame(handles, handles', items[1..]);
    }
  }

  lemma {:induction false} ChargesSplit(handles: Handles, xs: seq<nat>, ys: seq<nat>)
    requires AllLive(handles, xs) && AllLive(handles, ys)
    ensures AllLive(handles, xs + ys) && Charges(handles, xs + ys) == Charges(handles, xs) + Charges(handles, ys)
  {
    if xs == [] {
      assert xs + ys == ys;
    } else {
      ChargesSplit(handles, xs[1..], ys);
      assert (xs + ys)[1..] == xs[1..] + ys;
    }
  }

  lemma ChargesOne(handles: Handles, e: nat)
    requires e in handles
    ensures AllLive(handles, [e]) && Charges(handles, [e]) == handles[e].charge
  {
  }

  lemma ChargesWithout(handles: Handles, items: seq<nat>, i: nat)
    requires AllLive(handles, items) && i < |items|
    ensures AllLive(handles, Without(items, i))
    ensures Charges(handles, items) == Charges(handles, Without(items, i)) + handles[items[i]].charge
  {
    hide Charges;
    var xs, e, ys := items[..i], items[i], items[i + 1..];
    ChargesSplit(handles, xs, ys);
    ChargesOne(handles, e);
    ChargesSplit(handles, [e], ys);
    ChargesSplit(handles, xs, [e] + ys);
    assert items == xs + ([e] + ys);
  }

  lemma ChargesWith(handles: Handles, items: seq<nat>, k: nat, e: nat)
    requires AllLive(handles, items) && k <= |items| && e in handles
    ensures AllLive(handles, With(items, k, e))
    ensures Charges(handles, With(items, k, e)) == Charges(handles, items) + handles[e].charge
  {
    hide Charges;
    var xs, ys := items[..k], items[k..];
    ChargesSplit(handles, xs, ys);
    ChargesOne(handles, e);
    ChargesSplit(handles, [e], ys);
    ChargesSplit(handles, xs, [e] + ys);
    assert items == xs + ys;
    assert With(items, k, e) == xs + ([e] + ys);
  }

  // ---------------------------------------------------------------- pools

  /** The first `low` items are the low priority pool, the others the high priority pool. */
  ghost predicate PoolsOk(handles: Handles, items: seq<nat>, low: nat) {
    low <= |items| && AllLive(handles, items) && forall k :: 0 <= k < |items| ==>
        (handles[items[k]].inPool <==> k >= low)
  }

  lemma RemoveKeepsPools(handles: Handles, items: seq<nat>, low: nat, i: nat)
    requires PoolsOk(handles, items, low) && i < |items|
    ensures low <= |items| && items[i] in handles && (handles[items[i]].inPool <==> i >= low) && AllLive(handles, items)
    ensures var low' := if i < low then low - 1 else low;
            && PoolsOk(handles, Without(items, i), low')
            && Charges(handles, Without(items, i)[low'..])
                == Charges(handles, items[low..]) - (if i < low then 0 else handles[items[i]].charge)
  {
    var items' := Without(items, i);
    if i < low {
      assert items'[low - 1..] == items[low..];
    } else {
      ChargesWithout(handles, items[low..], i - low);
      assert items'[low..] == Without(items[low..], i - low);
    }
  }

  lemma InsertLowKeepsPools(handles: Handles, items: seq<nat>, low: nat, e: nat)
    requires PoolsOk(handles, items, low) && e in handles && e !in items
    ensures var handles' := handles[e := handles[e].(inPool := false)];
            && PoolsOk(handles', With(items, low, e), low + 1)
            && Charges(handles', With(items, low, e)[low + 1..]) == Charges(handles, items[low..])
            && Charges(handles', With(items, low, e)) == Charges(handles, items) + handles[e].charge
  {
    var handles' := handles[e := handles[e].(inPool := false)];
    var items' := With(items, low, e);
    assert items'[low + 1..] == items[low..];
    ChargesSame(handles, handles', items[low..]);
    ChargesSame(handles, handles', items);
    ChargesWith(handles', items, low, e);
  }

  lemma InsertHighKeepsPools(handles: Handles, items: seq<nat>, low: nat, e: nat)
    requires PoolsOk(handles, items, low) && e in handles && e !in items
    ensures var handles' := handles[e := handles[e].(inPool := true)]; var items' := With(items, |items|, e);
            && PoolsOk(handles', items', low)
            && Charges(handles', items'[low..]) == Charges(handles, items[low..]) + handles[e].charge
            && Charges(handles', items') == Charges(handles, items) + handles[e].charge
  {
    var handles' := handles[e := handles[e].(inPool := true)];
    var items' := With(items, |items|, e);
    assert items'[low..] == With(items[low..], |items[low..]|, e);
    ChargesSame(handles, handles', items[low..]);
    ChargesSame(handles, handles', items);
    ChargesWith(handles', items, |items|, e);
    ChargesWith(handles', items[low..], |items[low..]|, e);
  }

  lemma PoolFacts(handles: Handles, items: seq<nat>, low: nat)
    requires PoolsOk(handles, items, low)
    ensures low <= |items| && AllLive(handles, items)
    ensures Charges(handles, items[low..]) > 0 ==> low < |items| && items[low] in handles
    ensures low == |items| ==> Charges(handles, items[low..]) == 0
  {
  }

  /** The oldest entry of the high priority pool becomes the newest of the low priority pool. */
  lemma OverflowKeepsPools(handles: Handles, items: seq<nat>, low: nat)
    requires PoolsOk(handles, items, low) && low < |items| && NoDuplicates(items)
    ensures var e := items[low]; var handles' := handles[e := handles[e].(inPool := false)];
            && PoolsOk(handles', items, low + 1)
            && Charges(handles', items[low + 1..]) == Charges(handles, items[low..]) - handles[e].charge
            && Charges(handles', items[low..]) == Charges(handles, items[low..])
            && Charges(handles', items) == Charges(handles, items)
  {
    var e := items[low];
    var handles' := handles[e := handles[e].(inPool := false)];
    ChargesSame(handles, handles', items[low..]);
    ChargesSame(handles, handles', items);
    ChargesSame(handles, handles', items[low + 1..]);
    assert items[low..][1..] == items[low + 1..];
  }

  // ---------------------------------------------------------------- between operations

  /** The handles, the list, the table, the references of callers, how many handles were ever
      allocated, and which were freed. */
  datatype View = View(handles: Handles, items: seq<nat>, contents: map<Name, nat>, external: multiset<nat>,
                       issued: nat,
                       freed: seq<nat>)

  /** A live handle: the cache and the callers account for its references, the table leads to it
      exactly while it is in the cache, and it is on the list exactly if only the cache has it. */
  predicate HandleOk(v: View, id: nat)
    requires id in v.handles
  {
    var h := v.handles[id];
    && h.refs == Bit(h.inCache) + v.external[id] && h.refs >= 1
    && (h.inCache <==> h.name in v.contents && v.contents[h.name] == id)
    && (id in v.items <==> h.inCache && h.refs == 1)
  }

  /** Every handle ever allocated is live or was freed once. */
  predicate FreedOk(v: View, id: nat) {
    && (id in v.handles ==> 1 <= id < v.issued)
    && multiset(v.freed)[id] == Bit(1 <= id < v.issued && id !in v.handles)
  }

  ghost predicate Consistent(v: View) {
    && (forall id :: id in v.handles ==> HandleOk(v, id))
    && (forall id: nat :: FreedOk(v, id))
    && (forall id :: id in v.external ==> id in v.handles)
    && (forall name :: name in v.contents ==> v.contents[name] in v.handles && v.handles[v.contents[name]].name == name)
    && AllLive(v.handles, v.items) && NoDuplicates(v.items) && v.issued >= 1
  }

  function Index(items: seq<nat>, e: nat): (i: nat)
    requires e in items
    ensures i < |items| && items[i] == e
  {
    if items[0] == e then 0 else 1 + Index(items[1..], e)
  }

  /** The list without a handle, if it is on it. */
  function OffList(items: seq<nat>, e: nat): seq<nat> {
    if e in items then Without(items, Index(items, e)) else items
  }

  lemma OffListHas(items: seq<nat>, e: nat)
    requires NoDuplicates(items)
    ensures NoDuplicates(OffList(items, e)) && forall id :: id in OffList(items, e) <==> id in items && id != e
  {
    if e in items {
      var i := Index(items, e);
      forall id | id in items && id != e
        ensures id in Without(items, i)
      {
        var j :| 0 <= j < |items| && items[j] == id;
        assert id == Without(items, i)[if j < i then j else j - 1];
      }
    }
  }

  lemma WithHas(items: seq<nat>, k: nat, e: nat)
    requires NoDuplicates(items) && k <= |items| && e !in items && e != 0
    ensures NoDuplicates(With(items, k, e)) && forall id :: id in With(items, k, e) <==> id in items || id == e
  {
    assert With(items, k, e)[k] == e;
    forall id | id in items
      ensures id in With(items, k, e)
    {
      var j :| 0 <= j < |items| && items[j] == id;
      assert id == With(items, k, e)[if j < k then j else j + 1];
    }
  }

  // ---------------------------------------------------------------- steps of the operations

  /** A caller takes a reference; the handle leaves the list. */
  function Pinned(v: View, e: nat): View
    requires e in v.handles
  {
    v.(handles := v.handles[e := v.handles[e].(refs := v.handles[e].refs + 1)], items := OffList(v.items, e),
       external := v.external + multiset{e})
  }

  lemma PinnedHandle(v: View, e: nat, id: nat)
    requires Consistent(v) && e in v.handles && id in v.handles
    ensures HandleOk(Pinned(v, e), id)
  {
    OffListHas(v.items, e);
    assert HandleOk(v, id);
    hide NoDuplicates, OffList;
  }

  lemma PinnedConsistent(v: View, e: nat)
    requires Consistent(v) && e in v.handles
    ensures Consistent(Pinned(v, e))
  {
    hide HandleOk, NoDuplicates;
    OffListHas(v.items, e);
    var v' := Pinned(v, e);
    forall id | id in v'.handles
      ensures HandleOk(v', id)
    {
      PinnedHandle(v, e, id);
    }
    forall id: nat
      ensures FreedOk(v', id)
    {
      assert FreedOk(v, id);
    }
    forall k | 0 <= k < |v'.items|
      ensures v'.items[k] in v'.handles
    {
      assert v'.items[k] in v.items;
    }
  }

  /** The last reference of a caller to a handle outside the cache goes, and with it the handle. */
  function Discarded(v: View, e: nat): View
    requires e in v.handles
  {
    v.(handles := v.handles - {e}, external := v.external - multiset{e}, freed := v.freed + [e])
  }

  lemma DiscardedConsistent(v: View, e: nat)
    requires Consistent(v) && e in v.external && e in v.handles && v.handles[e].refs == 1
    ensures Consistent(Discarded(v, e))
  {
    var v' := Discarded(v, e);
    assert HandleOk(v, e);
    forall id | id in v'.handles
      ensures HandleOk(v', id)
    {
      assert HandleOk(v, id);
    }
    forall id: nat
      ensures FreedOk(v', id)
    {
      assert FreedOk(v, id);
    }
    forall name | name in v'.contents
      ensures v'.contents[name] in v'.handles
    {
      assert HandleOk(v, v.contents[name]);
    }
  }

  /** A caller gives a reference back, others remain; the handle goes on the list at place `k` if
      only the cache is left. */
  function Unpinned(v: View, e: nat, k: nat): View
    requires e in v.handles && v.handles[e].refs >= 1 && k <= |v.items|
  {
    var h := v.handles[e];
    v.(handles := v.handles[e := h.(refs := h.refs - 1)], external := v.external - multiset{e},
       items := if h.inCache && h.refs == 2 then With(v.items, k, e) else v.items)
  }

  lemma UnpinnedConsistent(v: View, e: nat, k: nat)
    requires Consistent(v) && e in v.external && e in v.handles && v.handles[e].refs >= 2 && k <= |v.items|
    ensures Consistent(Unpinned(v, e, k))
  {
    var v' := Unpinned(v, e, k);
    assert HandleOk(v, e) && FreedOk(v, e);
    if v.handles[e].inCache && v.handles[e].refs == 2 {
      WithHas(v.items, k, e);
    }
    hide HandleOk, FreedOk, NoDuplicates, With, AllLive;
    UnpinnedRest(v, e, k);
    forall id | id in v'.handles
      ensures HandleOk(v', id)
    {
      UnpinnedHandle(v, e, k, id);
    }
    forall id: nat
      ensures FreedOk(v', id)
    {
      UnpinnedFreed(v, e, k, id);
    }
  }

  lemma UnpinnedHandle(v: View, e: nat, k: nat, id: nat)
    requires Consistent(v) && e in v.external && e in v.handles && v.handles[e].refs >= 2 && k <= |v.items|
    requires id in v.handles
    ensures HandleOk(Unpinned(v, e, k), id)
  {
    assert HandleOk(v, e) && HandleOk(v, id) && FreedOk(v, e);
    if v.handles[e].inCache && v.handles[e].refs == 2 {
      WithHas(v.items, k, e);
    }
    hide NoDuplicates, With, FreedOk;
  }

  lemma UnpinnedRest(v: View, e: nat, k: nat)
    requires Consistent(v) && e in v.handles && v.handles[e].refs >= 1 && k <= |v.items|
    ensures var v' := Unpinned(v, e, k);
            && (forall id :: id in v'.external ==> id in v'.handles)
            && (forall name :: name in v'.contents ==>
                v'.contents[name] in v'.handles && v'.handles[v'.contents[name]].name == name)
            && AllLive(v'.handles, v'.items)
  {
    hide HandleOk, FreedOk, NoDuplicates;
  }

  lemma UnpinnedFreed(v: View, e: nat, k: nat, id: nat)
    requires Consistent(v) && e in v.handles && v.handles[e].refs >= 1 && k <= |v.items|
    ensures FreedOk(Unpinned(v, e, k), id)
  {
    assert FreedOk(v, id);
    hide Consistent, With;
  }

  /** A handle that only the cache has is dropped from list, table and cache, and freed. */
  function Dropped(v: View, e: nat): View
    requires e in v.handles
  {
    v.(handles := v.handles - {e}, items := OffList(v.items, e), contents := v.contents - {v.handles[e].name}, freed :=
        v.freed + [e])
  }

  lemma DroppedConsistent(v: View, e: nat)
    requires Consistent(v) && e in v.items
    ensures e in v.handles && Consistent(Dropped(v, e))
  {
    var i := Index(v.items, e);
    assert v.items[i] in v.handles;
    OffListHas(v.items, e);
    DroppedRest(v, e);
    hide HandleOk, FreedOk, NoDuplicates, OffList, AllLive;
    var v' := Dropped(v, e);
    forall id | id in v'.handles
      ensures HandleOk(v', id)
    {
      DroppedHandle(v, e, id);
    }
    forall id: nat
      ensures FreedOk(v', id)
    {
      DroppedFreed(v, e, id);
    }
  }

  lemma DroppedRest(v: View, e: nat)
    requires Consistent(v) && e in v.items && e in v.handles
    ensures var v' := Dropped(v, e);
            && (forall id :: id in v'.external ==> id in v'.handles)
            && (forall name :: name in v'.contents ==>
                v'.contents[name] in v'.handles && v'.handles[v'.contents[name]].name == name)
            && AllLive(v'.handles, v'.items)
  {
    OffListHas(v.items, e);
    assert HandleOk(v, e);
    hide HandleOk, FreedOk, NoDuplicates, OffList;
    var v' := Dropped(v, e);
    forall k | 0 <= k < |v'.items|
      ensures v'.items[k] in v'.handles
    {
      assert v'.items[k] in v.items;
    }
  }

  lemma DroppedHandle(v: View, e: nat, id: nat)
    requires Consistent(v) && e in v.items && e in v.handles && id in v.handles && id != e
    ensures HandleOk(Dropped(v, e), id)
  {
    OffListHas(v.items, e);
    assert HandleOk(v, e) && HandleOk(v, id);
    hide NoDuplicates, OffList, FreedOk;
  }

  lemma DroppedFreed(v: View, e: nat, id: nat)
    requires Consistent(v) && e in v.handles
    ensures FreedOk(Dropped(v, e), id)
  {
    assert FreedOk(v, id) && FreedOk(v, e);
    hide NoDuplicates, OffList, HandleOk, Consistent;
  }

  /** A handle in the cache that callers still have is taken out of the table. */
  function Detached(v: View, e: nat): View
    requires e in v.handles && v.handles[e].refs >= 1
  {
    var h := v.handles[e];
    v.(handles := v.handles[e := h.(refs := h.refs - 1, inCache := false)], contents := v.contents - {h.name})
  }

  lemma DetachedConsistent(v: View, e: nat)
    requires Consistent(v) && e in v.handles && v.handles[e].inCache && v.handles[e].refs >= 2
    ensures Consistent(Detached(v, e))
  {
    var v' := Detached(v, e);
    assert HandleOk(v, e);
    forall id | id in v'.handles
      ensures HandleOk(v', id)
    {
      assert HandleOk(v, id);
    }
    forall id: nat
      ensures FreedOk(v', id)
    {
      assert FreedOk(v, id);
    }
    forall name | name in v'.contents
      ensures v'.contents[name] in v'.handles && v'.handles[v'.contents[name]].name == name
    {
      assert HandleOk(v, v.contents[name]);
    }
  }

  /** A new handle enters the cache under a name not in the table, pinned by the caller or on the list. */
  function Entered(v: View, h: Handle, hold: bool, k: nat): View
    requires k <= |v.items|
  {
    v.(handles := v.handles[v.issued := h], contents := v.contents[h.name := v.issued], issued := v.issued + 1,
       external := if hold then v.external + multiset{v.issued} else v.external,
       items := if hold then v.items else With(v.items, k, v.issued))
  }

  lemma NewIsFresh(v: View)
    requires Consistent(v)
    ensures v.issued !in v.handles && v.issued !in v.items && v.external[v.issued] == 0 && v.issued >= 1
    ensures forall name :: name in v.contents ==> v.contents[name] != v.issued
  {
    assert FreedOk(v, v.issued);
    assert forall j :: 0 <= j < |v.items| ==> v.items[j] in v.handles;
  }

  lemma EnteredHandle(v: View, h: Handle, hold: bool, k: nat, id: nat)
    requires Consistent(v) && h.name !in v.contents && h.inCache && h.refs == (if hold then 2 else 1) && k <= |v.items|
    requires id in Entered(v, h, hold, k).handles
    ensures HandleOk(Entered(v, h, hold, k), id)
  {
    NewIsFresh(v);
    if !hold {
      WithHas(v.items, k, v.issued);
    }
    assert id != v.issued ==> HandleOk(v, id);
    hide NoDuplicates, With;
  }

  lemma EnteredRest(v: View, h: Handle, hold: bool, k: nat)
    requires Consistent(v) && h.name !in v.contents && k <= |v.items| && v.issued !in v.handles
    ensures var v' := Entered(v, h, hold, k);
            && (forall id :: id in v'.external ==> id in v'.handles)
            && (forall name :: name in v'.contents ==>
                v'.contents[name] in v'.handles && v'.handles[v'.contents[name]].name == name)
            && AllLive(v'.handles, v'.items)
  {
    hide HandleOk, FreedOk, NoDuplicates;
  }

  lemma EnteredFreed(v: View, h: Handle, hold: bool, k: nat, id: nat)
    requires Consistent(v) && k <= |v.items|
    ensures FreedOk(Entered(v, h, hold, k), id)
  {
    assert FreedOk(v, id);
    hide Consistent, With;
  }

  lemma EnteredConsistent(v: View, h: Handle, hold: bool, k: nat)
    requires Consistent(v) && h.name !in v.contents && h.inCache && h.refs == (if hold then 2 else 1) && k <= |v.items|
    ensures Consistent(Entered(v, h, hold, k))
  {
    hide HandleOk, FreedOk, NoDuplicates, With, AllLive;
    var v', e := Entered(v, h, hold, k), v.issued;
    NewIsFresh(v);
    EnteredRest(v, h, hold, k);
    if !hold {
      WithHas(v.items, k, e);
    }
    forall id | id in v'.handles
      ensures HandleOk(v', id)
    {
      EnteredHandle(v, h, hold, k, id);
    }
    forall id: nat
      ensures FreedOk(v', id)
    {
      EnteredFreed(v, h, hold, k, id);
    }
  }
}
