/**
  Eviction from the clock cache while no other thread takes or drops references: the hand goes
  round the list at most twice, from where it stopped last time.
*/
module ClockEviction {
  import opened Basics
  import opened ClockCache
  import opened ClockSafety
  import opened ClockSteps
  import opened ClockGuard

  // ---------------------------------------------------------------- packed flags

  /** One integer: the in-cache bit, the usage bit, and the reference count above them. */
  function Packed(f: Flags): int { Bit(f.inCache) + 2 * Bit(f.used) + 4 * f.refs }

  function Unpacked(x: int): Flags { Flags(x % 2 == 1, x / 2 % 2 == 1, x / 4) }

  /** Additions, the setting and the clearing of one bit, and comparisons of the packed integer
      do to it what they should do to the flags. */
  lemma PackedOperations(f: Flags, g: Flags)
    requires f.refs >= 0 && g.refs >= 0
    ensures Unpacked(Packed(f)) == f && (Packed(f) == Packed(g) <==> f == g)
    ensures Packed(f.(refs := f.refs + 1)) == Packed(f) + 4 && Packed(f.(refs := f.refs - 1)) == Packed(f) - 4
    ensures Packed(f.(used := true)) == Packed(f) + (if Unpacked(Packed(f)).used then 0 else 2)
    ensures Packed(f.(used := false)) == Packed(f) - (if Unpacked(Packed(f)).used then 2 else 0)
    ensures Packed(f.(inCache := false)) == Packed(f) - Packed(f) % 2
    ensures Packed(f) == 1 <==> f == Flags(true, false, 0)
  {
  }

  // ---------------------------------------------------------------- visits of the clock hand

  predicate Evictable(f: Flags) { f.inCache && f.refs == 0 }

  /** The flags of a handle after so many visits. */
  function Visited(f: Flags, visits: nat): Flags {
    if visits == 0 then f
    else if Evictable(f) && (!f.used || visits > 1) then UNUSED
    else f.(used := false)
  }

  /** The place in the list of the `k`-th visit, for two laps. */
  function Place(n: nat, head: nat, k: nat): nat
    requires head < n && k < 2 * n
  {
    var j := if k < n then k else k - n;
    if head + j < n then head + j else head + j - n
  }

  /** How many of the first `k` visits were to place `i`. */
  function VisitsTo(n: nat, head: nat, k: nat, i: nat): nat
    requires head < n && i < n
  {
    var first := if i >= head then i - head else i - head + n;
    Bit(first < k) + Bit(first + n < k)
  }

  lemma NextVisit(n: nat, head: nat, k: nat, i: nat)
    requires head < n && k < 2 * n && i < n
    ensures Place(n, head, k) < n
    ensures VisitsTo(n, head, k + 1, i) == VisitsTo(n, head, k, i) + Bit(i == Place(n, head, k))
    ensures VisitsTo(n, head, k, Place(n, head, k)) == (if k < n then 0 else 1)
    ensures k + 1 < 2 * n ==>
              Place(n, head, k + 1) == if Place(n, head, k) + 1 >= n then 0 else Place(n, head, k) + 1
    ensures k + 1 < 2 * n ==> (Place(n, head, k + 1) == head <==> k + 1 == n)
    ensures k + 1 == 2 * n ==> (if Place(n, head, k) + 1 >= n then 0 else Place(n, head, k) + 1) == head
  {
  }

  /** The charge freed by the `k`-th visit: entries without the usage bit go in the first lap,
      the others in the second. */
  function Gain(handles: seq<Handle>, head: nat, k: nat): nat
    requires head < |handles| && k < 2 * |handles|
  {
    var h := handles[Place(|handles|, head, k)];
    if Evictable(h.flags) && (h.flags.used <==> k >= |handles|) then h.charge else 0
  }

  function Freed(handles: seq<Handle>, head: nat, k: nat): nat
    requires head < |handles| && k <= 2 * |handles|
  {
    if k == 0 then 0 else Freed(handles, head, k - 1) + Gain(handles, head, k - 1)
  }

  lemma FreedNext(handles: seq<Handle>, head: nat, k: nat)
    requires head < |handles| && k < 2 * |handles|
    ensures Freed(handles, head, 0) == 0
            && Freed(handles, head, k + 1) == Freed(handles, head, k) + Gain(handles, head, k)
  {
  }

  lemma {:induction false} FreedGrows(handles: seq<Handle>, head: nat, j: nat, k: nat)
    requires head < |handles| && j <= k <= 2 * |handles|
    ensures Freed(handles, head, j) <= Freed(handles, head, k)
    decreases k - j
  {
    if j < k {
      FreedGrows(handles, head, j, k - 1);
    }
  }

  /** The last visit comes too late: one entry with its usage bit set is evicted in the second lap,
      after which the new entry would fit, but failure is reported. */
  lemma LastVisitTooLate()
    ensures var handles := [Handle(Flags(true, true, 0), 7, 1, 1, 0)]; var usage, charge, capacity := 1, 1, 1;
            && usage - Freed(handles, 0, 2 * |handles|) + charge <= capacity
            && usage - Freed(handles, 0, 2 * |handles| - 1) + charge > capacity
  {
    var handles := [Handle(Flags(true, true, 0), 7, 1, 1, 0)];
    assert Gain(handles, 0, 0) == 0 && Gain(handles, 0, 1) == 1;
    assert Freed(handles, 0, 1) == 0;
  }

  /** The entries of `initial` after `k` visits of the hand from `head` on: keys, charges and lives are as
      before, and the flags say who was evicted and who was spared. */
  ghost predicate VisitedBy(initial: seq<Handle>, handles: seq<Handle>, head: nat, k: nat) {
    && |handles| == |initial| && head < |initial| && k <= 2 * |initial|
    && forall i :: 0 <= i < |initial| ==>
         && handles[i].key == initial[i].key && handles[i].charge == initial[i].charge
         && handles[i].lives == initial[i].lives
         && handles[i].flags == Visited(initial[i].flags, VisitsTo(|initial|, head, k, i))
  }

  /** Before each of the first `k` visits the charge did not fit. */
  ghost predicate NeverFit(handles: seq<Handle>, head: nat, usage: int, charge: nat, capacity: nat, k: nat)
    requires head < |handles| && k <= 2 * |handles|
  {
    forall j :: 0 <= j < k ==> usage - Freed(handles, head, j) + charge > capacity
  }

  class Shard {
    var handles: seq<Handle>
    var table: map<int, nat>
    var bin: seq<nat>
    var usage: int
    var capacity: nat
    var head: nat

    function Snapshot(): State
      reads this
    {
      State(handles, table, bin, usage, capacity, false, head, Free, [])
    }

    /** What the mutex protects is in order, and nobody is about to recycle a handle. */
    ghost predicate Valid()
      reads this
    {
      Guarded(Snapshot(), Idle) && forall h: nat :: BinOk(Snapshot(), h)
    }

    /** Evicts the entry of a handle if it is cached, unreferenced and not used lately. */
    method TryEvict(i: nat) returns (evicted: bool)
      requires Valid() && i < |handles|
      modifies this`handles, this`table, this`bin, this`usage
      ensures Valid() && |handles| == |old(handles)|
      ensures evicted <==> old(handles)[i].flags == Flags(true, false, 0)
      ensures usage == old(usage) - if evicted then old(handles)[i].charge else 0
      ensures handles[i].flags == if evicted then UNUSED else old(handles)[i].flags.(used := false)
      ensures forall j :: 0 <= j < |handles| ==>
              && handles[j].key == old(handles)[j].key && handles[j].charge == old(handles)[j].charge
              && handles[j].lives == old(handles)[j].lives
      ensures forall j :: 0 <= j < |handles| && j != i ==> handles[j].flags == old(handles)[j].flags
    {
      ghost var s := Snapshot();
      if handles[i].flags == Flags(true, false, 0) {
        EvictionKeepsValid(s, i);
        handles := handles[i := handles[i].(flags := UNUSED)];
        table := table - {handles[i].key};
        handles := handles[i := handles[i].(recycled := handles[i].recycled + 1)];
        bin := bin + [i];
        usage := usage - handles[i].charge;
        assert Snapshot() == Evicted(s, i);
        return true;
      }
      UnmarkKeepsValid(s, i);
      handles := handles[i := handles[i].(flags := handles[i].flags.(used := false))];
      assert Snapshot() == SetFlags(s, i, s.handles[i].flags.(used := false));
      return false;
    }

    lemma NoVisitYet()
      requires head < |handles|
      ensures VisitedBy(handles, handles, head, 0) && Place(|handles|, head, 0) == head
    {
    }

    /** One visit of the hand. */
    method Visit(at: nat, ghost initial: seq<Handle>, ghost k: nat)
      requires Valid() && VisitedBy(initial, handles, head, k) && k < 2 * |initial| && at == Place(|initial|, head, k)
      modifies this`handles, this`table, this`bin, this`usage
      ensures Valid() && VisitedBy(initial, handles, head, k + 1) && |handles| == |initial|
      ensures usage == old(usage) - Gain(initial, head, k)
    {
      ghost var n := |initial|;
      forall i | 0 <= i < n
        ensures at < n && VisitsTo(n, head, k + 1, i) == VisitsTo(n, head, k, i) + Bit(i == at)
        ensures VisitsTo(n, head, k, at) == if k < n then 0 else 1
      {
        NextVisit(n, head, k, i);
      }
      hide Place, VisitsTo, Guarded, BinOk;
      assert initial[at].charge == handles[at].charge;
      var _ := TryEvict(at);
    }

    /** The laps of the hand: stops when the charge fits, at the latest after two laps. */
    method Sweep(charge: nat) returns (ok: bool, at: nat, ghost k: nat)
      requires Valid() && head < |handles|
      modifies this`handles, this`table, this`bin, this`usage
      ensures Valid() && VisitedBy(old(handles), handles, head, k) && usage == old(usage) - Freed(old(handles), head, k)
      ensures NeverFit(old(handles), head, old(usage), charge, capacity, k)
      ensures ok ==> k < 2 * |old(handles)| && usage + charge <= capacity
      ensures ok ==> at < |handles| && at == Place(|old(handles)|, head, k)
      ensures !ok ==> k == 2 * |old(handles)|
    {
      hide Place, VisitsTo, Guarded, BinOk, Gain, VisitedBy, Freed, Valid, Snapshot, Visited;
      ghost var initial := handles;
      NoVisitYet();
      FreedNext(initial, head, 0);
      var second := false;
      at := head;
      k := 0;
      ghost var n := |initial|;
      while usage + charge > capacity
        invariant Valid() && k < 2 * n && VisitedBy(initial, handles, head, k) && |handles| == n
        invariant NeverFit(initial, head, old(usage), charge, capacity, k)
        invariant at == Place(n, head, k) && at < n && (second <==> k >= n)
        invariant usage == old(usage) - Freed(initial, head, k)
        decreases 2 * n - k
      {
        NextVisit(n, head, k, 0);
        FreedNext(initial, head, k);
        Visit(at, initial, k);
        k := k + 1;
        at := if at + 1 >= |handles| then 0 else at + 1;
        if at == head {
          if second {
            return false, at, k;
          }
          second := true;
        }
      }
      ok := true;
    }

    /** What the visits mean for the flags. */
    lemma VisitsMean(initial: seq<Handle>, k: nat)
      requires VisitedBy(initial, handles, head, k)
      ensures |handles| == |initial| && head < |initial| && k <= 2 * |initial|
      ensures forall i :: 0 <= i < |handles| && !Evictable(initial[i].flags) ==>
                            handles[i].flags == initial[i].flags || handles[i].flags == initial[i].flags.(used := false)
      ensures k == 2 * |initial| ==> forall i :: 0 <= i < |handles| ==> !Evictable(handles[i].flags)
    {
      hide VisitsTo, Visited, Evictable;
      StillOrUnmarked(initial, handles, head, k);
      if k == 2 * |initial| {
        NothingEvictable(initial, handles, head);
      }
    }

    method MoveHead(at: nat)
      requires Valid() && at < |handles|
      modifies this`head
      ensures Valid() && head == at
    {
      HeadMoves(Snapshot(), at);
      head := at;
    }

    /** Evicts until an entry of the given charge fits. After at most two laps either it fits, or no
        unreferenced entry is left in the cache. The hand makes `k` visits, stops before the first one
        that is not needed, and stays where it stopped. Success is decided before the last visit of
        the second lap: it is reported exactly if what the visits before that one free is enough. */
    method EvictFromCache(charge: nat) returns (ok: bool, ghost k: nat)
      requires Valid()
      modifies this`handles, this`table, this`bin, this`usage, this`head
      ensures Valid() && |handles| == |old(handles)|
      ensures ok ==> usage + charge <= capacity
      ensures if old(usage) == 0 then k == 0 && Snapshot() == old(Snapshot())
              else
                && VisitedBy(old(handles), handles, old(head), k)
                && usage == old(usage) - Freed(old(handles), old(head), k)
                && NeverFit(old(handles), old(head), old(usage), charge, capacity, k)
                && (ok ==> k < 2 * |handles| && head == Place(|handles|, old(head), k))
                && (!ok ==> k == 2 * |handles| && head == old(head))
      ensures ok <==> if old(usage) == 0 then charge <= capacity
                      else old(usage) - Freed(old(handles), old(head), 2 * |old(handles)| - 1) + charge <= capacity
      ensures !ok && old(usage) != 0 ==> forall i :: 0 <= i < |handles| ==> !Evictable(handles[i].flags)
      ensures forall i :: 0 <= i < |handles| && !Evictable(old(handles)[i].flags) ==>
                            handles[i].flags == old(handles)[i].flags
                                || handles[i].flags == old(handles)[i].flags.(used := false)
    {
      EmptyIsUnused(Snapshot());
      hide Place, VisitsTo, Guarded, BinOk, Gain, Freed, Evictable, Visited, Valid, VisitedBy;
      k := 0;
      if usage == 0 {
        return charge <= capacity, 0;
      }
      ghost var initial, n := handles, |handles|;
      var at;
      ok, at, k := Sweep(charge);
      VisitsMean(initial, k);
      if ok {
        FreedGrows(initial, head, k, 2 * n - 1);
        MoveHead(at);
      }
    }
  }

  /** Visits leave the flags of other handles alone, except for the usage bit. */
  lemma StillOrUnmarked(initial: seq<Handle>, handles: seq<Handle>, head: nat, k: nat)
    requires |handles| == |initial| && head < |initial|
    requires forall i :: 0 <= i < |initial| ==>
             handles[i].flags == Visited(initial[i].flags, VisitsTo(|initial|, head, k, i))
    ensures forall i :: 0 <= i < |handles| && !Evictable(initial[i].flags) ==>
                          handles[i].flags == initial[i].flags || handles[i].flags == initial[i].flags.(used := false)
  {
    hide VisitsTo;
  }

  lemma HeadMoves(s: State, at: nat)
    requires Guarded(s, Idle) && at < |s.handles| && forall h: nat :: BinOk(s, h)
    ensures Guarded(s.(head := at), Idle) && forall h: nat :: BinOk(s.(head := at), h)
  {
    var s' := s.(head := at);
    forall h: nat
      ensures LivesOk(s', Idle, h) && ListedOk(s', Idle, h) && BinOk(s', h)
    {
      assert LivesOk(s, Idle, h) && ListedOk(s, Idle, h) && BinOk(s, h);
    }
    forall key
      ensures EntryOk(s', Idle, key)
    {
      assert EntryOk(s, Idle, key);
    }
    TotalSame(s, Idle, s', Idle, |s.handles|);
  }

  lemma AllVisitedTwice(n: nat, head: nat)
    requires head < n
    ensures forall i :: 0 <= i < n ==> VisitsTo(n, head, 2 * n, i) == 2
  {
  }

  lemma NothingEvictable(initial: seq<Handle>, handles: seq<Handle>, head: nat)
    requires |handles| == |initial| && head < |initial|
    requires forall i :: 0 <= i < |initial| ==>
               handles[i].flags == Visited(initial[i].flags, VisitsTo(|initial|, head, 2 * |initial|, i))
    ensures forall i :: 0 <= i < |handles| ==> !Evictable(handles[i].flags)
  {
    AllVisitedTwice(|initial|, head);
    hide VisitsTo;
  }

  lemma EmptyIsUnused(s: State)
    requires Guarded(s, Idle)
    ensures s.usage != 0 ==> s.head < |s.handles|
  {
    assert TotalUpTo(s, Idle, 0) == 0;
  }

  /** A handle without its usage bit. */
  lemma UnmarkKeepsValid(s: State, i: nat)
    requires Guarded(s, Idle) && (forall h: nat :: BinOk(s, h)) && i < |s.handles|
    ensures var s' := SetFlags(s, i, s.handles[i].flags.(used := false));
            Guarded(s', Idle) && forall h: nat :: BinOk(s', h)
  {
    var s' := SetFlags(s, i, s.handles[i].flags.(used := false));
    FramedKeepsGuarded(s, Idle, s', Idle);
    hide InBin, AllKeep;
    forall h: nat
      ensures BinOk(s', h)
    {
      assert BinOk(s, h);
    }
  }

  /** The three updates of an eviction, put together. */
  function Evicted(s: State, i: nat): State
    requires i < |s.handles|
  {
    Recycle(SetFlags(s, i, UNUSED).(table := s.table - {s.handles[i].key}), i)
  }

  /** An eviction goes through the same control points as in the concurrent machine. */
  lemma EvictionKeepsValid(s: State, i: nat)
    requires Guarded(s, Idle) && (forall h: nat :: BinOk(s, h)) && i < |s.handles| && s.threads == []
    requires s.handles[i].flags == Flags(true, false, 0)
    ensures Guarded(Evicted(s, i), Idle) && forall h: nat :: BinOk(Evicted(s, i), h)
  {
    var s' := Evicted(s, i);
    assert BinOk(s, i);
    forall h: nat
      ensures LivesOk(s', Idle, h) && ListedOk(s', Idle, h) && BinOk(s', h)
    {
      assert LivesOk(s, Idle, h) && ListedOk(s, Idle, h) && ListedOk(s, Idle, i) && BinOk(s, h);
      BinPush(s.bin, i, h);
      hide InBin;
    }
    forall key
      ensures EntryOk(s', Idle, key)
    {
      assert EntryOk(s, Idle, key);
    }
    var s1 := SetFlags(s, i, UNUSED).(table := s.table - {s.handles[i].key});
    TotalSame(s, Idle, s1, Idle, |s.handles|);
    RecycleKeepsUsage(s1, Idle, i, Idle);
  }
}
