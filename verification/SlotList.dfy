/** The list of slot arenas: a request goes to the first arena that can serve it, or to a new one. */
module SlotList {
  import opened SlotSpans
  import opened SlotArena

  class ArenaList {
    var arenas: seq<Arena>
    const count: nat

    ghost predicate Separate()
      reads this
    {
      forall i, j {:trigger arenas[i], arenas[j]} :: 0 <= i < j < |arenas| ==>
        arenas[i] != arenas[j] && arenas[i].length != arenas[j].length && arenas[i].used != arenas[j].used
    }

    ghost predicate Valid()
      reads this, arenas, set a | a in arenas :: a.length, set a | a in arenas :: a.used
    {
      && count > 0 && Separate()
      && forall i :: 0 <= i < |arenas| ==> arenas[i].Valid() && arenas[i].count == count
    }

    /** The spans of an arena before; a new arena is one free span. */
    twostate function Before(i: nat): seq<Span> {
      if i < |old(arenas)| then old(arenas[i].spans) else [Span(count, false)]
    }

    /** All arenas but the `k`-th keep their used spans and their cursors. */
    twostate predicate OnlyChanged(k: int)
      reads this, arenas
    {
      && old(arenas) <= arenas
      && forall i :: 0 <= i < |arenas| && i != k ==>
           Live(arenas[i].spans) == Live(Before(i)) && (i < |old(arenas)| ==> arenas[i].cursor == old(arenas[i].cursor))
    }

    /** No run of free spans from the cursor on is long enough. */
    ghost predicate Exhausted(k: nat, required: nat)
      requires k < |arenas|
      reads this, arenas[k]
    {
      forall j :: 0 <= j < |arenas[k].spans| && Pos(arenas[k].spans, j) >= arenas[k].cursor ==>
          FreeRun(arenas[k].spans, j) < required
    }

    constructor (count: nat)
      requires count > 0
      ensures Valid() && arenas == [] && this.count == count
    {
      this.count := count;
      arenas := [];
    }

    method TryArena(k: nat, required: nat) returns (ok: bool, i: nat)
      requires Valid() && k < |arenas| && required >= 1
      modifies arenas[k], arenas[k].length, arenas[k].used
      ensures Valid() && OnlyChanged(k)
      ensures ok ==> Live(arenas[k].spans) == Live(Before(k)) + {(i, required)} && i >= old(arenas[k].cursor)
      ensures ok ==> arenas[k].cursor == i + required
      ensures !ok ==> Live(arenas[k].spans) == Live(Before(k)) && arenas[k].cursor == old(arenas[k].cursor)
      ensures !ok <==> old(Exhausted(k, required))
    {
      hide Live, Pos, FreeRun;
      var a := arenas[k];
      assert a.Valid();
      ghost var c: nat :| c <= |a.spans| && Pos(a.spans, c) == a.cursor;
      ghost var before := a.spans;
      a.TiledPositive();
      ghost var at;
      ok, i, at := a.Allocate(required, c);
      forall j | 0 <= j < |before|
        ensures Pos(before, j) >= Pos(before, c) <==> j >= c
      {
        PosInjective(before, j, c);
      }
    }

    method AddArena()
      requires Valid()
      modifies this`arenas
      ensures Valid() && |arenas| == |old(arenas)| + 1 && OnlyChanged(-1)
      ensures var a := arenas[|old(arenas)|];
              fresh(a) && fresh(a.length) && fresh(a.used) && a.spans == [Span(count, false)] && a.cursor == 0
    {
      hide Live, Pos;
      var a := new Arena(count);
      arenas := arenas + [a];
    }

    /** Serves a request from a new arena. */
    method AllocateNew(required: nat) returns (ok: bool, i: nat)
      requires Valid() && 1 <= required <= count
      modifies this`arenas
      ensures Valid() && |arenas| == |old(arenas)| + 1 && ok && OnlyChanged(|old(arenas)|)
      ensures Live(arenas[|old(arenas)|].spans) == {(i, required)}
    {
      hide Live, Pos, FreeRun;
      var k := |arenas|;
      AddArena();
      label Added:
      WholeArenaFree(count, required);
      assert !Exhausted(k, required);
      ok, i := TryArena(k, required);
      assert OnlyChanged@Added(k);
      forall j | 0 <= j < k
        ensures Live(arenas[j].spans) == Live(Before(j)) && arenas[j].cursor == old(arenas[j].cursor)
      {
        assert Live(arenas[j].spans) == old@Added(Live(arenas[j].spans));
      }
    }

    /** First fit over the arenas there are, from the cursor of each. */
    method TryArenas(required: nat) returns (ok: bool, k: nat, i: nat)
      requires Valid() && required >= 1
      modifies arenas, set a | a in arenas :: a.length, set a | a in arenas :: a.used
      ensures Valid() && OnlyChanged(if ok then k else -1) && (if ok then k < |arenas| else k == |arenas|)
      ensures ok ==> Live(arenas[k].spans) == Live(Before(k)) + {(i, required)} && !old(Exhausted(k, required))
      ensures forall j :: 0 <= j < k ==> old(Exhausted(j, required))
    {
      hide Live, Pos, FreeRun, Arena.Valid, Arena.Sound;
      k := 0;
      while k < |arenas|
        invariant k <= |arenas| && Valid() && OnlyChanged(-1)
        invariant forall j :: 0 <= j < k ==> old(Exhausted(j, required))
        invariant forall j :: k <= j < |arenas| ==> arenas[j].spans == old(arenas[j].spans)
      {
        label Here:
        ok, i := TryArena(k, required);
        assert OnlyChanged@Here(k);
        assert old(Exhausted(k, required)) == old@Here(Exhausted(k, required));
        if ok {
          return;
        }
        k := k + 1;
      }
      ok, i := false, 0;
    }

    /** A request goes to the first arena that can serve it, or to a new one. A request that fits into
        an arena fails only if all arenas are exhausted and no new one is granted. */
    method Allocate(size: nat, granted: bool) returns (ok: bool, k: nat, i: nat)
      requires Valid() && RequiredSlots(size) <= count
      modifies this`arenas, arenas, set a | a in arenas :: a.length, set a | a in arenas :: a.used
      ensures Valid() && OnlyChanged(if ok then k else -1) && |arenas| <= |old(arenas)| + 1
      ensures ok ==> k < |arenas| && Live(arenas[k].spans) == Live(Before(k)) + {(i, RequiredSlots(size))}
      ensures forall j :: 0 <= j < |old(arenas)| && (!ok || j < k) ==> old(Exhausted(j, RequiredSlots(size)))
      ensures ok && k < |old(arenas)| ==> !old(Exhausted(k, RequiredSlots(size)))
      ensures !ok ==> !granted
    {
      hide Live, Pos, FreeRun, RequiredSlots, Arena.Valid, Arena.Sound;
      var required := RequiredSlots(size);
      RequiredPositive(size);
      ok, k, i := TryArenas(required);
      if ok || !granted {
        return;
      }
      label Tried:
      ok, i := AllocateNew(required);
      assert OnlyChanged@Tried(k);
      NothingLive(count);
      forall j | 0 <= j < k
        ensures Live(arenas[j].spans) == Live(Before(j)) && arenas[j].cursor == old(arenas[j].cursor)
      {
        assert Live(arenas[j].spans) == old@Tried(Live(arenas[j].spans));
      }
    }
  }

  lemma RequiredPositive(size: nat)
    ensures RequiredSlots(size) >= 1
  {
  }

  lemma NothingLive(count: nat)
    ensures Live([Span(count, false)]) == {}
  {
  }

  lemma WholeArenaFree(count: nat, required: nat)
    requires required <= count
    ensures Pos([Span(count, false)], 0) == 0 && FreeRun([Span(count, false)], 0) >= required
    ensures Live([Span(count, false)]) == {}
  {
    assert FreeRun([Span(count, false)], 1) == 0;
  }
}
