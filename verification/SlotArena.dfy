/**
  An arena of the slot allocator. Every span of slots starts with a header that holds its length
  and whether it is in use; headers of slots inside a span are meaningless. Free spans are merged
  only when a search comes by, and the search starts at a cursor.
*/
module SlotArena {
  import opened SlotSpans

  const HEADER: nat := 16
  const SLOT_SIZE: nat := 528
  const ARENA_HEADER: nat := 16

  /** The slots needed for a block of `size` bytes and its header. */
  function RequiredSlots(size: nat): (n: nat)
    ensures n >= 1 && n * SLOT_SIZE >= HEADER + size && (n - 1) * SLOT_SIZE < HEADER + size
  {
    var n := (HEADER + size) / SLOT_SIZE;
    if n * SLOT_SIZE < HEADER + size then n + 1 else n
  }

  /** The address handed out for a span of an arena at `base`, and back. */
  function AddressOf(base: nat, i: nat): nat { base + ARENA_HEADER + i * SLOT_SIZE + HEADER }

  function IndexOf(base: nat, address: nat): nat
    requires address >= base + ARENA_HEADER + HEADER
  {
    (address - HEADER - base - ARENA_HEADER) / SLOT_SIZE
  }

  lemma AddressRoundTrip(base: nat, i: nat)
    ensures IndexOf(base, AddressOf(base, i)) == i
  {
  }

  /** A span was handed out, or came back. */
  datatype Event = Out(i: nat) | Back(i: nat)

  class Arena {
    const count: nat
    const length: array<nat>
    const used: array<bool>
    var cursor: nat
    ghost var base: nat
    ghost var spans: seq<Span>
    ghost var log: seq<Event>

    ghost predicate HeaderAt(j: nat)
      requires j < |spans| && length.Length == used.Length == count
      reads this`base, this`spans, length, used
    {
      var i := base + Pos(spans, j);
      i < count && length[i] == spans[j].len && used[i] == spans[j].used
    }

    /** The spans tile the arena from slot `base` on and have their headers. */
    ghost predicate Tiled()
      reads this`base, this`spans, length, used
    {
      && length.Length == used.Length == count && Positive(spans) && base + Pos(spans, |spans|) == count
      && forall j :: 0 <= j < |spans| ==> HeaderAt(j)
    }

    /** The cursor is at the start of a span or the end of the arena. */
    ghost predicate CursorOk()
      reads this`base, this`spans, this`cursor
    {
      exists c: nat :: c <= |spans| && base + Pos(spans, c) == cursor
    }

    /** In order from slot `base` on. */
    ghost predicate Sound()
      reads this, length, used
    {
      Tiled() && CursorOk()
    }

    ghost predicate Valid()
      reads this, length, used
    {
      Sound() && base == 0
    }

    /** No header is written outside the slots from `lo` up to `hi`. */
    twostate predicate KeptOutside(lo: int, hi: int)
      reads length, used
    {
      && (forall k :: 0 <= k < length.Length && !(lo <= k < hi) ==> length[k] == old(length[k]))
      && (forall k :: 0 <= k < used.Length && !(lo <= k < hi) ==> used[k] == old(used[k]))
    }

    constructor (count: nat)
      requires count > 0
      ensures Valid() && this.count == count && spans == [Span(count, false)] && cursor == 0 && fresh(length)
              && fresh(used)
    {
      this.count := count;
      length := new nat[count](_ => 0);
      used := new bool[count](_ => false);
      cursor, base, log := 0, 0, [];
      spans := [Span(count, false)];
      new;
      length[0] := count;
      assert Pos(spans, 0) == 0 && Pos(spans, 1) == count;
    }

    // -------------------------------------------------------------- headers

    method SetUsed(i: nat, u: bool, ghost j: nat)
      requires Tiled() && j < |spans| && i == base + Pos(spans, j)
      modifies this`spans, used
      ensures Tiled() && spans == old(spans)[j := old(spans)[j].(used := u)]
      ensures KeptOutside(i, i + 1)
    {
      assert HeaderAt(j);
      MarkedLive(spans, j, u);
      ghost var before := spans;
      used[i] := u;
      spans := spans[j := spans[j].(used := u)];
      forall k | 0 <= k < |spans|
        ensures HeaderAt(k)
      {
        PosInjective(before, j, k);
        assert old(HeaderAt(k));
      }
    }

    /** Takes in the span behind. */
    method Absorb(i: nat, ghost j: nat)
      requires Tiled() && j + 1 < |spans| && i == base + Pos(spans, j)
      modifies this`spans, length
      ensures Tiled() && spans == Merged(old(spans), j)
      ensures KeptOutside(i, i + 1)
    {
      hide Pos, Merged;
      assert HeaderAt(j) && HeaderAt(j + 1);
      PosNext(spans, j);
      ghost var before := spans;
      MergedShape(before, j);
      length[i] := length[i] + length[i + length[i]];
      spans := Merged(spans, j);
      forall k | 0 <= k < |spans|
        ensures HeaderAt(k)
      {
        PosMerged(before, j, k);
        MergedAt(before, j, k);
        ghost var k0 := if k <= j then k else k + 1;
        PosInjective(before, j, k0);
        assert old(HeaderAt(k0));
      }
      PosMerged(before, j, |spans|);
    }

    /** Cuts a span in two; the second part is free. */
    method Split(i: nat, n: nat, ghost j: nat)
      requires Tiled() && j < |spans| && i == base + Pos(spans, j) && 0 < n < spans[j].len
      modifies this`spans, length, used
      ensures Tiled() && spans == Cut(old(spans), j, n, old(spans)[j].used)
      ensures KeptOutside(i, i + n + 1)
    {
      hide Pos, Cut;
      assert HeaderAt(j);
      PosNext(spans, j);
      PosMonotone(spans, j + 1, |spans|);
      ghost var before := spans;
      CutShape(before, j, n, before[j].used);
      used[i + n] := false;
      length[i + n] := length[i] - n;
      length[i] := n;
      spans := Cut(spans, j, n, spans[j].used);
      forall k | 0 <= k < |spans|
        ensures HeaderAt(k)
      {
        PosCut(before, j, n, before[j].used, k);
        CutAt(before, j, n, before[j].used, k);
        if k != j && k != j + 1 {
          ghost var k0 := if k < j then k else k - 1;
          PosInjective(before, j, k0);
          PosInjective(before, j + 1, k0);
          assert old(HeaderAt(k0));
        }
      }
      PosCut(before, j, n, before[j].used, |spans|);
    }

    // -------------------------------------------------------------- allocating

    /** Whether the span behind is free. */
    method FreeBehind(i: nat, ghost j: nat) returns (free: bool)
      requires Tiled() && j < |spans| && i == base + Pos(spans, j)
      ensures free <==> j + 1 < |spans| && !spans[j + 1].used
    {
      hide Pos;
      assert HeaderAt(j);
      PosNext(spans, j);
      PosInjective(spans, j + 1, |spans|);
      if j + 1 < |spans| {
        assert HeaderAt(j + 1);
      }
      free := i + length[i] < count && !used[i + length[i]];
    }

    /** Merges a free span with all free spans behind it. */
    method Coalesce(i: nat, ghost j: nat)
      requires Tiled() && j < |spans| && i == base + Pos(spans, j) && !spans[j].used
      modifies this`spans, length
      ensures var m := RunCount(old(spans), j);
              && 0 < m && j + m <= |old(spans)| && Pos(old(spans), j) <= Pos(old(spans), j + m)
              && Tiled() && spans == Coalesced(old(spans), j, m, false) && Live(spans) == Live(old(spans))
      ensures KeptOutside(i, i + 1)
    {
      hide Pos, Live, Merged, Coalesced, RunCount, FreeRun, Positive, WithinRun;
      ghost var before := spans;
      ghost var m := 1;
      CoalesceOne(before, j);
      RunStarts(before, j);
      RunBounds(before, j);
      var more := FreeBehind(i, j);
      TiledPositive();
      while more
        invariant Tiled() && 0 < m && j + m <= |before| && Pos(before, j) <= Pos(before, j + m)
        invariant spans == Coalesced(before, j, m, false) && Live(spans) == Live(before) && WithinRun(before, j, m)
        invariant j < |spans| && Positive(spans) && i == base + Pos(spans, j) && !spans[j].used
        invariant more <==> j + 1 < |spans| && !spans[j + 1].used
        invariant KeptOutside(i, i + 1)
        decreases |before| - m
      {
        CoalescedShape(before, j, m, false);
        CoalesceNext(before, j, m, false);
        RunNext(before, j, m);
        MergedLive(spans, j);
        Absorb(i, j);
        m := m + 1;
        TiledPositive();
        CoalescedShape(before, j, m, false);
        PosPrefixOfCoalesced(before, j, m, false, j);
        more := FreeBehind(i, j);
      }
      CoalescedShape(before, j, m, false);
      RunEnds(before, j, m);
    }

    lemma TiledPositive()
      requires Tiled()
      ensures Positive(spans)
    {
    }

    /** Uses the first `required` slots of a free span. */
    method Take(i: nat, required: nat, ghost j: nat)
      requires Tiled() && j < |spans| && i == base + Pos(spans, j) && !spans[j].used && 0 < required <= spans[j].len
      modifies this`spans, this`cursor, length, used
      ensures Sound() && Live(spans) == Live(old(spans)) + {(i - base, required)} && cursor == i + required
      ensures KeptOutside(i, i + old(spans)[j].len)
    {
      hide Pos, Live;
      ghost var before := spans;
      TiledPositive();
      assert HeaderAt(j);
      MarkedLive(spans, j, true);
      NotLive(spans, j);
      PosNext(spans, j);
      SetUsed(i, true, j);
      PosNext(spans, j);
      assert HeaderAt(j);
      if length[i] > required {
        CutLive(spans, j, required);
        PosCut(spans, j, required, true, j + 1);
        Split(i, required, j);
      }
      cursor := i + required;
      assert base + Pos(spans, j + 1) == cursor;
    }

    /** The search is at slot `i`, where span `at` of the start state begins, and found no run that is
        long enough before. */
    ghost predicate SearchAt(before: seq<Span>, c: nat, required: nat, i: nat, at: nat, j: nat)
      reads this`base, this`spans
    {
      && c <= at <= |before| && c <= j <= |spans| && spans[j..] == before[at..] && spans[..c] == before[..c]
      && i == base + Pos(spans, j) == base + Pos(before, at) && Live(spans) == Live(before)
      && forall k :: c <= k < at ==> FreeRun(before, k) < required
    }

    /** Looks at one span, or at one run of free spans. */
    method Visit(i: nat, required: nat, ghost before: seq<Span>, ghost c: nat, ghost at: nat, ghost j: nat)
      returns (taken: bool, next: nat, ghost at': nat, ghost j': nat)
      requires Tiled() && SearchAt(before, c, required, i, at, j) && at < |before| && required >= 1
      modifies this`spans, this`cursor, length, used
      ensures taken ==> Sound() && FreeRun(before, at) >= required && cursor == i + required
      ensures taken ==> Live(spans) == Live(before) + {(i - base, required)}
      ensures if taken then KeptOutside(i, i + FreeRun(before, at)) else KeptOutside(i, i + 1) && i < next
      ensures !taken ==> Tiled() && SearchAt(before, c, required, next, at', j') && at < at' && cursor == old(cursor)
    {
      hide Pos, Live, Coalesced, RunCount, FreeRun;
      SuffixFacts(before, spans, at, j);
      assert HeaderAt(j);
      taken := false;
      if used[i] {
        UsedRun(before, at);
        PosNext(spans, j);
        PosNext(before, at);
        next := i + length[i];
        at', j' := at + 1, j + 1;
      } else {
        next, at', j' := VisitFree(i, required, before, c, at, j);
        if length[i] >= required {
          Take(i, required, j);
          taken := true;
        }
      }
    }

    method VisitFree(i: nat, required: nat, ghost before: seq<Span>, ghost c: nat, ghost at: nat, ghost j: nat)
      returns (next: nat, ghost at': nat, ghost j': nat)
      requires Tiled() && SearchAt(before, c, required, i, at, j) && at < |before| && j < |spans| && !spans[j].used
      modifies this`spans, length
      ensures Tiled() && j < |spans| && i == base + Pos(spans, j) && i < length.Length && !spans[j].used
              && Live(spans) == Live(before)
      ensures spans[j].len == length[i] == FreeRun(before, at)
      ensures KeptOutside(i, i + 1)
      ensures length[i] < required ==> SearchAt(before, c, required, next, at', j') && at < at'
      ensures next == i + length[i] && length[i] > 0
    {
      hide Pos, Live, Coalesced, RunCount, FreeRun;
      ghost var mid := spans;
      RunBounds(before, at);
      RunBounds(mid, j);
      RunSuffix(before, mid, at, j);
      Coalesce(i, j);
      ghost var m := RunCount(before, at);
      CoalescedShape(mid, j, m, false);
      PosPrefixOfCoalesced(mid, j, m, false, j);
      assert HeaderAt(j);
      forall k | at <= k < at + m
        ensures FreeRun(before, k) <= FreeRun(before, at)
      {
        RunInside(before, at, k);
      }
      SuffixDrop(before, mid, at, j, m);
      assert spans[..c] == mid[..c] by {
        assert spans[..c] == spans[..j][..c] && mid[..c] == mid[..j][..c];
      }
      PosNext(spans, j);
      next := i + length[i];
      at', j' := at + m, j + 1;
    }

    /** Takes the first free run from the cursor on that is long enough, and fails exactly if there
        is none. `c` is the span at the cursor, and `at` the span of the start state at which the
        run begins. */
    method Allocate(required: nat, ghost c: nat) returns (found: bool, i: nat, ghost at: nat)
      requires Tiled() && c <= |spans| && cursor == base + Pos(spans, c) && required >= 1
      modifies this`spans, this`cursor, this`log, length, used
      ensures Sound()
      ensures found ==> c <= at < |old(spans)| && i == base + Pos(old(spans), at) && FreeRun(old(spans), at) >= required
      ensures found ==> forall k :: c <= k < at ==> FreeRun(old(spans), k) < required
      ensures found ==> Live(spans) == Live(old(spans)) + {(i - base, required)} && cursor == i + required
      ensures found ==> KeptOutside(old(cursor), i + FreeRun(old(spans), at))
      ensures !found ==> forall k :: c <= k < |old(spans)| ==> FreeRun(old(spans), k) < required
      ensures !found ==> Live(spans) == Live(old(spans)) && cursor == old(cursor) && KeptOutside(cursor, count)
      ensures log == if found then old(log) + [Out(i)] else old(log)
    {
      hide Pos, Live, FreeRun;
      ghost var before := spans;
      i, at := cursor, c;
      ghost var j := c;
      TiledPositive();
      PosInjective(before, at, |before|);
      while i < count
        invariant Tiled() && cursor == old(cursor) && log == old(log) && SearchAt(before, c, required, i, at, j)
                  && (i < count <==> at < |before|)
        invariant old(cursor) <= i && KeptOutside(old(cursor), i)
        decreases |before| - at
      {
        ghost var at1, j1;
        var next;
        found, next, at1, j1 := Visit(i, required, before, c, at, j);
        if found {
          log := log + [Out(i)];
          return;
        }
        i, at, j := next, at1, j1;
        PosInjective(before, at, |before|);
      }
      found := false;
      PosPrefix(before, spans, c);
    }

    // -------------------------------------------------------------- freeing and resizing

    /** Frees a span; it is merged with its neighbours only by a later search. */
    method Deallocate(i: nat, ghost j: nat)
      requires Tiled() && j < |spans| && i == base + Pos(spans, j) && spans[j].used
      modifies this`spans, this`cursor, this`log, used
      ensures Tiled() && Live(spans) == Live(old(spans)) - {(i - base, old(spans)[j].len)}
      ensures old(CursorOk()) || i < old(cursor) ==> CursorOk()
      ensures cursor == (if i < old(cursor) then i else old(cursor)) && log == old(log) + [Back(i)]
    {
      hide Pos, Live;
      TiledPositive();
      MarkedLive(spans, j, false);
      if i < cursor {
        cursor := i;
      }
      SetUsed(i, false, j);
      log := log + [Back(i)];
      assert base + Pos(spans, j) == i;
      if old(CursorOk()) {
        ghost var c: nat :| c <= |old(spans)| && base + Pos(old(spans), c) == old(cursor);
        assert base + Pos(spans, c) == old(cursor);
      }
    }

    /** Takes in free spans from behind until the span is longer than required or none follows. */
    method Expand(i: nat, required: nat, ghost j: nat) returns (ghost m: nat)
      requires Tiled() && j < |spans| && i == base + Pos(spans, j) && spans[j].used
      modifies this`spans, length
      ensures 0 < m && j + m <= |old(spans)| && Pos(old(spans), j) <= Pos(old(spans), j + m)
      ensures Tiled() && spans == Coalesced(old(spans), j, m, true) && WithinGrowth(old(spans), j, m)
      ensures i < length.Length && j < |spans| && spans[j] == Span(length[i], true) && i == base + Pos(spans, j)
      ensures length[i] == Pos(old(spans), j + m) - Pos(old(spans), j)
      ensures length[i] > required || j + m == |old(spans)| || old(spans)[j + m].used
      ensures Live(spans) == Live(old(spans)) - {(i - base, old(spans)[j].len)} + {(i - base, length[i])}
      ensures KeptOutside(i, i + 1)
    {
      hide Pos, Live, Merged, Coalesced, Positive, WithinGrowth;
      ghost var before := spans;
      m := 1;
      CoalesceOne(before, j);
      GrowthStarts(before, j);
      TiledPositive();
      LiveHas(before, j);
      assert HeaderAt(j);
      var more := FreeBehind(i, j);
      while more && length[i] <= required
        invariant Tiled() && 0 < m && j + m <= |before| && Pos(before, j) <= Pos(before, j + m)
        invariant spans == Coalesced(before, j, m, true) && WithinGrowth(before, j, m)
        invariant j < |spans| && Positive(spans) && i == base + Pos(spans, j) && i < length.Length
                  && spans[j] == Span(length[i], true)
        invariant Live(spans) == Live(before) - {(i - base, before[j].len)} + {(i - base, length[i])}
        invariant more <==> j + 1 < |spans| && !spans[j + 1].used
        invariant KeptOutside(i, i + 1)
        decreases |before| - m
      {
        CoalescedShape(before, j, m, true);
        CoalesceNext(before, j, m, true);
        GrowthNext(before, j, m);
        PosNext(before, j + m);
        MergedLive(spans, j);
        Regrown(before, j, length[i], length[i] + spans[j + 1].len);
        Absorb(i, j);
        m := m + 1;
        TiledPositive();
        CoalescedShape(before, j, m, true);
        PosPrefixOfCoalesced(before, j, m, true, j);
        assert HeaderAt(j);
        more := FreeBehind(i, j);
      }
      CoalescedShape(before, j, m, true);
    }

    /** Resizes a span in place if it and the free run behind it are long enough. If not, the span has
        taken in this run; the spans still tile the arena, but the cursor may now be inside. */
    method ReallocateInPlace(i: nat, required: nat, ghost j: nat) returns (done: bool, ghost m: nat)
      requires Sound() && j < |spans| && i == base + Pos(spans, j) && spans[j].used && required >= 1
      modifies this`spans, this`cursor, length, used
      ensures Tiled() && (done <==> required <= old(spans)[j].len + FreeRun(old(spans), j + 1))
      ensures done ==> CursorOk() && cursor == i + required
      ensures done ==> Live(spans) == Live(old(spans)) - {(i - base, old(spans)[j].len)} + {(i - base, required)}
      ensures !done ==> var total := old(spans)[j].len + FreeRun(old(spans), j + 1);
                        && Live(spans) == Live(old(spans)) - {(i - base, old(spans)[j].len)} + {(i - base, total)}
                        && cursor == old(cursor) && (CursorOk() <==> !(i < cursor < i + total))
      ensures !done ==> KeptOutside(i, i + 1) && Grown(old(spans), j, m) && spans == Coalesced(old(spans), j, m, true)
    {
      hide Pos, Live, Coalesced, Positive, WithinGrowth, FreeRun;
      ghost var before := spans;
      ghost var c: nat :| c <= |spans| && base + Pos(spans, c) == cursor;
      TiledPositive();
      m := Expand(i, required, j);
      TiledPositive();
      GrowthEnds(before, j, m);
      Regrown(before, j, length[i], required);
      BoundaryCoalesced(before, j, m, true, c);
      if length[i] > required {
        CutLive(spans, j, required);
        PosCut(spans, j, required, true, j + 1);
        PosCut(spans, j, required, true, j);
        Split(i, required, j);
        assert HeaderAt(j);
      }
      done := length[i] == required;
      if done {
        PosNext(spans, j);
        cursor := i + required;
        assert base + Pos(spans, j + 1) == cursor;
      }
    }
  }

  /** The span and `m - 1` free ones behind it, which are all there are. */
  ghost predicate Grown(spans: seq<Span>, j: nat, m: nat) {
    && 0 < m && j + m <= |spans| && Pos(spans, j) <= Pos(spans, j + m) && (j + m == |spans| || spans[j + m].used)
    && forall k :: j < k < j + m ==> !spans[k].used
  }

  /** The span and `m - 1` free ones behind it. */
  predicate WithinGrowth(spans: seq<Span>, j: nat, m: nat) {
    && 0 < m && j + m <= |spans| && (forall k :: j < k < j + m ==> !spans[k].used)
    && spans[j].len + FreeRun(spans, j + 1) == Pos(spans, j + m) - Pos(spans, j) + FreeRun(spans, j + m)
  }

  lemma GrowthStarts(spans: seq<Span>, j: nat)
    requires j < |spans|
    ensures WithinGrowth(spans, j, 1) && Pos(spans, j + 1) == Pos(spans, j) + spans[j].len
  {
  }

  lemma GrowthNext(spans: seq<Span>, j: nat, m: nat)
    requires WithinGrowth(spans, j, m) && j + m < |spans| && !spans[j + m].used
    ensures WithinGrowth(spans, j, m + 1)
  {
  }

  lemma GrowthEnds(spans: seq<Span>, j: nat, m: nat)
    requires WithinGrowth(spans, j, m)
    ensures spans[j].len + FreeRun(spans, j + 1) >= Pos(spans, j + m) - Pos(spans, j)
    ensures j + m == |spans| || spans[j + m].used ==>
            spans[j].len + FreeRun(spans, j + 1) == Pos(spans, j + m) - Pos(spans, j)
    ensures (j + m == |spans| || spans[j + m].used) && Pos(spans, j) <= Pos(spans, j + m) ==> Grown(spans, j, m)
  {
  }

  lemma LiveHas(spans: seq<Span>, j: nat)
    requires j < |spans| && spans[j].used
    ensures (Pos(spans, j), spans[j].len) in Live(spans)
    ensures Live(spans) == Live(spans) - {(Pos(spans, j), spans[j].len)} + {(Pos(spans, j), spans[j].len)}
  {
  }

  /** Replacing a used span twice. */
  lemma Regrown(spans: seq<Span>, j: nat, a: nat, b: nat)
    requires Positive(spans) && j < |spans|
    ensures var p, rest := Pos(spans, j), Live(spans) - {(Pos(spans, j), spans[j].len)};
            rest + {(p, a)} - {(p, a)} + {(p, b)} == rest + {(p, b)}
  {
    var p, rest := Pos(spans, j), Live(spans) - {(Pos(spans, j), spans[j].len)};
    if (p, a) in rest {
      OneLiveAt(spans, j, a);
    }
  }

  lemma NotLive(spans: seq<Span>, j: nat)
    requires Positive(spans) && j < |spans| && !spans[j].used
    ensures (Pos(spans, j), spans[j].len) !in Live(spans)
  {
    if (Pos(spans, j), spans[j].len) in Live(spans) {
      var k: nat :| k < |spans| && spans[k].used && (Pos(spans, j), spans[j].len) == (Pos(spans, k), spans[k].len);
      PosInjective(spans, j, k);
    }
  }

  lemma SuffixFacts(spans: seq<Span>, spans': seq<Span>, at: nat, j: nat)
    requires at < |spans| && j <= |spans'| && spans'[j..] == spans[at..]
    ensures j < |spans'| && spans'[j] == spans[at] && spans'[j + 1..] == spans[at + 1..]
  {
    assert spans'[j] == spans'[j..][0];
    assert spans'[j + 1..] == spans'[j..][1..] && spans[at + 1..] == spans[at..][1..];
  }

  lemma SuffixDrop(spans: seq<Span>, spans': seq<Span>, at: nat, j: nat, m: nat)
    requires at + m <= |spans| && j + m <= |spans'| && spans'[j..] == spans[at..]
    ensures spans'[j + m..] == spans[at + m..]
  {
    assert spans'[j + m..] == spans'[j..][m..] && spans[at + m..] == spans[at..][m..];
  }

  lemma UsedRun(spans: seq<Span>, j: nat)
    requires j < |spans| && spans[j].used
    ensures FreeRun(spans, j) == 0
  {
  }

  /** Runs depend only on what is behind. */
  lemma {:induction false} RunSuffix(spans: seq<Span>, spans': seq<Span>, at: nat, j: nat)
    requires at <= |spans| && j <= |spans'| && spans'[j..] == spans[at..]
    ensures RunCount(spans', j) == RunCount(spans, at) && FreeRun(spans', j) == FreeRun(spans, at)
    decreases |spans| - at
  {
    if at < |spans| {
      SuffixFacts(spans, spans', at, j);
      RunSuffix(spans, spans', at + 1, j + 1);
    }
  }

  lemma RunStarts(spans: seq<Span>, j: nat)
    requires j < |spans| && !spans[j].used
    ensures WithinRun(spans, j, 1)
  {
  }

  lemma RunEnds(spans: seq<Span>, j: nat, m: nat)
    requires WithinRun(spans, j, m) && (j + m == |spans| || spans[j + m].used)
    ensures RunCount(spans, j) == m && FreeRun(spans, j) == Pos(spans, j + m) - Pos(spans, j)
  {
  }

  lemma CoalescedShape(spans: seq<Span>, j: nat, m: nat, used: bool)
    requires 0 < m && j + m <= |spans| && Pos(spans, j) <= Pos(spans, j + m)
    ensures var c := Coalesced(spans, j, m, used);
            && |c| == |spans| - m + 1 && c[j] == Span(Pos(spans, j + m) - Pos(spans, j), used)
            && (j + 1 < |c| <==> j + m < |spans|) && (j + m < |spans| ==> c[j + 1] == spans[j + m])
            && c[..j] == spans[..j] && c[j + 1..] == spans[j + m..]
  {
  }
}
