/**
  Reallocation of a slot span. The span takes in the free spans behind it first; if it is still too
  short, it is moved, to another place in its arena or to another arena, and given up without a look
  at the cursor. If the cursor was at one of the spans taken in and the new place is in another arena,
  the cursor is astray: it stands inside a free span, at a header that is left over from before. If
  a used span is left before it, slots can then be handed out twice; if none is, slots are only lost.
*/
module SlotMoves {
  import opened SlotSpans
  import opened SlotArena

  /** The headers of the arena describe `view` from slot `p` on. */
  ghost predicate Describes(a: Arena, p: nat, view: seq<Span>)
    reads a.length, a.used
  {
    && a.length.Length == a.used.Length == a.count && Positive(view) && p + Pos(view, |view|) == a.count
    && forall k :: 0 <= k < |view| ==>
         && p + Pos(view, k) < a.count
         && a.length[p + Pos(view, k)] == view[k].len && a.used[p + Pos(view, k)] == view[k].used
  }

  /** Slot `p` is inside span `j`. `view` divides the slots from there on into spans: the rest of span
      `j` into free ones, and what is behind as before. */
  ghost predicate InsideOf(spans: seq<Span>, j: nat, p: nat, view: seq<Span>) {
    && j < |spans| && Pos(spans, j) < p < Pos(spans, j + 1)
    && view != [] && !view[0].used && p + FreeRun(view, 0) == Pos(spans, j + 1)
    && RunCount(view, 0) <= |view| && view[RunCount(view, 0)..] == spans[j + 1..]
  }

  /** The cursor is inside span `j`, at a header left over from before. */
  ghost predicate Inside(a: Arena, j: nat, view: seq<Span>)
    reads a, a.length, a.used
  {
    InsideOf(a.spans, j, a.cursor, view) && Describes(a, a.cursor, view)
  }

  /** The arena is in order but for its cursor, which is inside the free span `j`. */
  ghost predicate Astray(a: Arena, j: nat, view: seq<Span>)
    reads a, a.length, a.used
  {
    a.base == 0 && a.Tiled() && Inside(a, j, view) && !a.spans[j].used
  }

  lemma {:induction false} PosDrop(spans: seq<Span>, c: nat, k: nat)
    requires c + k <= |spans|
    ensures Pos(spans[c..], k) == Pos(spans, c + k) - Pos(spans, c)
  {
    if k > 0 {
      PosDrop(spans, c, k - 1);
    }
  }

  lemma PositiveDrop(spans: seq<Span>, c: nat)
    requires Positive(spans) && c <= |spans|
    ensures Positive(spans[c..])
  {
  }

  /** All spans from `c` up to `e` are free, and the next one is used: this is one run. */
  lemma {:induction false} RunUpTo(spans: seq<Span>, c: nat, e: nat)
    requires c <= e <= |spans| && (e == |spans| || spans[e].used) && forall k :: c <= k < e ==> !spans[k].used
    ensures RunCount(spans, c) == e - c && FreeRun(spans, c) == Pos(spans, e) - Pos(spans, c)
    decreases e - c
  {
    if c < e {
      RunUpTo(spans, c + 1, e);
    }
  }

  // ---------------------------------------------------------------- the move

  /** The headers of the spans of `before` from the `c`-th on are in place. */
  ghost predicate Headers(a: Arena, before: seq<Span>, c: nat)
    reads a.length, a.used
  {
    a.length.Length == a.used.Length == a.count &&
    forall k :: c <= k < |before| ==>
      && Pos(before, k) < a.count
      && a.length[Pos(before, k)] == before[k].len && a.used[Pos(before, k)] == before[k].used
  }

  lemma HeadersLater(a: Arena, before: seq<Span>, c: nat, d: nat)
    requires Headers(a, before, c) && c <= d
    ensures Headers(a, before, d)
  {
    hide Pos;
  }

  lemma DropHeader(a: Arena, before: seq<Span>, c: nat, k: nat)
    requires Headers(a, before, c) && c + k < |before|
    ensures var i := Pos(before, c) + Pos(before[c..], k);
            i < a.count && a.length[i] == before[c..][k].len && a.used[i] == before[c..][k].used
  {
    PosDrop(before, c, k);
    hide Pos;
  }

  lemma DropDescribes(a: Arena, before: seq<Span>, c: nat)
    requires Positive(before) && c <= |before| && Pos(before, |before|) == a.count && Headers(a, before, c)
    ensures Describes(a, Pos(before, c), before[c..])
  {
    hide Pos, Positive;
    PositiveDrop(before, c);
    PosDrop(before, c, |before| - c);
    var view, p := before[c..], Pos(before, c);
    forall k | 0 <= k < |view|
      ensures p + Pos(view, k) < a.count
      ensures a.length[p + Pos(view, k)] == view[k].len && a.used[p + Pos(view, k)] == view[k].used
    {
      DropHeader(a, before, c, k);
    }
  }

  /** What is left of the spans that were made one, from the `c`-th on. */
  lemma LeftOver(before: seq<Span>, j: nat, m: nat, c: nat)
    requires Positive(before) && Grown(before, j, m) && j < c < j + m
    ensures InsideOf(Coalesced(before, j, m, true), j, Pos(before, c), before[c..])
  {
    hide Pos, Coalesced, FreeRun, RunCount, Positive;
    var view := before[c..];
    RunUpTo(before, c, j + m);
    RunSuffix(before, view, c, 0);
    CoalescedShape(before, j, m, true);
    PosPrefixOfCoalesced(before, j, m, true, j);
    PosInjective(before, j, c);
    PosInjective(before, c, j + m);
    assert view[j + m - c..] == before[j + m..];
  }

  /** The span that took in the free ones behind it. */
  lemma TookIn(before: seq<Span>, j: nat, m: nat)
    requires Positive(before) && Grown(before, j, m) && before[j].used
    ensures var mid := Coalesced(before, j, m, true);
            && j < |mid| && Pos(mid, j) == Pos(before, j)
            && mid[j] == Span(before[j].len + FreeRun(before, j + 1), true)
  {
    hide Pos, FreeRun, RunCount, Positive, Coalesced;
    RunUpTo(before, j + 1, j + m);
    PosNext(before, j);
    PosPrefixOfCoalesced(before, j, m, true, j);
    CoalescedShape(before, j, m, true);
  }

  lemma OneTakenOut(before: seq<Span>, j: nat, n: nat)
    requires Positive(before) && j < |before| && before[j].used
    ensures var p, rest := Pos(before, j), Live(before) - {(Pos(before, j), before[j].len)};
            rest + {(p, n)} - {(p, n)} == rest
  {
    var p, rest := Pos(before, j), Live(before) - {(Pos(before, j), before[j].len)};
    if (p, n) in rest {
      OneLiveAt(before, j, n);
    }
  }

  /** After a failed attempt to grow in place, the cursor is at a boundary or inside the span. */
  lemma Strays(a: Arena, before: seq<Span>, j: nat, m: nat, c: nat)
    requires Positive(before) && Grown(before, j, m) && c <= |before| && a.base == 0
    requires a.spans == Coalesced(before, j, m, true) && a.cursor == Pos(before, c) && !a.CursorOk()
    requires Pos(before, |before|) == a.count && Headers(a, before, j + 1)
    ensures Inside(a, j, before[c..])
  {
    hide Pos, Coalesced, FreeRun, RunCount, Positive, Describes, Headers, Arena.Tiled;
    BoundaryCoalesced(before, j, m, true, c);
    PosInjective(before, j, c);
    PosInjective(before, c, j + m);
    assert a.CursorOk() <==> Boundary(a.spans, a.cursor);
    LeftOver(before, j, m, c);
    HeadersLater(a, before, j + 1, c);
    DropDescribes(a, before, c);
  }

  // ---------------------------------------------------------------- two views of one arena

  /** Looks at the arena as the headers from slot `p` on describe it. */
  ghost method LookFrom(a: Arena, p: nat, view: seq<Span>)
    requires Describes(a, p, view)
    modifies a`base, a`spans
    ensures a.Tiled() && a.base == p && a.spans == view
  {
    hide Pos, Positive;
    a.base, a.spans := p, view;
  }

  lemma DescribesTotal(a: Arena, p: nat, view: seq<Span>)
    requires Describes(a, p, view)
    ensures Positive(view) && p + Pos(view, |view|) == a.count && DescribedBy(a.length[..], a.used[..], p, view)
  {
    hide Pos, Positive;
  }

  /** Headers written only before `p` leave the view from there. */
  lemma KeepsView(a: Arena, p: nat, view: seq<Span>, lengths: seq<nat>, uses: seq<bool>)
    requires DescribedBy(lengths, uses, p, view) && a.length.Length == a.used.Length == a.count == |lengths|
    requires forall k :: p <= k < |lengths| ==> a.length[k] == lengths[k] && a.used[k] == uses[k]
    ensures Describes(a, p, view)
  {
    hide Pos, Positive;
  }

  lemma TiledDescribes(a: Arena)
    requires a.Tiled()
    ensures Describes(a, a.base, a.spans) && DescribedBy(a.length[..], a.used[..], a.base, a.spans)
  {
    forall k | 0 <= k < |a.spans|
      ensures a.base + Pos(a.spans, k) < a.count
      ensures a.length[a.base + Pos(a.spans, k)] == a.spans[k].len
      ensures a.used[a.base + Pos(a.spans, k)] == a.spans[k].used
    {
      assert a.HeaderAt(k);
    }
  }

  /** The same for headers given as values. */
  ghost predicate DescribedBy(lengths: seq<nat>, uses: seq<bool>, p: nat, view: seq<Span>) {
    && |lengths| == |uses| && Positive(view) && p + Pos(view, |view|) == |lengths|
    && forall k :: 0 <= k < |view| ==>
         && p + Pos(view, k) < |lengths|
         && lengths[p + Pos(view, k)] == view[k].len && uses[p + Pos(view, k)] == view[k].used
  }

  /** The used spans of an arena, by the slots they start at. */
  ghost function UsedSpans(base: nat, spans: seq<Span>): set<(nat, nat)> {
    set x | x in Live(spans) :: (base + x.0, x.1)
  }

  lemma UsedHas(base: nat, spans: seq<Span>, k: nat)
    requires k < |spans| && spans[k].used
    ensures (base + Pos(spans, k), spans[k].len) in UsedSpans(base, spans)
  {
    assert (Pos(spans, k), spans[k].len) in Live(spans);
  }

  lemma UsedFrom(base: nat, spans: seq<Span>, x: (nat, nat)) returns (k: nat)
    requires x in UsedSpans(base, spans)
    ensures k < |spans| && spans[k].used && x == (base + Pos(spans, k), spans[k].len)
  {
    var y :| y in Live(spans) && x == (base + y.0, y.1);
    k :| k < |spans| && spans[k].used && y == (Pos(spans, k), spans[k].len);
  }

  lemma UsedPlus(base: nat, spans: seq<Span>, spans': seq<Span>, i: nat, n: nat)
    requires base <= i && Live(spans') == Live(spans) + {(i - base, n)}
    ensures UsedSpans(base, spans') == UsedSpans(base, spans) + {(i, n)}
  {
    hide Live;
    assert (i - base, n) in Live(spans');
  }

  lemma UsedAt(spans: seq<Span>, p: nat, n: nat) returns (j: nat)
    requires (p, n) in Live(spans)
    ensures j < |spans| && spans[j] == Span(n, true) && Pos(spans, j) == p
  {
    j :| j < |spans| && spans[j].used && (p, n) == (Pos(spans, j), spans[j].len);
  }

  lemma {:induction false} RunFree(view: seq<Span>, c: nat, k: nat)
    requires c <= |view| && c <= k < c + RunCount(view, c)
    ensures k < |view| && !view[k].used
    decreases k - c
  {
    if c < k {
      RunFree(view, c + 1, k);
    }
  }

  // ---------------------------------------------------------------- joining two views

  /** The first `n` spans of `front`, and those of `view` from the `r`-th on. */
  function Joined(front: seq<Span>, n: nat, view: seq<Span>, r: nat): seq<Span>
    requires n <= |front| && r <= |view|
  {
    front[..n] + view[r..]
  }

  /** The two parts meet at one slot. */
  ghost predicate Meet(front: seq<Span>, n: nat, p: nat, view: seq<Span>, r: nat) {
    n <= |front| && r <= |view| && p + Pos(view, r) == Pos(front, n)
  }

  lemma JoinedPos(front: seq<Span>, n: nat, p: nat, view: seq<Span>, r: nat, k: nat)
    requires Meet(front, n, p, view, r) && k <= |Joined(front, n, view, r)|
    ensures Pos(Joined(front, n, view, r), k) == if k <= n then Pos(front, k) else p + Pos(view, r + k - n)
    ensures k < |Joined(front, n, view, r)| ==>
              Joined(front, n, view, r)[k] == if k < n then front[k] else view[r + k - n]
  {
    hide Pos;
    var all := Joined(front, n, view, r);
    var k0 := if k <= n then k else n;
    assert all[..k0] == front[..k0];
    PosPrefix(front, all, k0);
    if n < k {
      PosDrop(all, n, k - n);
      PosDrop(view, r, k - n);
      assert all[n..] == view[r..];
    }
  }

  /** A used span among the first `n`. */
  ghost predicate UsedBefore(spans: seq<Span>, n: nat, x: (nat, nat))
    requires n <= |spans|
  {
    exists k: nat :: k < n && spans[k].used && x == (Pos(spans, k), spans[k].len)
  }

  lemma JoinedLive(front: seq<Span>, n: nat, p: nat, view: seq<Span>, r: nat, x: (nat, nat))
    requires Meet(front, n, p, view, r) && Positive(view)
    ensures x in Live(Joined(front, n, view, r))
       <==> UsedBefore(front, n, x) || (x in UsedSpans(p, view) && x.0 >= Pos(front, n))
  {
    hide Pos, Live, UsedSpans, Joined, Positive;
    if x in Live(Joined(front, n, view, r)) {
      JoinedFrom(front, n, p, view, r, x);
    }
    if UsedBefore(front, n, x) {
      var k: nat :| k < n && front[k].used && x == (Pos(front, k), front[k].len);
      JoinedHas(front, n, p, view, r, k);
    }
    if x in UsedSpans(p, view) && x.0 >= Pos(front, n) {
      var k := UsedFrom(p, view, x);
      PosInjective(view, k, r);
      JoinedHas(front, n, p, view, r, n + k - r);
    }
  }

  lemma JoinedFrom(front: seq<Span>, n: nat, p: nat, view: seq<Span>, r: nat, x: (nat, nat))
    requires Meet(front, n, p, view, r) && Positive(view) && x in Live(Joined(front, n, view, r))
    ensures UsedBefore(front, n, x) || (x in UsedSpans(p, view) && x.0 >= Pos(front, n))
  {
    hide Pos, Live, UsedSpans, Joined, Positive;
    var k := UsedAt(Joined(front, n, view, r), x.0, x.1);
    JoinedPos(front, n, p, view, r, k);
    if k >= n {
      JoinedLength(front, n, view, r);
      UsedHas(p, view, r + k - n);
      PosInjective(view, r + k - n, r);
    }
  }

  lemma JoinedLength(front: seq<Span>, n: nat, view: seq<Span>, r: nat)
    requires n <= |front| && r <= |view|
    ensures |Joined(front, n, view, r)| == n + |view| - r
  {
  }

  lemma JoinedHas(front: seq<Span>, n: nat, p: nat, view: seq<Span>, r: nat, k: nat)
    requires Meet(front, n, p, view, r) && k < n + |view| - r
    requires var s := if k < n then front[k] else view[r + k - n]; s.used
    ensures var s := if k < n then front[k] else view[r + k - n];
            ((if k <= n then Pos(front, k) else p + Pos(view, r + k - n)), s.len) in Live(Joined(front, n, view, r))
  {
    hide Pos, Live, Joined;
    JoinedLength(front, n, view, r);
    JoinedPos(front, n, p, view, r, k);
    LiveHas(Joined(front, n, view, r), k);
  }

  /** A view from inside a span meets the spans behind it. */
  lemma InsideMeets(main: seq<Span>, j: nat, p: nat, view: seq<Span>)
    requires InsideOf(main, j, p, view)
    ensures var r := RunCount(view, 0);
            && r <= |view| && Meet(main, j + 1, p, view, r) && Joined(main, j + 1, view, r) == main
            && (r == |view| || view[r].used) && Pos(view, 0) == 0
  {
    RunBounds(view, 0);
    hide Pos, FreeRun, RunCount;
    assert Joined(main, j + 1, view, RunCount(view, 0)) == main;
  }

  lemma UsedBehindRun(main: seq<Span>, j: nat, p: nat, view: seq<Span>, x: (nat, nat))
    requires InsideOf(main, j, p, view) && Positive(view) && x in UsedSpans(p, view)
    ensures x.0 >= Pos(main, j + 1)
  {
    hide Pos, RunCount, FreeRun, UsedSpans, Positive, Joined;
    InsideMeets(main, j, p, view);
    var r := RunCount(view, 0);
    var k := UsedFrom(p, view, x);
    if k < r {
      RunFree(view, 0, k);
    }
    PosInjective(view, k, r);
  }

  // ---------------------------------------------------------------- the search of the own arena

  /** Whatever a search makes of the view, it still meets the spans behind. */
  lemma MeetsAgain(main: seq<Span>, j: nat, p: nat, view: seq<Span>, view': seq<Span>) returns (r: nat)
    requires InsideOf(main, j, p, view) && Positive(view') && Live(view) <= Live(view')
    requires p + Pos(view', |view'|) == p + Pos(view, |view|)
    ensures Meet(main, j + 1, p, view', r) && (r == |view'| || view'[r].used)
  {
    hide Pos, Live, RunCount, FreeRun, Positive, InsideOf, Joined;
    InsideMeets(main, j, p, view);
    var r0 := RunCount(view, 0);
    if r0 == |view| {
      r := |view'|;
    } else {
      LiveHas(view, r0);
      r := UsedAt(view', Pos(view, r0), view[r0].len);
    }
  }

  /** A search that found nothing leaves the cursor inside the span. */
  lemma StaysInside(main: seq<Span>, j: nat, p: nat, view: seq<Span>, view': seq<Span>, r: nat)
    requires InsideOf(main, j, p, view) && Positive(view) && Positive(view') && Live(view') == Live(view)
    requires Meet(main, j + 1, p, view', r) && (r == |view'| || view'[r].used)
    ensures InsideOf(Joined(main, j + 1, view', r), j, p, view')
  {
    hide Pos, Live, RunCount, FreeRun, Positive, Joined, UsedSpans;
    FreeUpTo(main, j, p, view, view', r);
    RunUpTo(view', 0, r);
    InsideMeets(main, j, p, view);
    JoinedLength(main, j + 1, view', r);
    JoinedPos(main, j + 1, p, view', r, j);
    JoinedPos(main, j + 1, p, view', r, j + 1);
    JoinedBehind(main, j + 1, view', r);
    PosStart(view');
  }

  lemma PosStart(spans: seq<Span>)
    ensures Pos(spans, 0) == 0
  {
  }

  lemma JoinedBehind(front: seq<Span>, n: nat, view: seq<Span>, r: nat)
    requires n <= |front| && r <= |view|
    ensures |Joined(front, n, view, r)| >= n && Joined(front, n, view, r)[n..] == view[r..]
  {
  }

  lemma FreeUpTo(main: seq<Span>, j: nat, p: nat, view: seq<Span>, view': seq<Span>, r: nat)
    requires InsideOf(main, j, p, view) && Positive(view) && Positive(view') && Live(view') == Live(view)
    requires Meet(main, j + 1, p, view', r)
    ensures r > 0 && forall k :: 0 <= k < r ==> !view'[k].used
  {
    hide Live, RunCount, FreeRun, Positive;
    forall k | 0 <= k < r
      ensures !view'[k].used
    {
      if view'[k].used {
        LiveHas(view', k);
        SameLive(p, view, view', Pos(view', k), view'[k].len);
        UsedBehindRun(main, j, p, view, (p + Pos(view', k), view'[k].len));
        PosInjective(view', k, r);
      }
    }
  }

  lemma SameLive(p: nat, view: seq<Span>, view': seq<Span>, q: nat, n: nat)
    requires Live(view') == Live(view) && (q, n) in Live(view')
    ensures (p + q, n) in UsedSpans(p, view)
  {
    hide Live;
    assert (q, n) in Live(view);
  }

  /** What a search finds is behind the span. */
  lemma FoundBehind(main: seq<Span>, j: nat, p: nat, view: seq<Span>, at: nat, required: nat)
    requires InsideOf(main, j, p, view) && Positive(view) && main[j].len < required
    requires at < |view| && FreeRun(view, at) >= required
    ensures p + Pos(view, at) >= Pos(main, j + 1)
  {
    PosNext(main, j);
    hide Pos, FreeRun, RunCount, Positive, Joined;
    InsideMeets(main, j, p, view);
    var r := RunCount(view, 0);
    if at < r {
      RunInside(view, 0, at);
    }
    PosInjective(view, at, r);
  }

  /** Looks at the whole arena again after a search of the view. */
  ghost method LookBack(a: Arena, main: seq<Span>, n: nat, r: nat, lengths: seq<nat>, uses: seq<bool>)
    requires a.Tiled() && Meet(main, n, a.base, a.spans, r) && n > 0 && Pos(main, n - 1) < a.base
    requires DescribedBy(lengths, uses, 0, main) && |lengths| == a.count
    requires forall k :: 0 <= k < |lengths| && k < a.base ==> a.length[k] == lengths[k] && a.used[k] == uses[k]
    modifies a`base, a`spans
    ensures a.Tiled() && a.base == 0 && a.spans == Joined(main, n, old(a.spans), r)
  {
    hide Pos, Positive, Joined, DescribedBy, Arena.Tiled;
    ghost var view, p := a.spans, a.base;
    JoinedDescribes(a, main, n, r, lengths, uses);
    LookFrom(a, 0, Joined(main, n, view, r));
  }

  lemma JoinedDescribes(a: Arena, main: seq<Span>, n: nat, r: nat, lengths: seq<nat>, uses: seq<bool>)
    requires a.Tiled() && Meet(main, n, a.base, a.spans, r) && n > 0 && Pos(main, n - 1) < a.base
    requires DescribedBy(lengths, uses, 0, main) && |lengths| == a.count
    requires forall k :: 0 <= k < |lengths| && k < a.base ==> a.length[k] == lengths[k] && a.used[k] == uses[k]
    ensures Describes(a, 0, Joined(main, n, a.spans, r))
  {
    hide Pos, Positive, Joined;
    var all := Joined(main, n, a.spans, r);
    JoinedLength(main, n, a.spans, r);
    JoinedPositive(main, n, a.spans, r);
    JoinedPos(main, n, a.base, a.spans, r, |all|);
    forall k | 0 <= k < |all|
      ensures Pos(all, k) < a.count && a.length[Pos(all, k)] == all[k].len && a.used[Pos(all, k)] == all[k].used
    {
      JoinedPos(main, n, a.base, a.spans, r, k);
      if k < n {
        PosInjective(main, k, n - 1);
      } else {
        JoinedPos(main, n, a.base, a.spans, r, n);
        assert a.HeaderAt(r + k - n);
      }
    }
  }

  lemma JoinedPositive(front: seq<Span>, n: nat, view: seq<Span>, r: nat)
    requires n <= |front| && r <= |view| && Positive(front) && Positive(view)
    ensures Positive(Joined(front, n, view, r))
  {
  }

  /** The first run of free spans from slot `cursor` on that is long enough starts at span `h`. */
  ghost predicate FirstRun(spans: seq<Span>, cursor: nat, required: nat, h: nat) {
    && h < |spans| && Pos(spans, h) >= cursor && FreeRun(spans, h) >= required
    && forall g: nat :: g < h && Pos(spans, g) >= cursor ==> FreeRun(spans, g) < required
  }

  /** First fit from slot `cursor` on: the search finds slot `at`, or rightly nothing. */
  ghost predicate FirstFit(spans: seq<Span>, cursor: nat, required: nat, found: bool, at: nat) {
    if found then exists h: nat :: FirstRun(spans, cursor, required, h) && at == Pos(spans, h)
    else forall g: nat :: g < |spans| && Pos(spans, g) >= cursor ==> FreeRun(spans, g) < required
  }

  lemma SearchedFrom(spans: seq<Span>, c: nat, required: nat, found: bool, k: nat)
    requires Positive(spans) && c <= |spans|
    requires if found then c <= k < |spans| && FreeRun(spans, k) >= required
                           && forall g :: c <= g < k ==> FreeRun(spans, g) < required
             else forall g :: c <= g < |spans| ==> FreeRun(spans, g) < required
    ensures FirstFit(spans, Pos(spans, c), required, found, if found then Pos(spans, k) else 0)
  {
    hide Pos, FreeRun, Positive;
    forall g: nat | g < |spans|
      ensures Pos(spans, g) >= Pos(spans, c) <==> g >= c
    {
      PosInjective(spans, g, c);
    }
    if found {
      assert FirstRun(spans, Pos(spans, c), required, k);
    }
  }

  /** The runs behind span `j` are those of a view from inside it, but for the first. */
  lemma RunsOfView(main: seq<Span>, j: nat, p: nat, view: seq<Span>, g: nat)
    requires InsideOf(main, j, p, view) && Positive(main) && g < |main|
    ensures Pos(main, g) >= p <==> g > j
    ensures g > j ==>
              var r := RunCount(view, 0);
              && r <= r + g - (j + 1) < |view| && FreeRun(main, g) == FreeRun(view, r + g - (j + 1))
              && Pos(main, g) == p + Pos(view, r + g - (j + 1))
  {
    hide Pos, FreeRun, RunCount, Positive, Joined;
    InsideMeets(main, j, p, view);
    PosInjective(main, g, j);
    PosInjective(main, g, j + 1);
    PosInjective(main, j, j + 1);
    if g > j {
      var r := RunCount(view, 0);
      JoinedPos(main, j + 1, p, view, r, g);
      JoinedPos(main, j + 1, p, view, r, j + 1);
      assert |view[r..]| == |main[j + 1..]|;
      assert main[g..] == main[j + 1..][g - (j + 1)..] && view[r + g - (j + 1)..] == view[r..][g - (j + 1)..];
      RunSuffix(main, view, g, r + g - (j + 1));
    }
  }

  lemma SearchedInside(main: seq<Span>, j: nat, p: nat, view: seq<Span>, required: nat, found: bool, k: nat)
    requires InsideOf(main, j, p, view) && Positive(main) && Positive(view) && main[j].len < required
    requires if found then k < |view| && FreeRun(view, k) >= required
                           && forall g :: 0 <= g < k ==> FreeRun(view, g) < required
             else forall g :: 0 <= g < |view| ==> FreeRun(view, g) < required
    ensures FirstFit(main, p, required, found, if found then p + Pos(view, k) else 0)
  {
    hide Pos, FreeRun, RunCount, Positive, InsideOf;
    if found {
      FirstInView(main, j, p, view, required, k);
    } else {
      forall g: nat | g < |main| && Pos(main, g) >= p
        ensures FreeRun(main, g) < required
      {
        RunsOfView(main, j, p, view, g);
      }
    }
  }

  lemma FirstInView(main: seq<Span>, j: nat, p: nat, view: seq<Span>, required: nat, k: nat)
    requires InsideOf(main, j, p, view) && Positive(main) && Positive(view) && main[j].len < required
    requires k < |view| && FreeRun(view, k) >= required && forall g :: 0 <= g < k ==> FreeRun(view, g) < required
    ensures exists h: nat :: FirstRun(main, p, required, h) && p + Pos(view, k) == Pos(main, h)
  {
    ViewLength(main, j, p, view);
    hide Pos, FreeRun, RunCount, Positive, InsideOf;
    var r := RunCount(view, 0);
    FoundBehind(main, j, p, view, k, required);
    InsideMeets(main, j, p, view);
    PosInjective(view, k, r);
    var h := k - r + j + 1;
    RunsOfView(main, j, p, view, h);
    forall g: nat | g < h && Pos(main, g) >= p
      ensures FreeRun(main, g) < required
    {
      RunsOfView(main, j, p, view, g);
    }
    assert FirstRun(main, p, required, h);
  }

  lemma ViewLength(main: seq<Span>, j: nat, p: nat, view: seq<Span>)
    requires InsideOf(main, j, p, view)
    ensures RunCount(view, 0) <= |view| && |view| - RunCount(view, 0) == |main| - (j + 1)
  {
    hide Pos, FreeRun, RunCount;
    assert |view[RunCount(view, 0)..]| == |main[j + 1..]|;
  }

  /** Runs that end before a used span are the same in both. */
  lemma {:induction false} RunBefore(spans: seq<Span>, spans': seq<Span>, j: nat, g: nat)
    requires j < |spans| && j < |spans'| && spans[..j] == spans'[..j] && spans[j].used && spans'[j].used && g <= j
    ensures FreeRun(spans', g) == FreeRun(spans, g)
    decreases j - g
  {
    if g < j {
      assert spans[g] == spans[..j][g] && spans'[g] == spans'[..j][g];
      RunBefore(spans, spans', j, g + 1);
    }
  }

  /** Having taken in the free spans behind it, a span hides no run that would have been long enough. */
  lemma RunsOfCoalesced(before: seq<Span>, j: nat, m: nat, g: nat)
    requires Positive(before) && Grown(before, j, m) && before[j].used && g < |before|
    ensures var mid := Coalesced(before, j, m, true);
            && (g <= j ==> g < |mid| && Pos(mid, g) == Pos(before, g) && FreeRun(mid, g) == FreeRun(before, g))
            && (j < g < j + m ==> FreeRun(before, g) <= FreeRun(before, j + 1))
            && (g >= j + m ==> 0 <= g - m + 1 < |mid| && Pos(mid, g - m + 1) == Pos(before, g)
                               && FreeRun(mid, g - m + 1) == FreeRun(before, g))
  {
    var mid := Coalesced(before, j, m, true);
    CoalescedShape(before, j, m, true);
    hide Pos, FreeRun, RunCount, Positive, Coalesced;
    if g <= j {
      PosPrefixOfCoalesced(before, j, m, true, g);
      RunBefore(before, mid, j, g);
    } else if g < j + m {
      RunUpTo(before, j + 1, j + m);
      RunInside(before, j + 1, g);
    } else {
      PosSuffixOfCoalesced(before, j, m, true, g);
      assert mid[g - m + 1..] == mid[j + 1..][g - (j + m)..] && before[g..] == before[j + m..][g - (j + m)..];
      RunSuffix(before, mid, g, g - m + 1);
    }
  }

  /** The span after taking in keeps its place before span `g`, which is behind or before it. */
  function InMid(j: nat, m: nat, g: nat): int { if g <= j then g else g - m + 1 }

  lemma RunInMid(before: seq<Span>, j: nat, m: nat, required: nat, g: nat)
    requires Positive(before) && Grown(before, j, m) && before[j].used && g < |before|
    requires before[j].len + FreeRun(before, j + 1) < required && FreeRun(before, g) >= required
    ensures var mid, k := Coalesced(before, j, m, true), InMid(j, m, g);
            && 0 <= k < |mid| && Pos(mid, k) == Pos(before, g) && FreeRun(mid, k) == FreeRun(before, g)
            && (g <= j || j + m <= g)
  {
    hide Pos, FreeRun, Positive, Coalesced;
    RunsOfCoalesced(before, j, m, g);
  }

  lemma RunWasThere(before: seq<Span>, j: nat, m: nat, k: nat)
    requires Positive(before) && Grown(before, j, m) && before[j].used && k < |Coalesced(before, j, m, true)|
    ensures var mid, g := Coalesced(before, j, m, true), if k <= j then k else k + m - 1;
            g < |before| && Pos(mid, k) == Pos(before, g) && FreeRun(mid, k) == FreeRun(before, g)
  {
    CoalescedShape(before, j, m, true);
    hide Pos, FreeRun, Positive, Coalesced;
    RunsOfCoalesced(before, j, m, if k <= j then k else k + m - 1);
  }

  /** What a search finds after the span took in the free ones behind it, it would have found before. */
  lemma SearchedBefore(before: seq<Span>, j: nat, m: nat, cursor: nat, required: nat, found: bool, at: nat)
    requires Positive(before) && Grown(before, j, m) && before[j].used
    requires before[j].len + FreeRun(before, j + 1) < required
    requires FirstFit(Coalesced(before, j, m, true), cursor, required, found, at)
    ensures FirstFit(before, cursor, required, found, at)
  {
    hide Pos, FreeRun, Positive, Coalesced, InMid;
    var mid := Coalesced(before, j, m, true);
    if found {
      var h: nat :| FirstRun(mid, cursor, required, h) && at == Pos(mid, h);
      RunWasThere(before, j, m, h);
      FirstWasFirst(before, j, m, cursor, required, h);
    } else {
      forall g: nat | g < |before| && Pos(before, g) >= cursor
        ensures FreeRun(before, g) < required
      {
        if FreeRun(before, g) >= required {
          RunInMid(before, j, m, required, g);
        }
      }
    }
  }

  lemma FirstWasFirst(before: seq<Span>, j: nat, m: nat, cursor: nat, required: nat, h: nat)
    requires Positive(before) && Grown(before, j, m) && before[j].used
    requires before[j].len + FreeRun(before, j + 1) < required
    requires FirstRun(Coalesced(before, j, m, true), cursor, required, h)
    ensures FirstRun(before, cursor, required, if h <= j then h else h + m - 1)
  {
    hide Pos, FreeRun, Positive, Coalesced;
    RunWasThere(before, j, m, h);
    forall g: nat | g < (if h <= j then h else h + m - 1) && Pos(before, g) >= cursor
      ensures FreeRun(before, g) < required
    {
      if FreeRun(before, g) >= required {
        RunInMid(before, j, m, required, g);
      }
    }
  }

  /** The search for a new place in the arena of the span itself, which is still in use meanwhile. */
  method SearchOwn(a: Arena, i: nat, required: nat, ghost j: nat, ghost view: seq<Span>)
    returns (found: bool, at: nat, ghost j': nat, ghost view': seq<Span>)
    requires a.base == 0 && a.Tiled() && j < |a.spans| && i == Pos(a.spans, j) && a.spans[j].used
    requires a.spans[j].len < required && (a.CursorOk() || Inside(a, j, view))
    modifies a, a.length, a.used
    ensures a.base == 0 && a.Tiled() && j' < |a.spans| && i == Pos(a.spans, j') && a.spans[j'] == old(a.spans)[j]
    ensures Live(a.spans) == Live(old(a.spans)) + if found then {(at, required)} else {}
    ensures FirstFit(old(a.spans), old(a.cursor), required, found, if found then at else 0)
    ensures found || old(a.CursorOk()) ==> a.CursorOk()
    ensures a.cursor == if found then at + required else old(a.cursor)
    ensures !found && !old(a.CursorOk()) ==> j' == j && Inside(a, j, view')
  {
    hide Pos, Live, FreeRun, RunCount, Positive, InsideOf, Describes, DescribedBy, Joined, FirstFit, Arena.Tiled,
         Arena.HeaderAt;
    ghost var main, p, astray := a.spans, a.cursor, !a.CursorOk();
    ghost var lengths, uses := a.length[..], a.used[..];
    TiledDescribes(a);
    a.TiledPositive();
    ghost var c: nat := 0;
    if astray {
      PosStart(view);
      DescribesTotal(a, p, view);
      LookFrom(a, p, view);
    } else {
      c :| c <= |main| && Pos(main, c) == p;
    }
    ghost var k;
    found, at, k := a.Allocate(required, c);
    view' := a.spans;
    if astray {
      j' := j;
      SearchedInside(main, j, p, view, required, found, k);
      Rejoin(a, main, j, p, view, required, found, at, k, lengths, uses);
    } else {
      SearchedFrom(main, c, required, found, k);
      LiveHas(main, j);
      j' := UsedAt(a.spans, i, main[j].len);
    }
  }

  /** After a search from inside span `j`. */
  ghost method Rejoin(a: Arena, main: seq<Span>, j: nat, p: nat, view: seq<Span>, required: nat, found: bool, at: nat,
                      k: nat, lengths: seq<nat>, uses: seq<bool>)
    requires a.Sound() && a.base == p && InsideOf(main, j, p, view) && Positive(view) && main[j].len < required
    requires DescribedBy(lengths, uses, 0, main) && |lengths| == a.count == p + Pos(view, |view|)
    requires forall k :: 0 <= k < |lengths| && k < p ==> a.length[k] == lengths[k] && a.used[k] == uses[k]
    requires if found then k < |view| && at == p + Pos(view, k) && FreeRun(view, k) >= required
                           && Live(a.spans) == Live(view) + {(at - p, required)} && a.cursor == at + required
             else Live(a.spans) == Live(view) && a.cursor == p
    modifies a`base, a`spans
    ensures a.base == 0 && a.Tiled() && j < |a.spans| && Pos(a.spans, j) == Pos(main, j) && a.spans[j] == main[j]
    ensures Live(a.spans) == Live(main) + if found then {(at, required)} else {}
    ensures if found then a.CursorOk() else Inside(a, j, old(a.spans))
    ensures a.cursor == old(a.cursor)
  {
    hide Pos, Live, FreeRun, RunCount, Positive, Joined, DescribedBy, Describes, Arena.HeaderAt, UsedSpans;
    ghost var view' := a.spans;
    a.TiledPositive();
    TiledDescribes(a);
    ghost var r := MeetsAgain(main, j, p, view, view');
    RejoinedLive(main, j, p, view, view', r, required, found, at, k);
    JoinedLength(main, j + 1, view', r);
    JoinedPos(main, j + 1, p, view', r, j);
    if found {
      FoundBehind(main, j, p, view, k, required);
      ghost var c: nat :| c <= |view'| && p + Pos(view', c) == a.cursor;
      CursorBehind(main, j, p, view', r, c);
    } else {
      StaysInside(main, j, p, view, view', r);
    }
    LookBack(a, main, j + 1, r, lengths, uses);
  }

  lemma RejoinedLive(main: seq<Span>, j: nat, p: nat, view: seq<Span>, view': seq<Span>, r: nat, required: nat,
                     found: bool, at: nat, k: nat)
    requires InsideOf(main, j, p, view) && Positive(view) && Positive(view') && main[j].len < required
    requires Meet(main, j + 1, p, view', r)
    requires if found then k < |view| && at == p + Pos(view, k) && FreeRun(view, k) >= required
                           && Live(view') == Live(view) + {(at - p, required)}
             else Live(view') == Live(view)
    ensures Live(Joined(main, j + 1, view', r)) == Live(main) + if found then {(at, required)} else {}
  {
    hide Pos, Live, FreeRun, RunCount, Positive, Joined, UsedSpans, UsedBefore, InsideOf;
    InsideMeets(main, j, p, view);
    if found {
      FoundBehind(main, j, p, view, k, required);
      UsedPlus(p, view, view', at, required);
    } else {
      UsedSame(p, view, view');
    }
    forall x
      ensures x in Live(Joined(main, j + 1, view', r)) <==> x in Live(main) || (found && x == (at, required))
    {
      JoinedLive(main, j + 1, p, view, RunCount(view, 0), x);
      JoinedLive(main, j + 1, p, view', r, x);
    }
  }

  lemma UsedSame(base: nat, spans: seq<Span>, spans': seq<Span>)
    requires Live(spans') == Live(spans)
    ensures UsedSpans(base, spans') == UsedSpans(base, spans)
  {
    hide Live;
  }

  lemma CursorBehind(main: seq<Span>, j: nat, p: nat, view: seq<Span>, r: nat, c: nat)
    requires Meet(main, j + 1, p, view, r) && j < |main| && Positive(view) && c <= |view|
    requires p + Pos(view, c) >= Pos(main, j + 1)
    ensures Boundary(Joined(main, j + 1, view, r), p + Pos(view, c))
  {
    hide Pos, Positive, Joined;
    PosInjective(view, c, r);
    JoinedLength(main, j + 1, view, r);
    JoinedPos(main, j + 1, p, view, r, j + 1 + c - r);
  }

  // ---------------------------------------------------------------- the move

  /** Writing the header of span `j` leaves those behind it. */
  lemma KeepsHeaders(a: Arena, before: seq<Span>, j: nat, lengths: seq<nat>, uses: seq<bool>)
    requires DescribedBy(lengths, uses, 0, before) && a.length.Length == a.used.Length == a.count == |lengths|
    requires j < |before|
    requires forall k :: 0 <= k < |lengths| && k != Pos(before, j) ==> a.length[k] == lengths[k] && a.used[k] == uses[k]
    ensures Headers(a, before, j + 1) && Pos(before, |before|) == a.count
  {
    hide Pos, Positive;
    forall k | j + 1 <= k < |before|
      ensures Pos(before, k) < a.count
      ensures a.length[Pos(before, k)] == before[k].len && a.used[Pos(before, k)] == before[k].used
    {
      PosInjective(before, j, k);
    }
  }

  lemma InsideIsAstray(a: Arena, j: nat, view: seq<Span>)
    requires Inside(a, j, view) && a.Tiled() && a.base == 0
    ensures !a.CursorOk()
  {
    hide Pos, FreeRun, RunCount, Describes, Arena.HeaderAt, Positive;
    forall c: nat | c <= |a.spans|
      ensures Pos(a.spans, c) != a.cursor
    {
      PosInjective(a.spans, j, c);
      PosInjective(a.spans, c, j + 1);
    }
  }

  /** Where a reallocated span goes: to its old place, to another one in its arena, to another arena, or
      nowhere, for lack of memory. */
  datatype Place = InPlace | SameArena(at: nat) | OtherArena | Nowhere

  /** Reallocates a span. If it has to move, its own arena is `searched` unless an arena before it in the
      list has room; behind it, room may be `granted`. Afterwards the arena is in order exactly if the
      span was long enough, or found a place in its arena, or the cursor is not inside what it took
      in. If the span has gone to another arena, the cursor is astray otherwise. */
  method Reallocate(a: Arena, i: nat, required: nat, searched: bool, granted: bool, ghost j: nat)
    returns (place: Place, ghost j': nat, ghost view: seq<Span>)
    requires a.Valid() && j < |a.spans| && i == Pos(a.spans, j) && a.spans[j].used && required >= 1
    modifies a, a.length, a.used
    ensures a.base == 0 && a.Tiled()
    ensures place.InPlace? <==> required <= old(a.spans)[j].len + FreeRun(old(a.spans), j + 1)
    ensures (place.SameArena? ==> searched) && (place.Nowhere? ==> searched && !granted)
    ensures searched && !place.InPlace? ==>
              FirstFit(old(a.spans), old(a.cursor), required, place.SameArena?,
                       if place.SameArena? then place.at else 0)
    ensures a.cursor == match place { case InPlace => i + required
                                      case SameArena(at) => at + required
                                      case _ => old(a.cursor) }
    ensures var total := old(a.spans)[j].len + FreeRun(old(a.spans), j + 1);
            && Live(a.spans) == Live(old(a.spans)) - {(i, old(a.spans)[j].len)}
                                + match place { case InPlace => {(i, required)}
                                                case SameArena(at) => {(at, required)}
                                                case OtherArena => {}
                                                case Nowhere => {(i, total)} }
            && (a.Valid() <==> place.InPlace? || place.SameArena? || !(i < old(a.cursor) < i + total))
    ensures !a.Valid() ==> a.cursor == old(a.cursor) && Inside(a, j', view)
    ensures !a.Valid() && place.OtherArena? ==> Astray(a, j', view)
  {
    hide Pos, Live, FreeRun, Coalesced, InsideOf, Describes, DescribedBy, Positive, Headers, Arena.Tiled,
         Arena.HeaderAt, FirstFit;
    ghost var before, lengths, uses := a.spans, a.length[..], a.used[..];
    ghost var c: nat :| c <= |before| && Pos(before, c) == a.cursor;
    TiledDescribes(a);
    a.TiledPositive();
    var inPlace;
    ghost var m;
    inPlace, m := a.ReallocateInPlace(i, required, j);
    j', view := j, before[c..];
    if inPlace {
      place := InPlace;
      return;
    }
    TookIn(before, j, m);
    OneTakenOut(before, j, a.spans[j].len);
    if !a.CursorOk() {
      KeepsHeaders(a, before, j, lengths, uses);
      Strays(a, before, j, m, c);
    }
    var found, at := false, 0;
    if searched {
      ghost var cursor := a.cursor;
      found, at, j', view := SearchOwn(a, i, required, j, view);
      SearchedBefore(before, j, m, cursor, required, found, if found then at else 0);
    }
    if found || !searched || granted {
      GiveUp(a, i, j', view);
      place := if found then SameArena(at) else OtherArena;
    } else {
      place := Nowhere;
    }
    if Inside(a, j', view) {
      InsideIsAstray(a, j', view);
    }
  }

  /** Frees a span without a look at the cursor. */
  method GiveUp(a: Arena, i: nat, ghost j: nat, ghost view: seq<Span>)
    requires a.base == 0 && a.Tiled() && j < |a.spans| && i == Pos(a.spans, j)
    modifies a`spans, a`log, a.used
    ensures a.Tiled() && a.spans == old(a.spans)[j := old(a.spans)[j].(used := false)]
    ensures a.log == old(a.log) + [Back(i)]
    ensures Live(a.spans) == Live(old(a.spans)) - {(i, old(a.spans)[j].len)}
    ensures a.CursorOk() <==> old(a.CursorOk())
    ensures old(Inside(a, j, view)) ==> Inside(a, j, view)
  {
    hide Pos, Live, Positive, InsideOf, Describes, DescribedBy, Arena.Tiled, Arena.HeaderAt;
    ghost var before, lengths, uses := a.spans, a.length[..], a.used[..];
    a.TiledPositive();
    MarkedLive(before, j, false);
    if Inside(a, j, view) {
      DescribesTotal(a, a.cursor, view);
      MarkedInside(before, j, a.cursor, view);
    }
    a.SetUsed(i, false, j);
    a.log := a.log + [Back(i)];
    if old(a.CursorOk()) {
      ghost var c: nat :| c <= |before| && Pos(before, c) == a.cursor;
      assert Pos(a.spans, c) == a.cursor;
    }
    if a.CursorOk() {
      ghost var c: nat :| c <= |a.spans| && Pos(a.spans, c) == a.cursor;
      assert Pos(before, c) == a.cursor;
    }
    if old(Inside(a, j, view)) {
      KeepsView(a, a.cursor, view, lengths, uses);
    }
  }

  lemma MarkedInside(spans: seq<Span>, j: nat, p: nat, view: seq<Span>)
    requires InsideOf(spans, j, p, view)
    ensures Pos(spans, j) < p && InsideOf(spans[j := spans[j].(used := false)], j, p, view)
  {
    var after := spans[j := spans[j].(used := false)];
    SameLengths(spans, after, j);
    SameLengths(spans, after, j + 1);
    assert after[j + 1..] == spans[j + 1..];
    hide Pos, FreeRun, RunCount;
  }

  // ---------------------------------------------------------------- slots handed out twice

  /** The slot is in no used span. */
  ghost predicate NoneUses(spans: seq<Span>, e: nat) {
    forall x :: x in Live(spans) ==> !(x.0 <= e < x.0 + x.1)
  }

  lemma FreeSlotUnused(spans: seq<Span>, j: nat, e: nat)
    requires Positive(spans) && j < |spans| && !spans[j].used && Pos(spans, j) <= e < Pos(spans, j + 1)
    ensures NoneUses(spans, e)
  {
    forall x | x in Live(spans)
      ensures !(x.0 <= e < x.0 + x.1)
    {
      var k: nat :| k < |spans| && spans[k].used && x == (Pos(spans, k), spans[k].len);
      if k < j {
        PosMonotone(spans, k + 1, j);
      } else {
        PosMonotone(spans, j + 1, k);
      }
    }
  }

  lemma {:induction false} SpanOf(spans: seq<Span>, e: nat, n: nat) returns (k: nat)
    requires n <= |spans| && e < Pos(spans, n)
    ensures k < n && Pos(spans, k) <= e < Pos(spans, k + 1)
  {
    if e >= Pos(spans, n - 1) {
      k := n - 1;
    } else {
      k := SpanOf(spans, e, n - 1);
    }
  }

  /** From a span start on, an unused slot is in a free run. */
  lemma FreeRunAt(spans: seq<Span>, c: nat, e: nat) returns (k: nat)
    requires Positive(spans) && c <= |spans| && Pos(spans, c) <= e < Pos(spans, |spans|) && NoneUses(spans, e)
    ensures c <= k < |spans| && Pos(spans, k) <= e && FreeRun(spans, k) >= 1
  {
    k := SpanOf(spans, e, |spans|);
    PosInjective(spans, c, k + 1);
    UsedIsLive(spans);
  }

  /** In the log, the slot goes out, and goes out again without having come back. */
  ghost predicate TwiceOut(log: seq<Event>, e: nat) {
    exists x: nat, y: nat :: x < y < |log| && log[x] == Out(e) && log[y] == Out(e) && NotBack(log, x, y, e)
  }

  /** The slot does not come back between two events. */
  ghost predicate NotBack(log: seq<Event>, x: nat, y: nat, e: nat)
    requires y <= |log|
  {
    forall k :: x < k < y ==> log[k] != Back(e)
  }

  ghost predicate OnlyOut(log: seq<Event>) {
    forall k :: 0 <= k < |log| ==> log[k].Out?
  }

  /** Requests for one slot, until the slot `e` is handed out. */
  method HandOutUpTo(a: Arena, e: nat) returns (ghost rest: seq<Event>)
    requires a.Valid() && a.cursor <= e < a.count && NoneUses(a.spans, e)
    modifies a, a.length, a.used
    ensures a.Valid() && OnlyOut(rest) && a.log == old(a.log) + rest + [Out(e)]
  {
    hide Pos, Live, FreeRun, Positive;
    rest := [];
    var i := a.count;
    while i != e
      invariant a.Valid() && OnlyOut(rest)
      invariant if i == e then a.log == old(a.log) + rest + [Out(e)]
                else a.log == old(a.log) + rest && a.cursor <= e && NoneUses(a.spans, e)
      decreases i != e, e - a.cursor
    {
      ghost var before := a.spans;
      ghost var c: nat :| c <= |before| && Pos(before, c) == a.cursor;
      a.TiledPositive();
      ghost var k := FreeRunAt(before, c, e);
      ghost var at;
      var found;
      found, i, at := a.Allocate(1, c);
      NextOut(before, c, k, at, e);
      if i != e {
        rest := rest + [Out(i)];
      }
    }
  }

  lemma NextOut(spans: seq<Span>, c: nat, k: nat, at: nat, e: nat)
    requires Positive(spans) && c <= k < |spans| && c <= at <= k && Pos(spans, k) <= e
    ensures Pos(spans, c) <= Pos(spans, at) <= e
  {
    PosMonotone(spans, c, at);
    PosMonotone(spans, at, k);
  }

  /** With the cursor astray, a request for one slot is served at the cursor, inside the free span. */
  method TakeAstray(a: Arena, ghost j: nat, ghost view: seq<Span>) returns (e: nat)
    requires Astray(a, j, view)
    modifies a, a.length, a.used
    ensures a.base == 0 && a.Tiled() && a.spans == old(a.spans) && e == old(a.cursor) && a.cursor == e + 1
    ensures a.log == old(a.log) + [Out(e)]
  {
    hide Live, FreeRun, RunCount, Positive, Describes, DescribedBy, Astray, Pos, Arena.Tiled, Arena.HeaderAt;
    ghost var main := a.spans;
    e := a.cursor;
    AstrayFacts(a, j, view);
    ghost var lengths, uses := a.length[..], a.used[..];
    LookFrom(a, e, view);
    ghost var at;
    var found, i;
    found, i, at := a.Allocate(1, 0);
    StillDescribes(a, main, j, e, lengths, uses);
    LookFrom(a, 0, main);
  }

  lemma AstrayFacts(a: Arena, j: nat, view: seq<Span>)
    requires Astray(a, j, view)
    ensures a.length.Length == a.used.Length == a.count && j < |a.spans| && Pos(a.spans, j) < a.cursor
    ensures Describes(a, a.cursor, view) && DescribedBy(a.length[..], a.used[..], 0, a.spans)
    ensures view != [] && FreeRun(view, 0) >= 1 && Pos(view, 0) == 0
    ensures a.cursor + FreeRun(view, 0) == Pos(a.spans, j + 1)
    ensures a.base == 0 && a.Tiled()
  {
    TiledDescribes(a);
  }

  /** Headers written only inside one free span leave the spans as they were. */
  lemma StillDescribes(a: Arena, main: seq<Span>, j: nat, e: nat, lengths: seq<nat>, uses: seq<bool>)
    requires DescribedBy(lengths, uses, 0, main) && j < |main| && Pos(main, j) < e
    requires a.length.Length == a.used.Length == a.count == |lengths|
    requires forall k :: 0 <= k < |lengths| && !(e <= k < Pos(main, j + 1)) ==>
               a.length[k] == lengths[k] && a.used[k] == uses[k]
    ensures Describes(a, 0, main)
  {
    forall k | 0 <= k < |main|
      ensures Pos(main, k) < a.count
      ensures a.length[Pos(main, k)] == main[k].len && a.used[Pos(main, k)] == main[k].used
    {
      if k <= j {
        PosMonotone(main, k, j);
      } else {
        PosMonotone(main, j + 1, k);
      }
    }
  }

  /** Main result: if the cursor is astray and a used span `z` is left before, then after freeing it
      requests for one slot hand out the slot at the cursor twice. */
  method HandOutTwice(a: Arena, z: nat, ghost jz: nat, ghost j: nat, ghost view: seq<Span>) returns (e: nat)
    requires Astray(a, j, view) && jz < j && a.spans[jz].used && z == Pos(a.spans, jz)
    modifies a, a.length, a.used
    ensures a.Valid() && old(a.log) <= a.log && TwiceOut(a.log[|old(a.log)|..], e)
  {
    ghost var main := a.spans;
    a.TiledPositive();
    PosMonotone(main, jz, j);
    FreeSlotUnused(main, j, a.cursor);
    PosMonotone(main, j + 1, |main|);
    ghost var cursor := a.cursor;
    hide Live, FreeRun, RunCount, Positive, Pos;
    e := TakeAstray(a, j, view);
    a.Deallocate(z, jz);
    assert NoneUses(a.spans, e);
    ghost var rest := HandOutUpTo(a, e);
    OutBackOut(old(a.log), a.log, z, e, rest);
  }

  lemma OutBackOut(before: seq<Event>, log: seq<Event>, z: nat, e: nat, rest: seq<Event>)
    requires z < e && OnlyOut(rest) && log == before + [Out(e)] + [Back(z)] + rest + [Out(e)]
    ensures before <= log && TwiceOut(log[|before|..], e)
  {
    var tail := log[|before|..];
    assert tail == [Out(e), Back(z)] + rest + [Out(e)];
    var y := |tail| - 1;
    assert tail[0] == Out(e) && tail[y] == Out(e);
    forall k | 0 < k < y
      ensures tail[k] != Back(e)
    {
      assert k > 1 ==> tail[k] == rest[k - 2];
    }
    assert NotBack(tail, 0, y, e);
  }

  // ---------------------------------------------------------------- a run from a new arena

  /** A request for one slot, served at the cursor. */
  method HandOutAt(a: Arena, e: nat)
    requires a.Valid() && a.cursor == e < a.count && NoneUses(a.spans, e)
    modifies a, a.length, a.used
    ensures a.Valid() && a.cursor == e + 1 && a.log == old(a.log) + [Out(e)]
    ensures Live(a.spans) == Live(old(a.spans)) + {(e, 1)}
  {
    hide Pos, Live, FreeRun, Positive;
    ghost var before := a.spans;
    ghost var c: nat :| c <= |before| && Pos(before, c) == a.cursor;
    a.TiledPositive();
    ghost var k := FreeRunAt(before, c, e);
    ghost var at;
    var found, i;
    found, i, at := a.Allocate(1, c);
    NextOut(before, c, k, at, e);
  }

  lemma UsedIsLive(spans: seq<Span>)
    ensures forall k: nat :: k < |spans| && spans[k].used ==> (Pos(spans, k), spans[k].len) in Live(spans)
  {
  }

  /** A free slot between two used spans is a run of its own. */
  lemma LoneFreeSlot(spans: seq<Span>, j: nat, e: nat)
    requires Positive(spans) && j < |spans| && Pos(spans, j + 1) == e && NoneUses(spans, e) && (e + 1, 1) in Live(spans)
    ensures FreeRun(spans, j + 1) == 1
  {
    var k := UsedAt(spans, e + 1, 1);
    PosInjective(spans, j + 1, k);
    UsedIsLive(spans);
    PosInjective(spans, j + 2, k);
    PosNext(spans, j + 1);
  }

  lemma NewIsUnused(count: nat)
    ensures Live([Span(count, false)]) == {}
  {
  }

  lemma TwiceOutLater(before: seq<Event>, log: seq<Event>, e: nat)
    requires before <= log && TwiceOut(log[|before|..], e)
    ensures TwiceOut(log, e)
  {
    var tail, n := log[|before|..], |before|;
    var x: nat, y: nat :| x < y < |tail| && tail[x] == Out(e) && tail[y] == Out(e) && NotBack(tail, x, y, e);
    forall k | n + x < k < n + y
      ensures log[k] != Back(e)
    {
      assert log[k] == tail[k - n];
    }
    assert log[n + x] == Out(e) && log[n + y] == Out(e) && NotBack(log, n + x, n + y, e);
  }

  /** Four spans of one slot go out, and the third one comes back. */
  method FourOut() returns (a: Arena)
    ensures fresh(a) && fresh(a.length) && fresh(a.used) && a.Valid() && a.count == 4 && a.cursor == 2
    ensures Live(a.spans) == {(0, 1), (1, 1), (3, 1)}
  {
    hide Live, Positive, Pos, FreeRun;
    a := new Arena(4);
    NewIsUnused(4);
    HandOutAt(a, 0);
    HandOutAt(a, 1);
    HandOutAt(a, 2);
    HandOutAt(a, 3);
    ghost var j := UsedAt(a.spans, 2, 1);
    a.Deallocate(2, j);
  }

  /** In this arena the second span is reallocated to three slots and moves away. The cursor is astray
      then, the first span is still in use, and the third slot is handed out twice. */
  method FourSlots() returns (a: Arena, e: nat)
    ensures fresh(a) && a.Valid() && TwiceOut(a.log, e)
  {
    hide Live, FreeRun, RunCount, Positive, Pos, Astray, TwiceOut;
    a := FourOut();
    ghost var j := UsedAt(a.spans, 1, 1);
    a.TiledPositive();
    PosNext(a.spans, j);
    LoneFreeSlot(a.spans, j, 2);
    ghost var view;
    ghost var j';
    var place;
    place, j', view := Reallocate(a, 1, 3, true, true, j);
    a.TiledPositive();
    NoRoomForThree(a.spans);
    ghost var jz := UsedAt(a.spans, 0, 1);
    FirstBefore(a, j', view, jz);
    ghost var before := a.log;
    e := HandOutTwice(a, 0, jz, j', view);
    TwiceOutLater(before, a.log, e);
  }

  /** Beside two used slots at its ends, four slots have no room for a span of three. */
  lemma NoRoomForThree(spans: seq<Span>)
    requires Positive(spans) && Pos(spans, |spans|) == 4 && (0, 1) in Live(spans) && (3, 1) in Live(spans)
    ensures forall at: nat :: (at, 3) !in Live(spans)
  {
    forall at: nat
      ensures (at, 3) !in Live(spans)
    {
      if (at, 3) in Live(spans) {
        LiveDisjoint(spans, (at, 3), (0, 1));
        LiveDisjoint(spans, (at, 3), (3, 1));
        var k := UsedAt(spans, at, 3);
        PosMonotone(spans, k + 1, |spans|);
      }
    }
  }

  lemma FirstBefore(a: Arena, j: nat, view: seq<Span>, jz: nat)
    requires Astray(a, j, view) && jz < |a.spans| && a.spans[jz].used && Pos(a.spans, jz) == 0
    ensures jz < j
  {
    PosInjective(a.spans, 0, jz);
    assert jz == 0;
  }

  // ---------------------------------------------------------------- no used span before

  lemma SameUsed(main: seq<Span>, j: nat, p: nat, view: seq<Span>)
    requires InsideOf(main, j, p, view) && Positive(view) && forall k :: 0 <= k <= j ==> !main[k].used
    ensures UsedSpans(p, view) == Live(main)
  {
    hide Live, Pos, RunCount, FreeRun, UsedSpans, Positive, Joined;
    InsideMeets(main, j, p, view);
    forall x
      ensures x in Live(main) <==> x in UsedSpans(p, view)
    {
      JoinedLive(main, j + 1, p, view, RunCount(view, 0), x);
      if x in UsedSpans(p, view) {
        UsedBehindRun(main, j, p, view, x);
      }
    }
  }

  /** If no used span is left before, the slots before the cursor are lost but nothing else is: from
      the cursor on the arena is in order, and has all used spans. */
  ghost method SlotsAreLost(a: Arena, j: nat, view: seq<Span>)
    requires Astray(a, j, view) && forall k :: 0 <= k < j ==> !a.spans[k].used
    modifies a`base, a`spans
    ensures a.Sound() && a.base == a.cursor && UsedSpans(a.base, a.spans) == Live(old(a.spans))
  {
    hide Live, Pos, RunCount, FreeRun, UsedSpans, Positive, Describes, DescribedBy, Arena.Tiled, Arena.HeaderAt;
    RunBounds(view, 0);
    AstrayFacts(a, j, view);
    SameUsed(a.spans, j, a.cursor, view);
    LookFrom(a, a.cursor, view);
    assert a.base + Pos(view, 0) == a.cursor;
  }
}
