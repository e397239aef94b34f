/** Spans of slots that tile an arena: used and free runs, and how they are merged and split. */
module SlotSpans {

  datatype Span = Span(len: nat, used: bool)

  /** The slot at which the `j`-th span starts; for the number of spans, the end of the arena. */
  function Pos(spans: seq<Span>, j: nat): nat
    requires j <= |spans|
  {
    if j == 0 then 0 else Pos(spans, j - 1) + spans[j - 1].len
  }

  ghost predicate Positive(spans: seq<Span>) {
    forall j :: 0 <= j < |spans| ==> spans[j].len > 0
  }

  /** The spans in use, by start and length. */
  ghost function Live(spans: seq<Span>): set<(nat, nat)> {
    set j: nat | j < |spans| && spans[j].used :: (Pos(spans, j), spans[j].len)
  }

  /** The number of free spans in a row from the `j`-th on, and their slots. */
  function RunCount(spans: seq<Span>, j: nat): nat
    requires j <= |spans|
    decreases |spans| - j
  {
    if j == |spans| || spans[j].used then 0 else 1 + RunCount(spans, j + 1)
  }

  function FreeRun(spans: seq<Span>, j: nat): nat
    requires j <= |spans|
    decreases |spans| - j
  {
    if j == |spans| || spans[j].used then 0 else spans[j].len + FreeRun(spans, j + 1)
  }

  lemma {:induction false} RunBounds(spans: seq<Span>, j: nat)
    requires j <= |spans|
    ensures j + RunCount(spans, j) <= |spans| && Pos(spans, j + RunCount(spans, j)) == Pos(spans, j) + FreeRun(spans, j)
    ensures j + RunCount(spans, j) < |spans| ==> spans[j + RunCount(spans, j)].used
    decreases |spans| - j
  {
    if j < |spans| && !spans[j].used {
      RunBounds(spans, j + 1);
    }
  }

  /** Inside a free run, what is left of it is shorter. */
  lemma {:induction false} RunInside(spans: seq<Span>, j: nat, k: nat)
    requires j <= k <= |spans| && k <= j + RunCount(spans, j)
    ensures FreeRun(spans, k) <= FreeRun(spans, j)
    decreases k - j
  {
    if j < k {
      RunInside(spans, j + 1, k);
    }
  }

  lemma {:induction false} PosMonotone(spans: seq<Span>, j: nat, k: nat)
    requires Positive(spans) && j <= k <= |spans|
    ensures Pos(spans, j) + (k - j) <= Pos(spans, k)
    decreases k - j
  {
    if j < k {
      PosMonotone(spans, j, k - 1);
    }
  }

  lemma PosNext(spans: seq<Span>, j: nat)
    requires j < |spans|
    ensures Pos(spans, j + 1) == Pos(spans, j) + spans[j].len
  {
  }

  lemma PosInjective(spans: seq<Span>, j: nat, k: nat)
    requires Positive(spans) && j <= |spans| && k <= |spans|
    ensures Pos(spans, j) == Pos(spans, k) <==> j == k
    ensures Pos(spans, j) < Pos(spans, k) <==> j < k
  {
    if j <= k {
      PosMonotone(spans, j, k);
    } else {
      PosMonotone(spans, k, j);
    }
  }

  lemma {:induction false} PosPrefix(spans: seq<Span>, spans': seq<Span>, j: nat)
    requires j <= |spans| && j <= |spans'| && spans[..j] == spans'[..j]
    ensures Pos(spans', j) == Pos(spans, j)
  {
    if j > 0 {
      assert spans[..j - 1] == spans[..j][..j - 1] && spans'[..j - 1] == spans'[..j][..j - 1];
      assert spans[j - 1] == spans[..j][j - 1] && spans'[j - 1] == spans'[..j][j - 1];
      PosPrefix(spans, spans', j - 1);
    }
  }

  /** Behind a change that keeps the slots in total, the positions stay. */
  lemma {:induction false} PosSuffix(spans: seq<Span>, spans': seq<Span>, j: nat, j': nat, d: nat)
    requires j + d <= |spans| && j' + d <= |spans'| && Pos(spans, j) == Pos(spans', j')
    requires spans'[j'..j' + d] == spans[j..j + d]
    ensures Pos(spans', j' + d) == Pos(spans, j + d)
  {
    if d > 0 {
      assert spans'[j'..j' + d][..d - 1] == spans'[j'..j' + d - 1] && spans[j..j + d][..d - 1] == spans[j..j + d - 1];
      assert spans'[j'..j' + d][d - 1] == spans'[j' + d - 1] && spans[j..j + d][d - 1] == spans[j + d - 1];
      PosSuffix(spans, spans', j, j', d - 1);
    }
  }

  // ---------------------------------------------------------------- merging and splitting

  /** The `j`-th span takes in the one behind it. */
  function Merged(spans: seq<Span>, j: nat): seq<Span>
    requires j + 1 < |spans|
  {
    spans[..j] + [spans[j].(len := spans[j].len + spans[j + 1].len)] + spans[j + 2..]
  }

  lemma MergedShape(spans: seq<Span>, j: nat)
    requires j + 1 < |spans|
    ensures |Merged(spans, j)| == |spans| - 1 && (Positive(spans) ==> Positive(Merged(spans, j)))
  {
  }

  lemma MergedAt(spans: seq<Span>, j: nat, k: nat)
    requires j + 1 < |spans| && k < |Merged(spans, j)|
    ensures Merged(spans, j)[k] == if k < j then spans[k]
                                   else if k == j then Span(spans[j].len + spans[j + 1].len, spans[j].used)
                                   else spans[k + 1]
  {
  }

  lemma PosMerged(spans: seq<Span>, j: nat, k: nat)
    requires j + 1 < |spans| && k < |spans|
    ensures Pos(Merged(spans, j), k) == Pos(spans, if k <= j then k else k + 1)
  {
    var spans' := Merged(spans, j);
    if k <= j {
      assert spans'[..k] == spans[..k];
      PosPrefix(spans, spans', k);
    } else {
      assert spans'[..j] == spans[..j];
      PosPrefix(spans, spans', j);
      assert Pos(spans', j + 1) == Pos(spans, j + 2);
      assert spans'[j + 1..k] == spans[j + 2..k + 1];
      PosSuffix(spans, spans', j + 2, j + 1, k - j - 1);
    }
  }

  /** Merging a free span into a span keeps all used spans, but for the one that grew. */
  lemma MergedLive(spans: seq<Span>, j: nat)
    requires Positive(spans) && j + 1 < |spans| && !spans[j + 1].used
    ensures var grown := {(Pos(spans, j), spans[j].len + spans[j + 1].len)};
            Live(Merged(spans, j)) ==
              if spans[j].used then Live(spans) - {(Pos(spans, j), spans[j].len)} + grown else Live(spans)
  {
    var spans' := Merged(spans, j);
    var expected := if spans[j].used then Live(spans) - {(Pos(spans, j), spans[j].len)}
        + {(Pos(spans, j), spans[j].len + spans[j + 1].len)}
                    else Live(spans);
    forall x | x in Live(spans')
      ensures x in expected
    {
      var k: nat :| k < |spans'| && spans'[k].used && x == (Pos(spans', k), spans'[k].len);
      PosMerged(spans, j, k);
      var i := if k <= j then k else k + 1;
      PosInjective(spans, i, j);
      if k != j {
        assert spans'[k] == spans[i];
      }
    }
    forall x | x in expected
      ensures x in Live(spans')
    {
      if x == (Pos(spans, j), spans[j].len + spans[j + 1].len) && spans[j].used {
        PosMerged(spans, j, j);
        assert spans'[j].used;
      } else {
        var i: nat :| i < |spans| && spans[i].used && x == (Pos(spans, i), spans[i].len);
        var k := if i <= j then i else i - 1;
        PosMerged(spans, j, k);
        assert spans'[k] == spans[i];
      }
    }
  }

  /** The `j`-th span is cut after `n` slots; what is behind is free. */
  function Cut(spans: seq<Span>, j: nat, n: nat, used: bool): seq<Span>
    requires j < |spans| && n < spans[j].len
  {
    spans[..j] + [Span(n, used), Span(spans[j].len - n, false)] + spans[j + 1..]
  }

  lemma CutShape(spans: seq<Span>, j: nat, n: nat, used: bool)
    requires j < |spans| && n < spans[j].len
    ensures |Cut(spans, j, n, used)| == |spans| + 1
    ensures Positive(spans) && n > 0 ==> Positive(Cut(spans, j, n, used))
  {
  }

  lemma CutAt(spans: seq<Span>, j: nat, n: nat, used: bool, k: nat)
    requires j < |spans| && n < spans[j].len && k <= |spans|
    ensures |Cut(spans, j, n, used)| == |spans| + 1
    ensures Cut(spans, j, n, used)[k]
            == if k < j then spans[k] else if k == j then Span(n, used)
               else if k == j + 1 then Span(spans[j].len - n, false) else spans[k - 1]
  {
  }

  lemma PosCut(spans: seq<Span>, j: nat, n: nat, used: bool, k: nat)
    requires j < |spans| && n < spans[j].len && k <= |spans| + 1
    ensures Pos(Cut(spans, j, n, used), k) ==
            if k <= j then Pos(spans, k) else if k == j + 1 then Pos(spans, j) + n else Pos(spans, k - 1)
  {
    var spans' := Cut(spans, j, n, used);
    if k <= j {
      assert spans'[..k] == spans[..k];
      PosPrefix(spans, spans', k);
    } else {
      assert spans'[..j] == spans[..j];
      PosPrefix(spans, spans', j);
      assert Pos(spans', j + 1) == Pos(spans, j) + n;
      if k > j + 1 {
        assert Pos(spans', j + 2) == Pos(spans, j + 1);
        assert spans'[j + 2..k] == spans[j + 1..k - 1];
        PosSuffix(spans, spans', j + 1, j + 2, k - j - 2);
      }
    }
  }

  /** Cutting replaces one used span by another or adds one, and keeps the rest. */
  lemma CutLive(spans: seq<Span>, j: nat, n: nat)
    requires Positive(spans) && j < |spans| && n < spans[j].len
    ensures Live(Cut(spans, j, n, true)) == Live(spans) - {(Pos(spans, j), spans[j].len)} + {(Pos(spans, j), n)}
  {
    hide Pos, Positive, Cut, Live;
    var expected := Live(spans) - {(Pos(spans, j), spans[j].len)} + {(Pos(spans, j), n)};
    forall x
      ensures x in Live(Cut(spans, j, n, true)) <==> x in expected
    {
      if x in Live(Cut(spans, j, n, true)) {
        CutWasLive(spans, j, n, x);
      }
      if x in expected {
        CutIsLive(spans, j, n, x);
      }
    }
  }

  lemma CutWasLive(spans: seq<Span>, j: nat, n: nat, x: (nat, nat))
    requires Positive(spans) && j < |spans| && n < spans[j].len && x in Live(Cut(spans, j, n, true))
    ensures x == (Pos(spans, j), n) || (x in Live(spans) && x != (Pos(spans, j), spans[j].len))
  {
    hide Pos, Positive;
    var spans' := Cut(spans, j, n, true);
    var k: nat :| k < |spans'| && spans'[k].used && x == (Pos(spans', k), spans'[k].len);
    PosCut(spans, j, n, true, k);
    if k != j {
      var i := if k < j then k else k - 1;
      assert spans'[k] == spans[i];
      PosInjective(spans, i, j);
    }
  }

  lemma CutIsLive(spans: seq<Span>, j: nat, n: nat, x: (nat, nat))
    requires Positive(spans) && j < |spans| && n < spans[j].len
    requires x == (Pos(spans, j), n) || (x in Live(spans) && x != (Pos(spans, j), spans[j].len))
    ensures x in Live(Cut(spans, j, n, true))
  {
    hide Pos, Positive;
    var spans' := Cut(spans, j, n, true);
    if x == (Pos(spans, j), n) {
      PosCut(spans, j, n, true, j);
      assert spans'[j].used;
    } else {
      var i: nat :| i < |spans| && spans[i].used && x == (Pos(spans, i), spans[i].len);
      var k := if i < j then i else i + 1;
      PosCut(spans, j, n, true, k);
      assert spans'[k] == spans[i];
    }
  }

  /** Marking a span as used or free. */
  lemma MarkedLive(spans: seq<Span>, j: nat, used: bool)
    requires Positive(spans) && j < |spans|
    ensures forall k :: 0 <= k <= |spans| ==> Pos(spans[j := spans[j].(used := used)], k) == Pos(spans, k)
    ensures var one := {(Pos(spans, j), spans[j].len)};
            Live(spans[j := spans[j].(used := used)]) == if used then Live(spans) + one else Live(spans) - one
  {
    var spans' := spans[j := spans[j].(used := used)];
    forall k | 0 <= k <= |spans|
      ensures Pos(spans', k) == Pos(spans, k)
    {
      SameLengths(spans, spans', k);
    }
    var one := {(Pos(spans, j), spans[j].len)};
    var expected := if used then Live(spans) + one else Live(spans) - one;
    forall x | x in Live(spans')
      ensures x in expected
    {
      var k: nat :| k < |spans'| && spans'[k].used && x == (Pos(spans', k), spans'[k].len);
      PosInjective(spans, k, j);
      assert k != j ==> spans[k].used;
    }
    forall x | x in expected
      ensures x in Live(spans')
    {
      if x == (Pos(spans, j), spans[j].len) {
        assert used ==> spans'[j].used;
      } else {
        var k: nat :| k < |spans| && spans[k].used && x == (Pos(spans, k), spans[k].len);
        assert spans'[k].used;
      }
    }
  }

  lemma {:induction false} SameLengths(spans: seq<Span>, spans': seq<Span>, k: nat)
    requires |spans'| == |spans| && k <= |spans| && forall j :: 0 <= j < |spans| ==> spans'[j].len == spans[j].len
    ensures Pos(spans', k) == Pos(spans, k)
  {
    if k > 0 {
      SameLengths(spans, spans', k - 1);
    }
  }

  // ---------------------------------------------------------------- coalescing

  /** `m` spans from the `j`-th on as one. */
  function Coalesced(spans: seq<Span>, j: nat, m: nat, used: bool): seq<Span>
    requires j + m <= |spans| && Pos(spans, j) <= Pos(spans, j + m)
  {
    spans[..j] + [Span(Pos(spans, j + m) - Pos(spans, j), used)] + spans[j + m..]
  }

  lemma CoalesceOne(spans: seq<Span>, j: nat)
    requires j < |spans|
    ensures Pos(spans, j) <= Pos(spans, j + 1) && Coalesced(spans, j, 1, spans[j].used) == spans
  {
    assert Coalesced(spans, j, 1, spans[j].used) == spans;
  }

  lemma CoalesceNext(spans: seq<Span>, j: nat, m: nat, used: bool)
    requires j + m < |spans| && Pos(spans, j) <= Pos(spans, j + m)
    ensures j + 1 < |Coalesced(spans, j, m, used)| && Coalesced(spans, j, m, used)[j + 1] == spans[j + m]
    ensures Pos(spans, j) <= Pos(spans, j + m + 1)
            && Merged(Coalesced(spans, j, m, used), j) == Coalesced(spans, j, m + 1, used)
  {
    var c := Coalesced(spans, j, m, used);
    assert c[j] == Span(Pos(spans, j + m) - Pos(spans, j), used);
    assert c[..j] == spans[..j] && c[j + 2..] == spans[j + m + 1..];
  }

  /** A prefix of a free run. */
  predicate WithinRun(spans: seq<Span>, j: nat, m: nat) {
    && j + m <= |spans| && RunCount(spans, j) == m + RunCount(spans, j + m)
    && FreeRun(spans, j) == Pos(spans, j + m) - Pos(spans, j) + FreeRun(spans, j + m)
  }

  lemma RunNext(spans: seq<Span>, j: nat, m: nat)
    requires WithinRun(spans, j, m) && j + m < |spans| && !spans[j + m].used
    ensures WithinRun(spans, j, m + 1)
  {
  }

  lemma PosPrefixOfCoalesced(spans: seq<Span>, j: nat, m: nat, used: bool, k: nat)
    requires j + m <= |spans| && Pos(spans, j) <= Pos(spans, j + m) && k <= j
    ensures Pos(Coalesced(spans, j, m, used), k) == Pos(spans, k)
            && Pos(Coalesced(spans, j, m, used), j + 1) == Pos(spans, j + m)
  {
    var c := Coalesced(spans, j, m, used);
    assert c[..k] == spans[..k] && c[..j] == spans[..j];
    PosPrefix(spans, c, k);
    PosPrefix(spans, c, j);
    assert c[j].len == Pos(spans, j + m) - Pos(spans, j);
  }

  lemma PosSuffixOfCoalesced(spans: seq<Span>, j: nat, m: nat, used: bool, k: nat)
    requires 0 < m && j + m <= k <= |spans| && Pos(spans, j) <= Pos(spans, j + m)
    ensures k - m + 1 <= |Coalesced(spans, j, m, used)| && Pos(Coalesced(spans, j, m, used), k - m + 1) == Pos(spans, k)
  {
    var c := Coalesced(spans, j, m, used);
    PosPrefixOfCoalesced(spans, j, m, used, j);
    assert c[j + 1..k - m + 1] == spans[j + m..k];
    PosSuffix(spans, c, j + m, j + 1, k - j - m);
  }

  /** A slot at which a span starts, or the end of the arena. */
  ghost predicate Boundary(spans: seq<Span>, p: nat) {
    exists k: nat :: k <= |spans| && Pos(spans, k) == p
  }

  /** Making one span of several removes exactly the boundaries strictly inside. */
  lemma BoundaryCoalesced(spans: seq<Span>, j: nat, m: nat, used: bool, c: nat)
    requires Positive(spans) && 0 < m && j + m <= |spans| && Pos(spans, j) <= Pos(spans, j + m) && c <= |spans|
    ensures Boundary(Coalesced(spans, j, m, used), Pos(spans, c))
            <==> !(Pos(spans, j) < Pos(spans, c) < Pos(spans, j + m))
  {
    var spans' := Coalesced(spans, j, m, used);
    PosInjective(spans, j, c);
    PosInjective(spans, c, j + m);
    if c <= j {
      PosPrefixOfCoalesced(spans, j, m, used, c);
    } else if c >= j + m {
      PosSuffixOfCoalesced(spans, j, m, used, c);
    } else if Boundary(spans', Pos(spans, c)) {
      var k: nat :| k <= |spans'| && Pos(spans', k) == Pos(spans, c);
      if k <= j {
        PosPrefixOfCoalesced(spans, j, m, used, k);
        PosInjective(spans, k, c);
      } else {
        PosSuffixOfCoalesced(spans, j, m, used, k + m - 1);
        PosInjective(spans, k + m - 1, c);
      }
    }
  }

  /** At one position there is at most one used span. */
  lemma OneLiveAt(spans: seq<Span>, j: nat, len: nat)
    requires Positive(spans) && j < |spans| && (Pos(spans, j), len) in Live(spans)
    ensures len == spans[j].len && spans[j].used
  {
    var k: nat :| k < |spans| && spans[k].used && (Pos(spans, j), len) == (Pos(spans, k), spans[k].len);
    PosInjective(spans, j, k);
  }

  /** Two used spans never overlap. */
  lemma LiveDisjoint(spans: seq<Span>, x: (nat, nat), y: (nat, nat))
    requires Positive(spans) && x in Live(spans) && y in Live(spans) && x != y
    ensures x.0 + x.1 <= y.0 || y.0 + y.1 <= x.0
  {
    var j: nat :| j < |spans| && spans[j].used && x == (Pos(spans, j), spans[j].len);
    var k: nat :| k < |spans| && spans[k].used && y == (Pos(spans, k), spans[k].len);
    if j < k {
      PosMonotone(spans, j + 1, k);
    } else if k < j {
      PosMonotone(spans, k + 1, j);
    }
  }

  /** A span of one slot before a free one, with the cursor between them: growing to three slots fails,
      and leaves the cursor inside a span. */
  lemma CursorInside()
    ensures var spans := [Span(1, true), Span(1, false), Span(1, true)];
            && Positive(spans) && Boundary(spans, 1) && spans[0].len + FreeRun(spans, 1) < 3
            && Pos(spans, 0) <= Pos(spans, 0 + 2) && !Boundary(Coalesced(spans, 0, 2, true), 1)
  {
    var spans := [Span(1, true), Span(1, false), Span(1, true)];
    assert Pos(spans, 1) == 1 && Pos(spans, 2) == 2;
    assert FreeRun(spans, 2) == 0;
    BoundaryCoalesced(spans, 0, 2, true, 1);
  }
}
