/**
  When splitting a compaction into key ranges shows in its output. The record that starts the
  output of a range is reached without a move, so its key does not count as having output; the
  single delete after it, and its put, may then be emitted although one run would drop both.
  The difference shows exactly in such ranges, and only once in each.
*/
module SplitVisibility {
  import opened Basics
  import opened Records
  import opened CompactionSpec
  import opened ReadPreservation
  import opened OutputOrder
  import opened CompactionSegments
  import opened SplitCompaction

  // ---------------------------------------------------------------- one range

  /** The iterator passes over the record at `p` without output, as long as the key has none: a put
      hidden by the put before it, or a single delete with another one behind it. */
  predicate PassedOver(cfg: Config, input: seq<Record>, p: nat) {
    && 0 < p < |input|
    && if input[p].kind.SingleDelete? then
         && p + 1 < |input| && input[p + 1].key == input[p].key && input[p + 1].kind.SingleDelete?
         && Stripe(cfg.snapshots, input[p + 1].seqno) == Stripe(cfg.snapshots, input[p].seqno)
       else
         && input[p].kind.Put? && input[p - 1].kind.Put?
         && Stripe(cfg.snapshots, input[p - 1].seqno) == Stripe(cfg.snapshots, input[p].seqno)
  }

  /** The single delete at `q` is not old enough to be dropped at once, and its put is in the same
      snapshot stripe. */
  predicate YoungPair(cfg: Config, input: seq<Record>, q: nat) {
    && q + 1 < |input| && input[q + 1].key == input[q].key
    && input[q].kind.SingleDelete? && input[q + 1].kind.Put? && input[q].seqno > cfg.writeConflict
    && Stripe(cfg.snapshots, input[q + 1].seqno) == Stripe(cfg.snapshots, input[q].seqno)
  }

  /** From position `p` on, among older versions of the key before it, such a pair is at `q`, and
      everything up to it is passed over. */
  predicate LeadsToPair(cfg: Config, input: seq<Record>, p: nat, q: nat) {
    && 0 < p <= q < |input| && YoungPair(cfg, input, q)
    && forall r :: p <= r <= q ==> input[r].key == input[p - 1].key && (r < q ==> PassedOver(cfg, input, r))
  }

  predicate PairFrom(cfg: Config, input: seq<Record>, p: nat) {
    exists q :: p <= q < |input| && LeadsToPair(cfg, input, p, q)
  }

  lemma YoungPairIsHit(cfg: Config, input: seq<Record>, deeper: seq<Record>, q: nat)
    requires Setting(cfg, input, deeper)
    ensures YoungPair(cfg, input, q) <==> HitAt(cfg, input, q)
  {
    if q + 1 < |input| && input[q].kind.SingleDelete? && !LastOfKey(input, q) {
      SingleDeleteStripes(cfg, input, q);
      NoDeleteFollows(input, deeper, q);
    }
  }

  /** Without the flag the pair takes two turns, with it one; the iterator remembers the same after. */
  lemma HitTurns(cfg: Config, input: seq<Record>, d: Cursor)
    requires ConfigOk(cfg) && InputOk(input) && CursorOk(cfg, input, d)
    requires HitAt(cfg, input, d.pos) && !IsNewKey(input, d) && !d.clearNext && !d.outputted
    ensures var q, n := d.pos, Noted(cfg, input, d);
            var after := n.(pos := q + 2, outputted := true);
            && OneTurn(cfg, input, d) == Turn(Some(input[q]), n.(clearNext := true))
            && OneTurn(cfg, input, n.(clearNext := true, outputted := true))
                == Turn(Some(input[q + 1].(value := "")), after)
            && OneTurn(cfg, input, d.(outputted := true)) == Turn(None, after)
  {
    SingleDeleteStripes(cfg, input, d.pos);
    hide Stripe, Previous, Droppable;
  }

  /** The single delete and its put are emitted without the flag and dropped with it; the rest
      is the same. */
  lemma HitEmitsTwo(cfg: Config, input: seq<Record>, d: Cursor, e: nat)
    requires ConfigOk(cfg) && InputOk(input) && CursorOk(cfg, input, d) && Boundary(input, e) && d.pos < e
    requires HitAt(cfg, input, d.pos) && !IsNewKey(input, d) && !d.clearNext && !d.outputted
    ensures |UpTo(cfg, input, d, false, e)| == |UpTo(cfg, input, d.(outputted := true), false, e)| + 2
  {
    var q := d.pos;
    HitTurns(cfg, input, d);
    hide OneTurn, HitAt, CursorOk, InputOk, ConfigOk, Stripe;
    var n := Noted(cfg, input, d);
    var m := n.(clearNext := true, outputted := true);
    var after := n.(pos := q + 2, outputted := true);
    assert UpTo(cfg, input, d.(outputted := true), false, e) == UpTo(cfg, input, after, false, e);
    assert UpTo(cfg, input, m, false, e)
           == [Zeroed(cfg, input[q + 1].(value := ""))] + UpTo(cfg, input, after, false, e);
    assert UpTo(cfg, input, d, false, e) == [Zeroed(cfg, input[q])] + UpTo(cfg, input, m, false, e);
  }

  /** The turns from a cursor on, all of one key, are silent until such a pair is met. */
  predicate Meets(cfg: Config, input: seq<Record>, d: Cursor)
    decreases |input| - d.pos
  {
    && d.pos < |input| && !IsNewKey(input, d) && !d.clearNext
    && (HitAt(cfg, input, d.pos)
        || (OneTurn(cfg, input, d).out.None? && Meets(cfg, input, OneTurn(cfg, input, d).next)))
  }

  /** With `more`, the flag makes a difference of two records, and otherwise none. */
  ghost predicate TwoMore(cfg: Config, input: seq<Record>, d: Cursor, e: nat, more: bool)
    requires e <= |input|
  {
    |UpTo(cfg, input, d, false, e)| == |UpTo(cfg, input, d.(outputted := true), false, e)| + (if more then 2 else 0)
    && (!more ==> UpTo(cfg, input, d, false, e) == UpTo(cfg, input, d.(outputted := true), false, e))
  }

  lemma {:induction false} MeetsDiffers(cfg: Config, input: seq<Record>, deeper: seq<Record>, d: Cursor, e: nat)
    requires Setting(cfg, input, deeper) && CursorOk(cfg, input, d) && Boundary(input, e) && d.pos <= e && !d.outputted
    ensures TwoMore(cfg, input, d, e, d.pos < e && Meets(cfg, input, d))
    decreases |input| - d.pos
  {
    if d.pos < e {
      var t := OneTurn(cfg, input, d);
      if HitAt(cfg, input, d.pos) && !IsNewKey(input, d) && !d.clearNext {
        HitEmitsTwo(cfg, input, d, e);
      } else if t.out.Some? {
        NextEmits(cfg, input, d, e);
      } else {
        FlagTurn(cfg, input, d);
        if !IsNewKey(input, d) {
          TurnKeepsCursor(cfg, input, deeper, d);
          TurnStays(cfg, input, d, e);
          ClearEmits(cfg, input, d);
          SilentTurn(cfg, input, d);
          MeetsDiffers(cfg, input, deeper, t.next, e);
          if Meets(cfg, input, t.next) {
            MeetsBefore(cfg, input, t.next, e);
          }
        }
      }
    }
  }

  lemma MeetsBefore(cfg: Config, input: seq<Record>, d: Cursor, e: nat)
    requires CursorOk(cfg, input, d) && Boundary(input, e) && d.pos <= e && Meets(cfg, input, d)
    ensures d.pos < e
  {
  }

  lemma ClearEmits(cfg: Config, input: seq<Record>, d: Cursor)
    requires d.pos < |input|
    ensures d.clearNext ==> OneTurn(cfg, input, d).out.Some?
  {
  }

  // ---------------------------------------------------------------- the same in terms of the records

  lemma {:induction false} NoSingleDeleteNoPair(cfg: Config, input: seq<Record>, d: Cursor)
    requires CursorOk(cfg, input, d) && d.hasKey && NoSingleDelete(input, d.key)
    ensures !Meets(cfg, input, d)
    decreases |input| - d.pos
  {
    if d.pos < |input| && !IsNewKey(input, d) && !d.clearNext && OneTurn(cfg, input, d).out.None? {
      NoSingleDeleteNoPair(cfg, input, OneTurn(cfg, input, d).next);
    }
  }

  lemma {:induction false} OldNoPair(cfg: Config, input: seq<Record>, deeper: seq<Record>, d: Cursor)
    requires Setting(cfg, input, deeper) && CursorOk(cfg, input, d) && 0 < d.pos
    requires input[d.pos - 1].seqno <= cfg.writeConflict
    ensures !Meets(cfg, input, d)
    decreases |input| - d.pos
  {
    if d.pos < |input| && !IsNewKey(input, d) && !d.clearNext {
      Older(input, d.pos - 1, d.pos);
      var n := OneTurn(cfg, input, d).next;
      TurnKeepsCursor(cfg, input, deeper, d);
      if n.pos - 1 > d.pos && n.hasKey && n.pos < |input| && !IsNewKey(input, n) {
        Older(input, d.pos, n.pos - 1);
        OldNoPair(cfg, input, deeper, n);
      } else if n.pos - 1 == d.pos {
        OldNoPair(cfg, input, deeper, n);
      }
    }
  }

  /** Where the turns of one key can stand without output: behind a single delete there is another
      one, or a put in another stripe, unless it is to be cleared. */
  predicate Settled(cfg: Config, input: seq<Record>, d: Cursor) {
    0 < d.pos < |input| && input[d.pos - 1].kind.SingleDelete? && input[d.pos].key == input[d.pos - 1].key ==>
      d.clearNext || input[d.pos].kind.SingleDelete?
      || Stripe(cfg.snapshots, input[d.pos].seqno) != Stripe(cfg.snapshots, input[d.pos - 1].seqno)
  }

  /** What a turn without output does when no pair is met. */
  lemma SilentTurns(cfg: Config, input: seq<Record>, deeper: seq<Record>, d: Cursor)
    requires Setting(cfg, input, deeper) && CursorOk(cfg, input, d) && Settled(cfg, input, d) && 0 < d.pos < |input|
    requires !d.clearNext && !d.outputted && !IsNewKey(input, d) && !HitAt(cfg, input, d.pos)
    requires !NoSingleDelete(input, input[d.pos].key)
    ensures var t := OneTurn(cfg, input, d);
            if PassedOver(cfg, input, d.pos) then
              t.out.None? && t.next.pos == d.pos + 1 && Settled(cfg, input, t.next)
            else
              t.out.Some? || !t.next.hasKey || (t.next.pos == d.pos + 2 && input[d.pos].seqno <= cfg.writeConflict)
  {
    var p := d.pos;
    assert Paired(input, deeper, input[p].key);
    if !LastOfKey(input, p) {
      SingleDeleteStripes(cfg, input, p);
    }
    hide Setting, Stripe, Previous, Droppable, Paired;
  }

  lemma PassOn(cfg: Config, input: seq<Record>, p: nat)
    requires 0 < p < |input| && input[p].key == input[p - 1].key && !YoungPair(cfg, input, p)
    ensures PairFrom(cfg, input, p) <==> PassedOver(cfg, input, p) && PairFrom(cfg, input, p + 1)
  {
    hide PassedOver, YoungPair;
    if PairFrom(cfg, input, p) {
      var q :| p <= q < |input| && LeadsToPair(cfg, input, p, q);
      assert LeadsToPair(cfg, input, p + 1, q);
    }
    if PassedOver(cfg, input, p) && PairFrom(cfg, input, p + 1) {
      var q :| p + 1 <= q < |input| && LeadsToPair(cfg, input, p + 1, q);
      assert LeadsToPair(cfg, input, p, q);
    }
  }

  lemma {:induction false} MeetsIff(cfg: Config, input: seq<Record>, deeper: seq<Record>, d: Cursor)
    requires Setting(cfg, input, deeper) && CursorOk(cfg, input, d) && Settled(cfg, input, d)
    requires 0 < d.pos && !d.outputted
    ensures Meets(cfg, input, d) <==> PairFrom(cfg, input, d.pos)
    decreases |input| - d.pos
  {
    var p := d.pos;
    if p >= |input| || IsNewKey(input, d) {
      assert forall q :: !LeadsToPair(cfg, input, p, q);
    } else if d.clearNext {
      assert forall q :: !LeadsToPair(cfg, input, p, q);
    } else if NoSingleDelete(input, input[p].key) {
      NoSingleDeleteNoPair(cfg, input, d);
      assert forall q :: !LeadsToPair(cfg, input, p, q);
    } else {
      YoungPairIsHit(cfg, input, deeper, p);
      if HitAt(cfg, input, p) {
        assert LeadsToPair(cfg, input, p, p);
      } else {
        MeetsStep(cfg, input, deeper, d);
      }
    }
  }

  lemma {:induction false} MeetsStep(cfg: Config, input: seq<Record>, deeper: seq<Record>, d: Cursor)
    requires Setting(cfg, input, deeper) && CursorOk(cfg, input, d) && Settled(cfg, input, d) && 0 < d.pos < |input|
    requires !d.clearNext && !d.outputted && !IsNewKey(input, d) && !HitAt(cfg, input, d.pos)
    requires !NoSingleDelete(input, input[d.pos].key)
    ensures Meets(cfg, input, d) <==> PairFrom(cfg, input, d.pos)
    decreases |input| - d.pos, 0
  {
    var t := OneTurn(cfg, input, d);
    YoungPairIsHit(cfg, input, deeper, d.pos);
    TurnKeepsCursor(cfg, input, deeper, d);
    SilentTurns(cfg, input, deeper, d);
    if t.out.None? {
      SilentTurn(cfg, input, d);
    }
    PassOn(cfg, input, d.pos);
    hide OneTurn, PairFrom, PassedOver, HitAt, YoungPair;
    if PassedOver(cfg, input, d.pos) {
      MeetsIff(cfg, input, deeper, t.next);
    } else if t.out.None? && t.next.hasKey {
      OldPairGone(cfg, input, deeper, d, t.next);
    }
  }

  lemma OldPairGone(cfg: Config, input: seq<Record>, deeper: seq<Record>, d: Cursor, n: Cursor)
    requires Setting(cfg, input, deeper) && CursorOk(cfg, input, n) && n.hasKey && n.pos == d.pos + 2 <= |input|
    requires input[d.pos].seqno <= cfg.writeConflict && n.key == input[d.pos].key
    ensures !Meets(cfg, input, n)
  {
    Older(input, d.pos, d.pos + 1);
    OldNoPair(cfg, input, deeper, n);
  }

  /** Runs from `c` that start without output and that had output before differ by two records if
      such a pair is behind the first record emitted, and not at all otherwise. */
  ghost predicate DiffersByPair(cfg: Config, input: seq<Record>, c: Cursor, e: nat)
    requires e <= |input|
  {
    var own, one := UpTo(cfg, input, c, true, e), UpTo(cfg, input, c, false, e);
    var j := FirstOut(cfg, input, c);
    if c.pos < e && j < e && PairFrom(cfg, input, j + 1) then |own| == |one| + 2 else own == one
  }

  lemma EmitsFirst(cfg: Config, input: seq<Record>, deeper: seq<Record>, c: Cursor, e: nat)
    requires Setting(cfg, input, deeper) && CursorOk(cfg, input, c) && Boundary(input, e) && c.pos < e
    requires !c.outputted && !c.clearNext && OneTurn(cfg, input, c).out.Some?
    ensures DiffersByPair(cfg, input, c, e)
  {
    hide OneTurn, Setting, CursorOk, PairFrom;
    AfterFirst(cfg, input, deeper, c, e);
  }

  lemma SilentFirst(cfg: Config, input: seq<Record>, c: Cursor, e: nat)
    requires c.pos < e <= |input| && OneTurn(cfg, input, c).out.None?
    requires DiffersByPair(cfg, input, OneTurn(cfg, input, c).next, e)
    ensures DiffersByPair(cfg, input, c, e)
  {
    hide OneTurn, PairFrom;
    var d := OneTurn(cfg, input, c).next;
    assert UpTo(cfg, input, c, true, e) == UpTo(cfg, input, d, true, e);
    assert UpTo(cfg, input, c, false, e) == UpTo(cfg, input, d, false, e);
    assert FirstOut(cfg, input, c) == FirstOut(cfg, input, d);
  }

  /** Whether anything was emitted before makes a difference exactly if such a pair is behind the
      first record emitted. */
  lemma {:induction false} FirstDiffers(cfg: Config, input: seq<Record>, deeper: seq<Record>, c: Cursor, e: nat)
    requires Setting(cfg, input, deeper) && CursorOk(cfg, input, c) && Boundary(input, e) && c.pos <= e
    requires !c.outputted && !c.clearNext
    ensures DiffersByPair(cfg, input, c, e)
    decreases |input| - c.pos
  {
    if c.pos < e {
      TurnKeepsCursor(cfg, input, deeper, c);
      TurnStays(cfg, input, c, e);
      hide OneTurn, Setting, CursorOk, PairFrom, DiffersByPair;
      if OneTurn(cfg, input, c).out.Some? {
        EmitsFirst(cfg, input, deeper, c, e);
      } else {
        SilentTurn(cfg, input, c);
        FirstDiffers(cfg, input, deeper, OneTurn(cfg, input, c).next, e);
        SilentFirst(cfg, input, c, e);
      }
    }
  }

  lemma AfterFirst(cfg: Config, input: seq<Record>, deeper: seq<Record>, c: Cursor, e: nat)
    requires Setting(cfg, input, deeper) && CursorOk(cfg, input, c) && Boundary(input, e) && c.pos < e
    requires !c.outputted && !c.clearNext && OneTurn(cfg, input, c).out.Some?
    ensures TwoMore(cfg, input, OneTurn(cfg, input, c).next, e, PairFrom(cfg, input, c.pos + 1))
  {
    var d := OneTurn(cfg, input, c).next;
    EmittedRecord(cfg, input, c);
    TurnKeepsCursor(cfg, input, deeper, c);
    TurnStays(cfg, input, c, e);
    EmittedSettles(cfg, input, c);
    MeetsIff(cfg, input, deeper, d);
    MeetsDiffers(cfg, input, deeper, d, e);
    if Meets(cfg, input, d) {
      MeetsBefore(cfg, input, d, e);
    }
  }

  lemma EmittedSettles(cfg: Config, input: seq<Record>, c: Cursor)
    requires ConfigOk(cfg) && InputOk(input) && c.pos < |input| && !c.outputted && !c.clearNext
    requires OneTurn(cfg, input, c).out.Some?
    ensures Settled(cfg, input, OneTurn(cfg, input, c).next) && !OneTurn(cfg, input, c).next.outputted
  {
    EmittedRecord(cfg, input, c);
    EmittedFlag(cfg, input, c);
    if input[c.pos].kind.SingleDelete? && !LastOfKey(input, c.pos) {
      SingleDeleteStripes(cfg, input, c.pos);
      EmittedInOtherStripe(cfg, input, c);
    }
    hide OneTurn, Stripe, Previous, ConfigOk, InputOk;
  }

  lemma EmittedFlag(cfg: Config, input: seq<Record>, c: Cursor)
    requires c.pos < |input| && !c.outputted
    ensures !OneTurn(cfg, input, c).next.outputted
  {
  }

  /** A single delete emitted before an older version of its key has the value of that version
      cleared next, or is in another stripe. */
  lemma EmittedInOtherStripe(cfg: Config, input: seq<Record>, c: Cursor)
    requires c.pos + 1 < |input| && input[c.pos].kind.SingleDelete? && !c.clearNext && !c.outputted
    requires OneTurn(cfg, input, c).out.Some? && input[c.pos + 1].key == input[c.pos].key
    ensures OneTurn(cfg, input, c).next.clearNext || !InSameStripe(cfg, input, c.pos)
  {
  }

  lemma SilentTurn(cfg: Config, input: seq<Record>, c: Cursor)
    requires c.pos < |input| && OneTurn(cfg, input, c).out.None? && !c.outputted && !c.clearNext
    ensures !OneTurn(cfg, input, c).next.outputted && !OneTurn(cfg, input, c).next.clearNext
  {
  }

  // ---------------------------------------------------------------- ranges as segments

  lemma {:induction false} TakeBelowParts(a: seq<Record>, b: seq<Record>, end: Option<int>)
    requires forall i :: 0 <= i < |a| ==> BelowEnd(a[i].key, end)
    requires b != [] ==> !BelowEnd(b[0].key, end)
    ensures TakeBelow(a + b, end) == a
  {
    if a == [] {
      assert a + b == b;
    } else {
      assert (a + b)[0] == a[0] && (a + b)[1..] == a[1..] + b;
      TakeBelowParts(a[1..], b, end);
    }
  }

  lemma CutIsBoundary(input: seq<Record>, bounds: seq<int>, n: nat)
    requires Sorted(input) && n <= |bounds| + 1
    ensures Boundary(input, Cut(input, bounds, n))
    ensures n == 0 ==> Cut(input, bounds, n) == 0
  {
  }

  lemma SeekCursorOk(cfg: Config, input: seq<Record>, p: nat)
    requires Boundary(input, p)
    ensures CursorOk(cfg, input, SeekCursor(p))
  {
  }

  /** A range writes what a run from its seek emits before the start of the next range. */
  lemma RangeIsSegment(cfg: Config, input: seq<Record>, deeper: seq<Record>, bounds: seq<int>, i: nat)
    requires Setting(cfg, input, deeper) && Increasing(bounds) && i <= |bounds|
    ensures Cut(input, bounds, i) <= Cut(input, bounds, i + 1)
    ensures RangeOutput(cfg, input, RangeStart(bounds, i), RangeEnd(bounds, i))
         == UpTo(cfg, input, SeekCursor(Cut(input, bounds, i)), true, Cut(input, bounds, i + 1))
  {
    SettingSorted(cfg, input, deeper);
    var p, e, end := Cut(input, bounds, i), Cut(input, bounds, i + 1), RangeEnd(bounds, i);
    CutMonotone(input, bounds, i);
    CutIsBoundary(input, bounds, i);
    CutIsBoundary(input, bounds, i + 1);
    SeekCursorOk(cfg, input, p);
    CompactedSuffix(cfg, input, p);
    hide Setting, CursorOk, Boundary, UpTo, Compacted, Increasing;
    var c := SeekCursor(p);
    UpToSplits(cfg, input, deeper, c, true, e, |input|) by {
      assert Boundary(input, |input|) by { EndIsBoundary(input); }
    }
    var a := UpTo(cfg, input, c, true, e);
    var b := UpTo(cfg, input, SeekCursor(e), true && a == [], |input|);
    forall k | 0 <= k < |a|
      ensures BelowEnd(a[k].key, end)
    {
      UpToStems(cfg, input, c, true, e, k);
      StemBelow(input, p, e, a[k], end);
    }
    if b != [] {
      UpToStems(cfg, input, SeekCursor(e), true && a == [], |input|, 0);
      StemBeyond(input, e, b[0], end);
    }
    TakeBelowParts(a, b, end);
  }

  lemma EndIsBoundary(input: seq<Record>)
    ensures Boundary(input, |input|)
  {
  }

  lemma StemBelow(input: seq<Record>, p: nat, e: nat, r: Record, end: Option<int>)
    requires Sorted(input) && e <= |input| && StemsFrom(input, p, e, r) && (end.Some? ==> e <= SeekTo(input, end))
    ensures BelowEnd(r.key, end)
  {
  }

  lemma StemBeyond(input: seq<Record>, e: nat, r: Record, end: Option<int>)
    requires Sorted(input) && StemsFrom(input, e, |input|, r) && e == if end.Some? then SeekTo(input, end) else |input|
    ensures !BelowEnd(r.key, end)
  {
  }

  // ---------------------------------------------------------------- when the split shows

  /** One run has emitted something before the range starts, and the first record the range emits
      has such a pair behind it. */
  predicate Shows(cfg: Config, input: seq<Record>, bounds: seq<int>, i: nat)
    requires Sorted(input) && i <= |bounds|
  {
    var p, e := Cut(input, bounds, i), Cut(input, bounds, i + 1);
    var j := FirstOut(cfg, input, SeekCursor(p));
    FirstOut(cfg, input, START) < p && j < e && PairFrom(cfg, input, j + 1)
  }

  /** The number of ranges among the first `n` in which the split shows. */
  function Shown(cfg: Config, input: seq<Record>, bounds: seq<int>, n: nat): nat
    requires Sorted(input) && n <= |bounds| + 1
  {
    if n == 0 then 0 else Shown(cfg, input, bounds, n - 1) + if Shows(cfg, input, bounds, n - 1) then 1 else 0
  }

  lemma {:induction false} ShownIff(cfg: Config, input: seq<Record>, bounds: seq<int>, n: nat)
    requires Sorted(input) && n <= |bounds| + 1
    ensures Shown(cfg, input, bounds, n) == 0 <==> forall i: nat :: i < n ==> !Shows(cfg, input, bounds, i)
  {
    hide Shows;
    if n > 0 {
      ShownIff(cfg, input, bounds, n - 1);
    }
  }

  /** What one run emits before range `n` starts. */
  function Before(cfg: Config, input: seq<Record>, bounds: seq<int>, n: nat): seq<Record>
    requires Sorted(input) && n <= |bounds| + 1
  {
    UpTo(cfg, input, START, true, Cut(input, bounds, n))
  }

  /** One run goes on at the start of a range as a run from a seek would, but for the flag. */
  lemma BeforeNext(cfg: Config, input: seq<Record>, deeper: seq<Record>, bounds: seq<int>, i: nat)
    requires Setting(cfg, input, deeper) && Increasing(bounds) && i <= |bounds|
    ensures Before(cfg, input, bounds, i + 1) == Before(cfg, input, bounds, i)
              + UpTo(cfg, input, SeekCursor(Cut(input, bounds, i)), Before(cfg, input, bounds, i)
                  == [], Cut(input, bounds, i + 1))
  {
    SettingSorted(cfg, input, deeper);
    CutMonotone(input, bounds, i);
    CutIsBoundary(input, bounds, i);
    CutIsBoundary(input, bounds, i + 1);
    hide Setting, UpTo, Increasing;
    UpToSplits(cfg, input, deeper, START, true, Cut(input, bounds, i), Cut(input, bounds, i + 1));
  }

  lemma SegmentDiffers(cfg: Config, input: seq<Record>, deeper: seq<Record>, bounds: seq<int>, i: nat)
    requires Setting(cfg, input, deeper) && Increasing(bounds) && i <= |bounds|
    ensures var p, e := Cut(input, bounds, i), Cut(input, bounds, i + 1);
            var one := UpTo(cfg, input, SeekCursor(p), Before(cfg, input, bounds, i) == [], e);
            var own := UpTo(cfg, input, SeekCursor(p), true, e);
            && |own| == |one| + (if Shows(cfg, input, bounds, i) then 2 else 0)
            && (!Shows(cfg, input, bounds, i) ==> own == one)
  {
    SettingSorted(cfg, input, deeper);
    var p, e := Cut(input, bounds, i), Cut(input, bounds, i + 1);
    CutMonotone(input, bounds, i);
    CutIsBoundary(input, bounds, i);
    CutIsBoundary(input, bounds, i + 1);
    SeekCursorOk(cfg, input, p);
    hide Setting, CursorOk, Boundary, UpTo, Increasing, PairFrom, FirstOut, SeekTo, Sorted;
    NothingBeforeFirst(cfg, input, START, true, p);
    FirstDiffers(cfg, input, deeper, SeekCursor(p), e);
  }

  lemma {:induction false} JoinedDiffers(cfg: Config, input: seq<Record>, deeper: seq<Record>, bounds: seq<int>, n: nat)
    requires Setting(cfg, input, deeper) && Increasing(bounds) && n <= |bounds| + 1
    ensures |Joined(cfg, input, bounds, n)| == |Before(cfg, input, bounds, n)| + 2 * Shown(cfg, input, bounds, n)
    ensures Shown(cfg, input, bounds, n) == 0 ==> Joined(cfg, input, bounds, n) == Before(cfg, input, bounds, n)
  {
    hide *;
    SettingSorted(cfg, input, deeper);
    if n == 0 {
      NothingBefore(cfg, input, bounds);
    } else {
      var i := n - 1;
      JoinedDiffers(cfg, input, deeper, bounds, i);
      RangeIsSegment(cfg, input, deeper, bounds, i);
      BeforeNext(cfg, input, deeper, bounds, i);
      SegmentDiffers(cfg, input, deeper, bounds, i);
      JoinedNext(cfg, input, bounds, i);
      ShownNext(cfg, input, bounds, i);
      var before := Before(cfg, input, bounds, i);
      var own := RangeOutput(cfg, input, RangeStart(bounds, i), RangeEnd(bounds, i));
      var one := UpTo(cfg, input, SeekCursor(Cut(input, bounds, i)), before == [], Cut(input, bounds, i + 1));
      OneMoreRange(Joined(cfg, input, bounds, i), before, own, one, Shown(cfg, input, bounds, i),
          Shows(cfg, input, bounds, i));
    }
  }

  lemma ShownNext(cfg: Config, input: seq<Record>, bounds: seq<int>, i: nat)
    requires Sorted(input) && i <= |bounds|
    ensures Shown(cfg, input, bounds, i + 1)
         == Shown(cfg, input, bounds, i) + if Shows(cfg, input, bounds, i) then 1 else 0
  {
  }

  lemma OneMoreRange(joined: seq<Record>, before: seq<Record>, own: seq<Record>, one: seq<Record>, shown: nat,
                     shows: bool)
    requires |joined| == |before| + 2 * shown && (shown == 0 ==> joined == before)
    requires |own| == |one| + (if shows then 2 else 0) && (!shows ==> own == one)
    ensures var now := shown + if shows then 1 else 0;
            |joined + own| == |before + one| + 2 * now && (now == 0 ==> joined + own == before + one)
  {
  }

  lemma NothingBefore(cfg: Config, input: seq<Record>, bounds: seq<int>)
    requires Sorted(input)
    ensures Before(cfg, input, bounds, 0) == [] == Joined(cfg, input, bounds, 0) && Shown(cfg, input, bounds, 0) == 0
  {
  }

  /** Main result: the split is invisible exactly if it shows in no range; otherwise each range
      in which it shows has two records more than one run emits there. */
  lemma SplitInvisibleIff(cfg: Config, input: seq<Record>, deeper: seq<Record>, bounds: seq<int>)
    requires Setting(cfg, input, deeper) && Increasing(bounds)
    ensures AllJoined(cfg, input, bounds) == Compacted(cfg, input)
       <==> forall i: nat :: i <= |bounds| ==> !Shows(cfg, input, bounds, i)
    ensures |AllJoined(cfg, input, bounds)| == |Compacted(cfg, input)| + 2 * Shown(cfg, input, bounds, |bounds| + 1)
  {
    SettingSorted(cfg, input, deeper);
    var n := |bounds| + 1;
    hide Setting, UpTo, Increasing, Shows, RangeOutput, Shown, Joined;
    JoinedDiffers(cfg, input, deeper, bounds, n);
    UpToEnd(cfg, input, START, true);
    ShownIff(cfg, input, bounds, n);
  }

  // ---------------------------------------------------------------- the joined output is ordered

  lemma SortedPrefix(a: seq<Record>, b: seq<Record>)
    requires Sorted(a + b)
    ensures Sorted(a)
  {
    forall i, j | 0 <= i < j < |a|
      ensures Precedes(a[i], a[j])
    {
      assert Precedes((a + b)[i], (a + b)[j]);
    }
  }

  lemma SegmentSorted(cfg: Config, input: seq<Record>, deeper: seq<Record>, p: nat, e: nat)
    requires Setting(cfg, input, deeper) && p <= e && Boundary(input, p) && Boundary(input, e)
    ensures Sorted(UpTo(cfg, input, SeekCursor(p), true, e))
  {
    SuffixSetting(cfg, input, deeper, p);
    CompactedIsSorted(cfg, input[p..], deeper);
    CompactedSuffix(cfg, input, p);
    SeekCursorOk(cfg, input, p);
    EndIsBoundary(input);
    hide Setting, CursorOk, Boundary, UpTo, Compacted, Sorted;
    var c := SeekCursor(p);
    UpToSplits(cfg, input, deeper, c, true, e, |input|);
    SortedPrefix(UpTo(cfg, input, c, true, e),
        UpTo(cfg, input, SeekCursor(e), UpTo(cfg, input, c, true, e) == [], |input|));
  }

  predicate AllStem(input: seq<Record>, a: nat, b: nat, rs: seq<Record>)
    requires b <= |input|
  {
    forall i :: 0 <= i < |rs| ==> StemsFrom(input, a, b, rs[i])
  }

  lemma SortedJoin(input: seq<Record>, p: nat, e: nat, xs: seq<Record>, ys: seq<Record>)
    requires Sorted(input) && Boundary(input, p) && p <= e <= |input|
    requires Sorted(xs) && Sorted(ys) && AllStem(input, 0, p, xs) && AllStem(input, p, e, ys)
    ensures Sorted(xs + ys) && AllStem(input, 0, e, xs + ys)
  {
    forall i, j | 0 <= i < j < |xs + ys|
      ensures Precedes((xs + ys)[i], (xs + ys)[j])
    {
      if j < |xs| {
        assert Precedes(xs[i], xs[j]);
      } else if |xs| <= i {
        assert Precedes(ys[i - |xs|], ys[j - |xs|]);
      } else {
        StemsApart(input, p, e, xs[i], ys[j - |xs|]);
      }
    }
    forall i | 0 <= i < |xs + ys|
      ensures StemsFrom(input, 0, e, (xs + ys)[i])
    {
      if i < |xs| {
        assert StemsFrom(input, 0, p, xs[i]);
        var k :| 0 <= k < p && Copies(input[k], xs[i]);
      } else {
        assert StemsFrom(input, p, e, ys[i - |xs|]);
        var k :| p <= k < e && Copies(input[k], ys[i - |xs|]);
      }
    }
  }

  lemma StemsApart(input: seq<Record>, p: nat, e: nat, x: Record, y: Record)
    requires Sorted(input) && Boundary(input, p) && p <= e <= |input| && StemsFrom(input, 0, p, x)
             && StemsFrom(input, p, e, y)
    ensures x.key < y.key
  {
    var k :| 0 <= k < p && Copies(input[k], x);
    var l :| p <= l < e && Copies(input[l], y);
    if k < p - 1 {
      Older(input, k, p - 1);
    }
    if p < l {
      Older(input, p, l);
    }
    Older(input, p - 1, p);
  }

  lemma {:induction false} JoinedSorted(cfg: Config, input: seq<Record>, deeper: seq<Record>, bounds: seq<int>, n: nat)
    requires Setting(cfg, input, deeper) && Increasing(bounds) && n <= |bounds| + 1
    ensures Sorted(input) && Sorted(Joined(cfg, input, bounds, n))
    ensures AllStem(input, 0, Cut(input, bounds, n), Joined(cfg, input, bounds, n))
  {
    hide *;
    SettingSorted(cfg, input, deeper);
    if n == 0 {
      NothingJoined(cfg, input, bounds);
    } else {
      var i := n - 1;
      var p, e := Cut(input, bounds, i), Cut(input, bounds, n);
      CutIsBoundary(input, bounds, i);
      CutIsBoundary(input, bounds, n);
      JoinedSorted(cfg, input, deeper, bounds, i);
      JoinedNext(cfg, input, bounds, i);
      RangeIsSegment(cfg, input, deeper, bounds, i);
      SegmentSorted(cfg, input, deeper, p, e);
      SegmentStems(cfg, input, p, e);
      SortedJoin(input, p, e, Joined(cfg, input, bounds, i), UpTo(cfg, input, SeekCursor(p), true, e));
    }
  }

  lemma NothingJoined(cfg: Config, input: seq<Record>, bounds: seq<int>)
    requires Sorted(input)
    ensures Sorted(Joined(cfg, input, bounds, 0))
    ensures AllStem(input, 0, Cut(input, bounds, 0), Joined(cfg, input, bounds, 0))
  {
  }

  lemma SegmentStems(cfg: Config, input: seq<Record>, p: nat, e: nat)
    requires e <= |input|
    ensures AllStem(input, p, e, UpTo(cfg, input, SeekCursor(p), true, e))
  {
    hide UpTo, StemsFrom;
    var rs := UpTo(cfg, input, SeekCursor(p), true, e);
    forall i | 0 <= i < |rs|
      ensures StemsFrom(input, p, e, rs[i])
    {
      UpToStems(cfg, input, SeekCursor(p), true, e, i);
    }
  }

  /** Main result: the joined outputs are strictly ordered too, and every record of them stems
      from a record of the input. */
  lemma SplitIsSorted(cfg: Config, input: seq<Record>, deeper: seq<Record>, bounds: seq<int>)
    requires Setting(cfg, input, deeper) && Increasing(bounds)
    ensures Sorted(AllJoined(cfg, input, bounds))
    ensures AllStem(input, 0, |input|, AllJoined(cfg, input, bounds))
  {
    JoinedSorted(cfg, input, deeper, bounds, |bounds| + 1);
  }
}
