/**
  The output of a compaction is strictly ordered, although sequence numbers are zeroed, and
  every record of it stems from a record of the input.
*/
module OutputOrder {
  import opened Basics
  import opened Records
  import opened CompactionSpec
  import opened ReadPreservation
  import opened CompactionSegments

  predicate AllBehind(prev: Record, rs: seq<Record>) {
    forall i :: 0 <= i < |rs| ==> Precedes(prev, rs[i])
  }

  lemma {:induction false} OutputsBehind(cfg: Config, input: seq<Record>, deeper: seq<Record>, c: Cursor, first: bool)
    requires Setting(cfg, input, deeper) && CursorOk(cfg, input, c) && 0 < c.pos
    ensures AllBehind(input[c.pos - 1], Outputs(cfg, input, c, first))
    decreases |input| - c.pos
  {
    hide OneTurn;
    if c.pos < |input| {
      TurnKeepsCursor(cfg, input, deeper, c);
      EmittedRecord(cfg, input, c);
      var t := OneTurn(cfg, input, c);
      var rest := Outputs(cfg, input, Moved(t, first), first && t.out.None?);
      OutputsBehind(cfg, input, deeper, Moved(t, first), first && t.out.None?);
      Older(input, c.pos - 1, c.pos);
      Older(input, c.pos - 1, t.next.pos - 1);
      BehindGrows(cfg, input[c.pos - 1], input[t.next.pos - 1], t, rest);
    }
  }

  lemma BehindGrows(cfg: Config, prev: Record, mid: Record, t: Turn, rest: seq<Record>)
    requires AllBehind(mid, rest) && Precedes(prev, mid)
    requires t.out.Some? ==> Precedes(prev, t.out.value)
    ensures AllBehind(prev, Emitted(cfg, t) + rest)
  {
    assert forall i :: 0 <= i < |rest| ==> Precedes(mid, rest[i]);
  }

  /** The versions of the current key still to come are in the earliest stripe of the
      bottommost level. */
  ghost predicate Settled(cfg: Config, input: seq<Record>, c: Cursor) {
    && cfg.compacting && cfg.tree.bottommost && c.hasKey && c.snapshot == Earliest(cfg.snapshots)
  }

  /** Such versions are never emitted. */
  lemma SettledTurn(cfg: Config, input: seq<Record>, deeper: seq<Record>, c: Cursor)
    requires Setting(cfg, input, deeper) && CursorOk(cfg, input, c) && Settled(cfg, input, c)
    requires c.pos < |input| && input[c.pos].key == c.key
    ensures var t := OneTurn(cfg, input, c);
            t.out.None? && (t.next.pos < |input| && input[t.next.pos].key == c.key ==>
                Settled(cfg, input, t.next) && t.next.key == c.key)
  {
    var r := input[c.pos];
    Older(input, c.pos - 1, c.pos);
    StripeMonotone(cfg.snapshots, r.seqno, input[c.pos - 1].seqno);
    if r.kind.SingleDelete? && !LastOfKey(input, c.pos) {
      Older(input, c.pos, c.pos + 1);
      SameStripe(cfg.snapshots, r.seqno, r.seqno);
    }
  }

  lemma {:induction false} SettledIsGone(cfg: Config, input: seq<Record>, deeper: seq<Record>, c: Cursor, first: bool)
    requires Setting(cfg, input, deeper) && CursorOk(cfg, input, c) && Settled(cfg, input, c)
    ensures KeysFrom(Outputs(cfg, input, c, first), c.key + 1)
    decreases |input| - c.pos
  {
    hide OneTurn;
    if c.pos < |input| {
      Older(input, c.pos - 1, c.pos);
      if input[c.pos].key == c.key {
        SettledTurn(cfg, input, deeper, c);
        TurnKeepsCursor(cfg, input, deeper, c);
        var t := OneTurn(cfg, input, c);
        assert Emitted(cfg, t) == [];
        assert Outputs(cfg, input, c, first) == Outputs(cfg, input, t.next, first);
        if t.next.pos < |input| && input[t.next.pos].key == c.key {
          SettledIsGone(cfg, input, deeper, t.next, first);
        } else if t.next.pos < |input| {
          Older(input, c.pos, t.next.pos);
          OutputsFromSuffix(cfg, input, deeper, t.next, first);
        }
      } else {
        OutputsFromSuffix(cfg, input, deeper, c, first);
      }
    }
  }

  lemma SortedCons(z: Record, rest: seq<Record>)
    requires Sorted(rest) && AllBehind(z, rest)
    ensures Sorted([z] + rest)
  {
    forall i, j | 0 <= i < j < |[z] + rest|
      ensures Precedes(([z] + rest)[i], ([z] + rest)[j])
    {
      if i > 0 {
        assert Precedes(rest[i - 1], rest[j - 1]);
      }
    }
  }

  lemma {:induction false} OutputsSorted(cfg: Config, input: seq<Record>, deeper: seq<Record>, c: Cursor, first: bool)
    requires Setting(cfg, input, deeper) && CursorOk(cfg, input, c)
    ensures Sorted(Outputs(cfg, input, c, first))
    decreases |input| - c.pos
  {
    hide OneTurn;
    if c.pos < |input| {
      TurnKeepsCursor(cfg, input, deeper, c);
      EmittedRecord(cfg, input, c);
      var t := OneTurn(cfg, input, c);
      var d := Moved(t, first);
      var rest := Outputs(cfg, input, d, first && t.out.None?);
      OutputsSorted(cfg, input, deeper, d, first && t.out.None?);
      if t.out.Some? {
        OutputsBehind(cfg, input, deeper, d, false);
        EmittedBehind(cfg, input, deeper, c, first);
        SortedCons(Zeroed(cfg, t.out.value), rest);
      } else {
        assert Emitted(cfg, t) + rest == rest;
      }
    }
  }

  /** Also a record whose number became zero precedes everything emitted after it. */
  lemma EmittedBehind(cfg: Config, input: seq<Record>, deeper: seq<Record>, c: Cursor, first: bool)
    requires Setting(cfg, input, deeper) && CursorOk(cfg, input, c) && c.pos < |input|
    requires OneTurn(cfg, input, c).out.Some?
    ensures var t := OneTurn(cfg, input, c);
            AllBehind(Zeroed(cfg, t.out.value), Outputs(cfg, input, Moved(t, first), false))
  {
    TurnKeepsCursor(cfg, input, deeper, c);
    EmittedRecord(cfg, input, c);
    var t := OneTurn(cfg, input, c);
    var d := Moved(t, first);
    OutputsBehind(cfg, input, deeper, d, false);
    if Zeroed(cfg, t.out.value) != t.out.value {
      StripeMonotone(cfg.snapshots, input[c.pos].seqno, input[c.pos].seqno);
      if d.hasKey {
        SettledIsGone(cfg, input, deeper, d, false);
      } else if d.pos < |input| {
        Older(input, c.pos, d.pos);
        OutputsFromSuffix(cfg, input, deeper, d, false);
      }
    }
  }

  /** At the bottommost level no tombstone outlives the earliest snapshot. */
  lemma TombstoneDropped(cfg: Config, input: seq<Record>, deeper: seq<Record>, c: Cursor)
    requires Setting(cfg, input, deeper) && CursorOk(cfg, input, c) && c.pos < |input| && !c.clearNext
    requires cfg.compacting && cfg.tree.bottommost && input[c.pos].seqno <= Earliest(cfg.snapshots)
    requires !input[c.pos].kind.Put?
    ensures OneTurn(cfg, input, c).out.None?
  {
    var r := input[c.pos];
    if r.kind.SingleDelete? && !LastOfKey(input, c.pos) {
      SameStripe(cfg.snapshots, r.seqno, r.seqno);
    }
  }

  /** The record whose value is cleared is a put, as the code asserts. */
  lemma ClearedIsPut(cfg: Config, input: seq<Record>, deeper: seq<Record>, c: Cursor)
    requires Setting(cfg, input, deeper) && CursorOk(cfg, input, c) && c.clearNext
    ensures input[c.pos].kind.Put?
  {
    NoDeleteFollows(input, deeper, c.pos - 1);
  }

  /** A record whose number becomes zero is never a tombstone, as the code asserts. */
  lemma ZeroedIsPut(cfg: Config, input: seq<Record>, deeper: seq<Record>, c: Cursor)
    requires Setting(cfg, input, deeper) && CursorOk(cfg, input, c) && c.pos < |input|
    requires OneTurn(cfg, input, c).out.Some?
    requires var r := OneTurn(cfg, input, c).out.value; Zeroed(cfg, r) != r
    ensures OneTurn(cfg, input, c).out.value.kind.Put?
  {
    hide OneTurn;
    EmittedRecord(cfg, input, c);
    if c.clearNext {
      ClearedIsPut(cfg, input, deeper, c);
    } else if !input[c.pos].kind.Put? {
      TombstoneDropped(cfg, input, deeper, c);
    }
  }

  /** Main result: the output is strictly ordered by user key and sequence number. */
  lemma CompactedIsSorted(cfg: Config, input: seq<Record>, deeper: seq<Record>)
    requires Setting(cfg, input, deeper)
    ensures Sorted(Compacted(cfg, input))
  {
    OutputsSorted(cfg, input, deeper, START, true);
  }

  /** Every record of the output is a record of the input, up to a sequence number set to zero
      and a value cleared. */
  lemma OutputStems(cfg: Config, input: seq<Record>, i: nat)
    requires i < |Compacted(cfg, input)|
    ensures StemsFrom(input, 0, |input|, Compacted(cfg, input)[i])
  {
    UpToEnd(cfg, input, START, true);
    UpToStems(cfg, input, START, true, |input|, i);
  }
}
