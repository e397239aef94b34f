/**
  A run of the compaction iterator, cut into segments at places where the user key changes.
  At such a place the iterator remembers nothing but whether it has emitted anything yet.
*/
module CompactionSegments {
  import opened Basics
  import opened Records
  import opened CompactionSpec
  import opened ReadPreservation

  /** A position at which a user key starts, or the end of the input. */
  predicate Boundary(input: seq<Record>, p: nat) {
    p <= |input| && (0 < p < |input| ==> input[p - 1].key != input[p].key)
  }

  /** The memory of an iterator placed at `p` by a seek. */
  function SeekCursor(p: nat): Cursor {
    START.(pos := p)
  }

  /** What is emitted by the turns that start before position `e`. */
  function UpTo(cfg: Config, input: seq<Record>, c: Cursor, first: bool, e: nat): seq<Record>
    requires e <= |input|
    decreases |input| - c.pos
  {
    if c.pos >= e then []
    else
      var t := OneTurn(cfg, input, c);
      Emitted(cfg, t) + UpTo(cfg, input, Moved(t, first), first && t.out.None?, e)
  }

  lemma {:induction false} UpToEnd(cfg: Config, input: seq<Record>, c: Cursor, first: bool)
    ensures UpTo(cfg, input, c, first, |input|) == Outputs(cfg, input, c, first)
    decreases |input| - c.pos
  {
    hide OneTurn;
    if c.pos < |input| {
      var t := OneTurn(cfg, input, c);
      UpToEnd(cfg, input, Moved(t, first), first && t.out.None?);
    }
  }

  /** No turn reaches across a boundary. */
  lemma TurnStays(cfg: Config, input: seq<Record>, c: Cursor, e: nat)
    requires Boundary(input, e) && c.pos < e
    ensures OneTurn(cfg, input, c).next.pos <= e
  {
  }

  /** At a boundary the memory of the iterator does not matter. */
  lemma CursorForgets(cfg: Config, input: seq<Record>, c: Cursor)
    requires CursorOk(cfg, input, c) && Boundary(input, c.pos) && c.pos < |input|
    ensures OneTurn(cfg, input, c) == OneTurn(cfg, input, SeekCursor(c.pos))
  {
  }

  lemma {:induction false} UpToSplits(cfg: Config, input: seq<Record>, deeper: seq<Record>, c: Cursor, first: bool,
                                      m: nat, e: nat)
    requires Setting(cfg, input, deeper) && CursorOk(cfg, input, c) && c.pos <= m <= e <= |input|
    requires Boundary(input, m) && Boundary(input, e)
    ensures UpTo(cfg, input, c, first, e)
         == UpTo(cfg, input, c, first, m)
            + UpTo(cfg, input, SeekCursor(m), first && UpTo(cfg, input, c, first, m) == [], e)
    decreases |input| - c.pos
  {
    hide OneTurn, Setting, CursorOk;
    if c.pos == m {
      if m < e {
        CursorForgets(cfg, input, c);
      }
    } else {
      var t := OneTurn(cfg, input, c);
      TurnKeepsCursor(cfg, input, deeper, c);
      MovedOk(cfg, input, t, first);
      TurnStays(cfg, input, c, m);
      UpToSplits(cfg, input, deeper, Moved(t, first), first && t.out.None?, m, e);
    }
  }

  lemma MovedOk(cfg: Config, input: seq<Record>, t: Turn, first: bool)
    requires CursorOk(cfg, input, t.next)
    ensures CursorOk(cfg, input, Moved(t, first))
  {
  }

  // ---------------------------------------------------------------- where the output stems from

  /** `r` is a record between two positions of the input, up to a number set to zero and a
      value cleared. */
  predicate StemsFrom(input: seq<Record>, a: nat, b: nat, r: Record)
    requires b <= |input|
  {
    exists k :: a <= k < b && Copies(input[k], r)
  }

  predicate Copies(original: Record, r: Record) {
    && r.key == original.key && r.kind == original.kind
    && (r.seqno == original.seqno || r.seqno == 0)
    && (r.value == original.value || r.value == "")
  }

  lemma {:induction false} UpToStems(cfg: Config, input: seq<Record>, c: Cursor, first: bool, e: nat, i: nat)
    requires e <= |input| && i < |UpTo(cfg, input, c, first, e)|
    ensures StemsFrom(input, c.pos, e, UpTo(cfg, input, c, first, e)[i])
    decreases |input| - c.pos
  {
    hide OneTurn;
    var t := OneTurn(cfg, input, c);
    EmittedRecord(cfg, input, c);
    if i < |Emitted(cfg, t)| {
      assert Copies(input[c.pos], Zeroed(cfg, t.out.value));
    } else {
      UpToStems(cfg, input, Moved(t, first), first && t.out.None?, e, i - |Emitted(cfg, t)|);
    }
  }

  // ---------------------------------------------------------------- a suffix of the input

  lemma TurnOfSuffix(cfg: Config, input: seq<Record>, p: nat, c: Cursor)
    requires p <= c.pos < |input|
    ensures var t := OneTurn(cfg, input, c);
            OneTurn(cfg, input[p..], c.(pos := c.pos - p)) == Turn(t.out, t.next.(pos := t.next.pos - p))
  {
  }

  lemma {:induction false} OutputsOfSuffix(cfg: Config, input: seq<Record>, p: nat, c: Cursor, first: bool)
    requires p <= c.pos && p <= |input|
    ensures Outputs(cfg, input[p..], c.(pos := c.pos - p), first) == Outputs(cfg, input, c, first)
    decreases |input| - c.pos
  {
    hide OneTurn;
    if c.pos < |input| {
      TurnOfSuffix(cfg, input, p, c);
      var t := OneTurn(cfg, input, c);
      OutputsOfSuffix(cfg, input, p, Moved(t, first), first && t.out.None?);
    }
  }

  /** Compacting a suffix of the input is running on the whole input from a seek. */
  lemma CompactedSuffix(cfg: Config, input: seq<Record>, p: nat)
    requires p <= |input|
    ensures Compacted(cfg, input[p..]) == UpTo(cfg, input, SeekCursor(p), true, |input|)
  {
    OutputsOfSuffix(cfg, input, p, SeekCursor(p), true);
    UpToEnd(cfg, input, SeekCursor(p), true);
  }

  // ---------------------------------------------------------------- the first record emitted

  /** The position of the first record emitted from a cursor on. */
  function FirstOut(cfg: Config, input: seq<Record>, c: Cursor): (j: nat)
    ensures if c.pos < |input| then c.pos <= j else j == |input|
    decreases |input| - c.pos
  {
    if c.pos >= |input| then |input|
    else if OneTurn(cfg, input, c).out.Some? then c.pos
    else FirstOut(cfg, input, OneTurn(cfg, input, c).next)
  }

  lemma {:induction false} NothingBeforeFirst(cfg: Config, input: seq<Record>, c: Cursor, first: bool, e: nat)
    requires e <= |input|
    ensures UpTo(cfg, input, c, first, e) == [] <==> e <= c.pos || e <= FirstOut(cfg, input, c)
    decreases |input| - c.pos
  {
    hide OneTurn;
    if c.pos < e {
      var t := OneTurn(cfg, input, c);
      if t.out.None? {
        NothingBeforeFirst(cfg, input, t.next, first, e);
      }
    }
  }

  // ---------------------------------------------------------------- what the flag for output does

  /** The single delete at `q` and the put after it go together, unless its key has no output yet. */
  predicate HitAt(cfg: Config, input: seq<Record>, q: nat) {
    && q + 1 < |input| && input[q].kind.SingleDelete? && input[q + 1].key == input[q].key
    && InSameStripe(cfg, input, q) && !input[q + 1].kind.SingleDelete? && input[q].seqno > cfg.writeConflict
  }

  lemma FlagTurn(cfg: Config, input: seq<Record>, d: Cursor)
    requires d.pos < |input| && (HitAt(cfg, input, d.pos) ==> d.clearNext || IsNewKey(input, d))
    ensures var t, t' := OneTurn(cfg, input, d), OneTurn(cfg, input, d.(outputted := true));
            && t'.out == t.out
            && (t'.next == t.next || (!IsNewKey(input, d) && t'.next == t.next.(outputted := true)))
  {
  }

  /** If the next record is emitted in any case, the flag makes no difference. */
  lemma NextEmits(cfg: Config, input: seq<Record>, d: Cursor, e: nat)
    requires e <= |input| && d.pos < |input| && OneTurn(cfg, input, d).out.Some?
    requires HitAt(cfg, input, d.pos) ==> d.clearNext || IsNewKey(input, d)
    ensures UpTo(cfg, input, d.(outputted := true), false, e) == UpTo(cfg, input, d, false, e)
  {
    FlagTurn(cfg, input, d);
  }
}
