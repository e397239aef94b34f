/**
  Compaction preserves reads: for every key and every live snapshot and the tip, reading
  the output and then the deeper levels gives what reading the input and then the deeper
  levels gave.
*/
module ReadPreservation {
  import opened Basics
  import opened Records
  import opened LevelFiles
  import opened CompactionSpec

  /** The situation a compaction runs in. */
  ghost predicate Setting(cfg: Config, input: seq<Record>, deeper: seq<Record>) {
    ConfigOk(cfg) && InputOk(input) && DeeperOk(cfg, input, deeper) && SingleDeletesOk(input, deeper)
  }

  /** The cursor remembers the record before it. */
  predicate CursorOk(cfg: Config, input: seq<Record>, c: Cursor) {
    && c.pos <= |input|
    && (c.hasKey ==>
          && 0 < c.pos && c.key == input[c.pos - 1].key
          && c.snapshot == Stripe(cfg.snapshots, input[c.pos - 1].seqno))
    && (!c.hasKey && 0 < c.pos < |input| ==> input[c.pos].key != input[c.pos - 1].key)
    && (c.clearNext ==>
          && c.hasKey && c.pos < |input| && input[c.pos].key == c.key
          && input[c.pos - 1].kind.SingleDelete? && !input[c.pos].kind.SingleDelete?
          && Stripe(cfg.snapshots, input[c.pos].seqno) == c.snapshot
          && c.snapshot > Earliest(cfg.snapshots))
  }

  /** The cursor stands inside the versions of `key`. */
  predicate Inside(input: seq<Record>, c: Cursor, key: int) {
    c.hasKey && c.key == key && c.pos < |input| && input[c.pos].key == key
  }

  lemma Older(input: seq<Record>, i: nat, j: nat)
    requires Sorted(input) && i < j < |input|
    ensures input[i].key <= input[j].key
    ensures input[i].key == input[j].key ==> input[i].seqno > input[j].seqno
  {
    assert Precedes(input[i], input[j]);
  }

  /** The record after a single delete of its key is no plain delete. */
  lemma NoDeleteFollows(input: seq<Record>, deeper: seq<Record>, p: nat)
    requires SingleDeletesOk(input, deeper) && p < |input| && input[p].kind.SingleDelete? && !LastOfKey(input, p)
    ensures input[p + 1].kind.Put? || input[p + 1].kind.SingleDelete?
  {
    assert !NoSingleDelete(input, input[p].key);
  }

  lemma SingleDeleteStripes(cfg: Config, input: seq<Record>, p: nat)
    requires ConfigOk(cfg) && InputOk(input) && p < |input| && !LastOfKey(input, p)
    ensures var previous := Previous(cfg.snapshots, input[p].seqno);
            (previous == 0 || input[p + 1].seqno > previous) <==>
              Stripe(cfg.snapshots, input[p + 1].seqno) == Stripe(cfg.snapshots, input[p].seqno)
    ensures Stripe(cfg.snapshots, input[p + 1].seqno) <= Stripe(cfg.snapshots, input[p].seqno)
  {
    Older(input, p, p + 1);
    SameStripe(cfg.snapshots, input[p].seqno, input[p + 1].seqno);
    StripeMonotone(cfg.snapshots, input[p + 1].seqno, input[p].seqno);
  }

  /** The cursor behind a turn is in order, whatever the input. */
  lemma CursorStays(cfg: Config, input: seq<Record>, c: Cursor)
    requires ConfigOk(cfg) && InputOk(input) && CursorOk(cfg, input, c) && c.pos < |input|
    ensures var d := OneTurn(cfg, input, c).next;
            CursorOk(cfg, input, d) && (d.pos == c.pos + 1 || d.pos == c.pos + 2)
  {
    var p := c.pos;
    var r := input[p];
    if !c.clearNext && r.kind.SingleDelete? {
      SingleDeleteKeepsCursor(cfg, input, p,
          Cursor(p + 1, true, r.key, Stripe(cfg.snapshots, r.seqno), c.outputted, false));
      SingleDeleteKeepsCursor(cfg, input, p,
          Cursor(p + 1, true, r.key, Stripe(cfg.snapshots, r.seqno), false, false));
    }
  }

  lemma TurnKeepsCursor(cfg: Config, input: seq<Record>, deeper: seq<Record>, c: Cursor)
    requires Setting(cfg, input, deeper) && CursorOk(cfg, input, c) && c.pos < |input|
    ensures var d := OneTurn(cfg, input, c).next;
            CursorOk(cfg, input, d) && (d.pos == c.pos + 1 || d.pos == c.pos + 2)
  {
    hide CursorOk, OneTurn;
    CursorStays(cfg, input, c);
  }

  lemma SingleDeleteKeepsCursor(cfg: Config, input: seq<Record>, p: nat, d: Cursor)
    requires ConfigOk(cfg) && InputOk(input) && p < |input| && input[p].kind.SingleDelete?
    requires d == Cursor(p + 1, true, input[p].key, Stripe(cfg.snapshots, input[p].seqno), d.outputted, false)
    ensures var e := SingleDeleteTurn(cfg, input, p, d).next;
            CursorOk(cfg, input, e) && (e.pos == p + 1 || e.pos == p + 2)
  {
    hide Stripe, Previous, Droppable;
    if !LastOfKey(input, p) {
      SingleDeleteStripes(cfg, input, p);
      StripeMonotone(cfg.snapshots, input[p].seqno, input[p].seqno);
    }
  }

  // ---------------------------------------------------------------- reading a suffix of the input

  lemma GetStep(input: seq<Record>, p: nat, key: int, at: nat)
    requires p < |input|
    ensures Get(input[p..], key, at) ==
            if input[p].key == key && input[p].seqno <= at then Some(input[p]) else Get(input[p + 1..], key, at)
  {
    assert input[p..][0] == input[p] && input[p..][1..] == input[p + 1..];
  }

  /** Behind the last version of a key there is no further one. */
  lemma GetPastKey(input: seq<Record>, p: nat, key: int, at: nat)
    requires Sorted(input) && 0 < p <= |input| && input[p - 1].key == key && LastOfKey(input, p - 1)
    ensures Get(input[p..], key, at) == None
  {
    forall i | 0 <= i < |input[p..]|
      ensures input[p..][i].key != key
    {
      Older(input, p - 1, p);
      if i > 0 {
        Older(input, p, p + i);
      }
    }
    GetAbsent(input[p..], key, at);
  }

  /** The reads the cursor still has to answer: inside a key, the snapshots from the
      remembered stripe on were answered by a newer version. A single delete is looked at
      whatever came before it. */
  predicate Owes(input: seq<Record>, c: Cursor, key: int, at: nat) {
    !(Inside(input, c, key) && at >= c.snapshot && !input[c.pos].kind.SingleDelete?)
  }

  /** All versions of `key` behind the cursor will be dropped as hidden. */
  ghost predicate Buried(cfg: Config, input: seq<Record>, c: Cursor, key: int) {
    && c.hasKey && c.key == key && c.snapshot == Earliest(cfg.snapshots)
    && NoSingleDelete(input, key) && AbsentBelow(cfg.tree, key)
  }

  /** A turn answers a read with the emitted record, or passes it on unchanged. */
  ghost predicate TurnOk(cfg: Config, input: seq<Record>, deeper: seq<Record>, c: Cursor, key: int, at: nat)
    requires c.pos < |input|
  {
    var t := OneTurn(cfg, input, c);
    var now := Read(input[c.pos..], deeper, key, at);
    if t.out.Some? && t.out.value.key == key && Zeroed(cfg, t.out.value).seqno <= at then
      Answer(Some(Zeroed(cfg, t.out.value))) == now
    else
      || (t.next.pos <= |input| && Owes(input, t.next, key, at) && Read(input[t.next.pos..], deeper, key, at) == now)
      || (t.out.None? && now == None && Buried(cfg, input, t.next, key))
  }

  lemma ZeroedVisible(cfg: Config, r: Record, at: nat)
    requires ConfigOk(cfg) && Live(cfg.snapshots, at) && r.seqno <= MAX_SEQUENCE
    ensures Zeroed(cfg, r).seqno <= at <==> r.seqno <= at
    ensures r.seqno <= at <==> Stripe(cfg.snapshots, r.seqno) <= at
    ensures Earliest(cfg.snapshots) <= at
  {
    VisibleIffFromStripe(cfg.snapshots, r.seqno, at);
    StripeMonotone(cfg.snapshots, r.seqno, r.seqno);
    if at in cfg.snapshots {
      var i :| 0 <= i < |cfg.snapshots| && cfg.snapshots[i] == at;
      assert cfg.snapshots[0] <= cfg.snapshots[i];
    }
  }

  lemma NoneBelow(cfg: Config, input: seq<Record>, deeper: seq<Record>, key: int, at: nat)
    requires Setting(cfg, input, deeper) && AbsentBelow(cfg.tree, key)
    ensures Get(deeper, key, at) == None
  {
    GetAbsent(deeper, key, at);
  }

  lemma ClearTurn(cfg: Config, input: seq<Record>, deeper: seq<Record>, c: Cursor, key: int, at: nat)
    requires Setting(cfg, input, deeper) && CursorOk(cfg, input, c) && c.pos < |input| && input[c.pos].key == key
    requires Live(cfg.snapshots, at) && Owes(input, c, key, at) && c.clearNext
    ensures TurnOk(cfg, input, deeper, c, key, at)
  {
    NoDeleteFollows(input, deeper, c.pos - 1);
    GetStep(input, c.pos, key, at);
    ZeroedVisible(cfg, input[c.pos].(value := ""), at);
  }

  /** Puts and plain deletes. */
  lemma PlainTurn(cfg: Config, input: seq<Record>, deeper: seq<Record>, c: Cursor, key: int, at: nat)
    requires Setting(cfg, input, deeper) && CursorOk(cfg, input, c) && c.pos < |input| && input[c.pos].key == key
    requires Live(cfg.snapshots, at) && Owes(input, c, key, at)
    requires !c.clearNext && !input[c.pos].kind.SingleDelete?
    ensures TurnOk(cfg, input, deeper, c, key, at)
  {
    var r := input[c.pos];
    GetStep(input, c.pos, key, at);
    ZeroedVisible(cfg, r, at);
    StripeMonotone(cfg.snapshots, r.seqno, r.seqno);
    if r.kind.Delete? {
      assert !Paired(input, deeper, key);
    }
  }

  /** Beneath a matched pair there is nothing to be read. */
  lemma NothingBeneathPair(cfg: Config, input: seq<Record>, deeper: seq<Record>, p: nat, at: nat)
    requires Setting(cfg, input, deeper) && p + 1 < |input|
    requires input[p].kind.SingleDelete? && input[p + 1].kind.Put? && input[p + 1].key == input[p].key
    requires input[p].seqno <= at
    ensures Read(input[p + 2..], deeper, input[p].key, at) == None
    ensures p + 2 < |input| && input[p + 2].key == input[p].key ==> input[p + 2].kind.SingleDelete?
  {
    var key := input[p].key;
    assert !NoSingleDelete(input, key);
    assert PutOk(input, deeper, p + 1);
    if LastOfKey(input, p + 1) {
      Older(input, p, p + 1);
      assert NothingReadable(deeper, key, input[p + 1].seqno);
      assert Answer(Get(deeper, key, at)) == None;
      GetPastKey(input, p + 2, key, at);
    } else {
      Older(input, p, p + 2);
      GetStep(input, p + 2, key, at);
    }
  }

  /** A single delete with no older version of its key in the input. */
  lemma LoneSingleDeleteOk(cfg: Config, input: seq<Record>, deeper: seq<Record>, c: Cursor, key: int, at: nat)
    requires Setting(cfg, input, deeper) && c.pos < |input| && input[c.pos].key == key
    requires Live(cfg.snapshots, at) && !c.clearNext && input[c.pos].kind.SingleDelete? && LastOfKey(input, c.pos)
    ensures TurnOk(cfg, input, deeper, c, key, at)
  {
    GetStep(input, c.pos, key, at);
    ZeroedVisible(cfg, input[c.pos], at);
    GetPastKey(input, c.pos + 1, key, at);
    if AbsentBelow(cfg.tree, key) {
      NoneBelow(cfg, input, deeper, key, at);
    }
  }

  /** Reads of the key through a single delete and the older version after it. */
  lemma ReadThroughPair(cfg: Config, input: seq<Record>, deeper: seq<Record>, p: nat, at: nat)
    requires Setting(cfg, input, deeper) && p < |input| && Live(cfg.snapshots, at)
    requires input[p].kind.SingleDelete? && !LastOfKey(input, p)
    ensures input[p].seqno <= at <==> Stripe(cfg.snapshots, input[p].seqno) <= at
    ensures var now := Read(input[p..], deeper, input[p].key, at);
            && (input[p].seqno <= at ==> now == None)
            && (input[p].seqno > at ==> Read(input[p + 1..], deeper, input[p].key, at) == now)
            && (InSameStripe(cfg, input, p) && input[p + 1].kind.SingleDelete? ==>
                  Read(input[p + 1..], deeper, input[p].key, at) == now)
            && (InSameStripe(cfg, input, p) && input[p + 1].kind.Put? ==>
                  Read(input[p + 2..], deeper, input[p].key, at) == now)
    ensures input[p + 1].kind.Put? && p + 2 < |input| && input[p + 2].key == input[p].key ==>
              input[p + 2].kind.SingleDelete?
  {
    var key := input[p].key;
    SingleDeleteStripes(cfg, input, p);
    ZeroedVisible(cfg, input[p], at);
    ZeroedVisible(cfg, input[p + 1], at);
    GetStep(input, p, key, at);
    GetStep(input, p + 1, key, at);
    if input[p + 1].kind.Put? {
      NextIsSingleDelete(input, deeper, p + 1);
      if input[p].seqno <= at {
        NothingBeneathPair(cfg, input, deeper, p, at);
      }
    }
  }

  predicate InSameStripe(cfg: Config, input: seq<Record>, p: nat)
    requires p + 1 < |input|
  {
    var previous := Previous(cfg.snapshots, input[p].seqno);
    previous == 0 || input[p + 1].seqno > previous
  }

  lemma PairedSingleDeleteOk(cfg: Config, input: seq<Record>, deeper: seq<Record>, c: Cursor, key: int, at: nat)
    requires Setting(cfg, input, deeper) && c.pos < |input| && input[c.pos].key == key
    requires Live(cfg.snapshots, at) && !c.clearNext && input[c.pos].kind.SingleDelete? && !LastOfKey(input, c.pos)
    ensures TurnOk(cfg, input, deeper, c, key, at)
  {
    hide Stripe, Previous, Get, Droppable;
    ReadThroughPair(cfg, input, deeper, c.pos, at);
    NoDeleteFollows(input, deeper, c.pos);
    ZeroedVisible(cfg, input[c.pos], at);
  }

  lemma NextIsSingleDelete(input: seq<Record>, deeper: seq<Record>, p: nat)
    requires SingleDeletesOk(input, deeper) && 0 < p < |input|
    requires input[p - 1].key == input[p].key && input[p - 1].kind.SingleDelete? && input[p].kind.Put?
    ensures p + 1 < |input| && input[p + 1].key == input[p].key ==> input[p + 1].kind.SingleDelete?
  {
    assert !NoSingleDelete(input, input[p].key);
    assert PutOk(input, deeper, p);
  }

  /** A turn on another key does not touch the read. */
  lemma OtherTurn(cfg: Config, input: seq<Record>, deeper: seq<Record>, c: Cursor, key: int, at: nat)
    requires Setting(cfg, input, deeper) && CursorOk(cfg, input, c) && c.pos < |input| && input[c.pos].key != key
    ensures TurnOk(cfg, input, deeper, c, key, at)
  {
    hide Get, Stripe, Previous, Droppable, SingleDeletesOk;
    TurnKeepsCursor(cfg, input, deeper, c);
    GetStep(input, c.pos, key, at);
    if c.pos + 1 < |input| {
      GetStep(input, c.pos + 1, key, at);
    }
  }

  lemma EveryTurnOk(cfg: Config, input: seq<Record>, deeper: seq<Record>, c: Cursor, key: int, at: nat)
    requires Setting(cfg, input, deeper) && CursorOk(cfg, input, c) && c.pos < |input|
    requires Live(cfg.snapshots, at) && Owes(input, c, key, at)
    ensures TurnOk(cfg, input, deeper, c, key, at)
  {
    if input[c.pos].key != key {
      OtherTurn(cfg, input, deeper, c, key, at);
    } else if c.clearNext {
      ClearTurn(cfg, input, deeper, c, key, at);
    } else if input[c.pos].kind.SingleDelete? {
      if LastOfKey(input, c.pos) {
        LoneSingleDeleteOk(cfg, input, deeper, c, key, at);
      } else {
        PairedSingleDeleteOk(cfg, input, deeper, c, key, at);
      }
    } else {
      PlainTurn(cfg, input, deeper, c, key, at);
    }
  }

  // ---------------------------------------------------------------- reading the output

  lemma {:induction false} BuriedIsGone(cfg: Config, input: seq<Record>, deeper: seq<Record>, c: Cursor, first: bool,
                                        key: int, at: nat)
    requires Setting(cfg, input, deeper) && CursorOk(cfg, input, c) && Buried(cfg, input, c, key) && !c.clearNext
    ensures Get(Outputs(cfg, input, c, first), key, at) == None
    decreases |input| - c.pos
  {
    if c.pos < |input| && input[c.pos].key == key {
      Older(input, c.pos - 1, c.pos);
      StripeMonotone(cfg.snapshots, input[c.pos].seqno, input[c.pos - 1].seqno);
      TurnKeepsCursor(cfg, input, deeper, c);
      var t := OneTurn(cfg, input, c);
      assert Emitted(cfg, t) == [];
      assert Outputs(cfg, input, c, first) == Outputs(cfg, input, t.next, first);
      BuriedIsGone(cfg, input, deeper, t.next, first, key, at);
    } else if c.pos < |input| {
      Older(input, c.pos - 1, c.pos);
      OutputsFromSuffix(cfg, input, deeper, c, first);
      GetAbsent(Outputs(cfg, input, c, first), key, at);
    }
  }

  /** A turn that emits consumes exactly one record, and emits it up to its value. */
  lemma EmittedRecord(cfg: Config, input: seq<Record>, c: Cursor)
    requires c.pos < |input|
    ensures var t := OneTurn(cfg, input, c);
            t.out.Some? ==>
              && t.next.pos == c.pos + 1
              && t.out.value.key == input[c.pos].key && t.out.value.seqno == input[c.pos].seqno
              && t.out.value.kind == input[c.pos].kind
              && (t.out.value.value == input[c.pos].value || (c.clearNext && t.out.value.value == ""))
  {
  }

  predicate KeysFrom(rs: seq<Record>, key: int) {
    forall i :: 0 <= i < |rs| ==> rs[i].key >= key
  }

  /** What is emitted from a cursor on has a key at or behind the cursor. */
  lemma {:induction false} OutputsFromSuffix(cfg: Config, input: seq<Record>, deeper: seq<Record>, c: Cursor,
          first: bool)
    requires Setting(cfg, input, deeper) && CursorOk(cfg, input, c) && c.pos < |input|
    ensures KeysFrom(Outputs(cfg, input, c, first), input[c.pos].key)
    decreases |input| - c.pos
  {
    hide OneTurn;
    TurnKeepsCursor(cfg, input, deeper, c);
    EmittedRecord(cfg, input, c);
    var t := OneTurn(cfg, input, c);
    var d := Moved(t, first);
    var rest := Outputs(cfg, input, d, first && t.out.None?);
    if d.pos < |input| {
      Older(input, c.pos, d.pos);
      OutputsFromSuffix(cfg, input, deeper, d, first && t.out.None?);
    }
    KeysFromGrows(cfg, input[c.pos].key, if d.pos < |input| then input[d.pos].key else input[c.pos].key, t, rest);
  }

  lemma KeysFromGrows(cfg: Config, low: int, mid: int, t: Turn, rest: seq<Record>)
    requires KeysFrom(rest, mid) && low <= mid && (t.out.Some? ==> t.out.value.key >= low)
    ensures KeysFrom(Emitted(cfg, t) + rest, low)
  {
  }

  lemma {:induction false} OutputsRead(cfg: Config, input: seq<Record>, deeper: seq<Record>, c: Cursor, first: bool,
                                       key: int, at: nat)
    requires Setting(cfg, input, deeper) && CursorOk(cfg, input, c)
    requires Live(cfg.snapshots, at) && Owes(input, c, key, at)
    ensures Read(Outputs(cfg, input, c, first), deeper, key, at) == Read(input[c.pos..], deeper, key, at)
    decreases |input| - c.pos
  {
    hide OneTurn, Setting;
    if c.pos < |input| {
      EveryTurnOk(cfg, input, deeper, c, key, at);
      TurnKeepsCursor(cfg, input, deeper, c);
      var t := OneTurn(cfg, input, c);
      var rest := Outputs(cfg, input, Moved(t, first), first && t.out.None?);
      ReadEmitted(cfg, t, rest, deeper, key, at);
      if t.out.Some? && t.out.value.key == key && Zeroed(cfg, t.out.value).seqno <= at {
      } else if Owes(input, t.next, key, at)
          && Read(input[t.next.pos..], deeper, key, at) == Read(input[c.pos..], deeper, key, at) {
        OutputsRead(cfg, input, deeper, Moved(t, first), first && t.out.None?, key, at);
      } else {
        BuriedIsGone(cfg, input, deeper, t.next, first, key, at);
        NoneBelow(cfg, input, deeper, key, at);
      }
    }
  }

  lemma ReadEmitted(cfg: Config, t: Turn, rest: seq<Record>, deeper: seq<Record>, key: int, at: nat)
    ensures Read(Emitted(cfg, t) + rest, deeper, key, at) ==
            if t.out.Some? && t.out.value.key == key && Zeroed(cfg, t.out.value).seqno <= at
            then Answer(Some(Zeroed(cfg, t.out.value))) else Read(rest, deeper, key, at)
  {
    if t.out.Some? {
      assert (Emitted(cfg, t) + rest)[1..] == rest;
    } else {
      assert Emitted(cfg, t) + rest == rest;
    }
  }

  /** Main result: every read at a live snapshot or at the tip survives the compaction. */
  lemma CompactionPreservesReads(cfg: Config, input: seq<Record>, deeper: seq<Record>, key: int, at: nat)
    requires Setting(cfg, input, deeper) && Live(cfg.snapshots, at)
    ensures Read(Compacted(cfg, input), deeper, key, at) == Read(input, deeper, key, at)
  {
    assert input[0..] == input;
    OutputsRead(cfg, input, deeper, START, true, key, at);
  }

  // A snapshot between two puts of a key, and a single delete of the newer one.
  const OVERWRITTEN_CONFIG: Config := Config([1], 10, false, false, 0, Tree([[]], 0, false, false))
  const OVERWRITTEN: seq<Record> :=
    [Record(1, 3, SingleDelete, ""), Record(1, 2, Put, "b"), Record(1, 1, Put, "a")]

  lemma OverwrittenOutput()
    ensures Compacted(OVERWRITTEN_CONFIG, OVERWRITTEN) == [OVERWRITTEN[2]]
  {
    var c := Cursor(2, true, 1, MAX_SEQUENCE, false, false);
    assert OneTurn(OVERWRITTEN_CONFIG, OVERWRITTEN, START) == Turn(None, c);
    var d := Cursor(3, true, 1, 1, false, false);
    assert OneTurn(OVERWRITTEN_CONFIG, OVERWRITTEN, c) == Turn(Some(OVERWRITTEN[2]), d);
    assert Outputs(OVERWRITTEN_CONFIG, OVERWRITTEN, c, true) == [OVERWRITTEN[2]];
  }

  /** The discipline is needed: with two puts before a single delete, the older value comes back. */
  lemma OverwrittenPutReturns()
    ensures ConfigOk(OVERWRITTEN_CONFIG) && InputOk(OVERWRITTEN) && DeeperOk(OVERWRITTEN_CONFIG, OVERWRITTEN, [])
    ensures !SingleDeletesOk(OVERWRITTEN, [])
    ensures Read(OVERWRITTEN, [], 1, MAX_SEQUENCE) == None
    ensures Read(Compacted(OVERWRITTEN_CONFIG, OVERWRITTEN), [], 1, MAX_SEQUENCE) == Some("a")
  {
    OverwrittenOutput();
    assert OVERWRITTEN[0].kind.SingleDelete? && !NoSingleDelete(OVERWRITTEN, 1);
    assert !PutOk(OVERWRITTEN, [], 1);
    assert !Paired(OVERWRITTEN, [], 1);
  }
}
