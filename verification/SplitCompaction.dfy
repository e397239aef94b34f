/**
  Splitting a compaction into key ranges. Each range seeks its own iterator to the range's
  start and stops at the first record at or beyond its end. For inputs of puts and deletes
  the joined outputs are exactly the output of one run; with single deletes they may differ
  record by record, but every read is still preserved; module SplitVisibility says exactly
  when they differ.
*/
module SplitCompaction {
  import opened Basics
  import opened Records
  import opened LevelFiles
  import opened CompactionSpec
  import opened ReadPreservation
  import opened OutputOrder
  import opened RecordFates

  // ---------------------------------------------------------------- what a plain run keeps

  predicate Plain(input: seq<Record>) {
    forall i :: 0 <= i < |input| ==> !input[i].kind.SingleDelete?
  }

  /** A record is the newest of its key in its snapshot stripe. */
  predicate Newest(cfg: Config, input: seq<Record>, i: nat)
    requires i < |input|
  {
    || i == 0
    || input[i - 1].key != input[i].key
    || Stripe(cfg.snapshots, input[i - 1].seqno) != Stripe(cfg.snapshots, input[i].seqno)
  }

  /** The declarative rule for puts and deletes: keep the newest version of each stripe,
      unless it is an obsolete tombstone. */
  predicate Kept(cfg: Config, input: seq<Record>, i: nat)
    requires i < |input|
  {
    Newest(cfg, input, i) && !(input[i].kind.Delete? && Obsolete(cfg, input[i]))
  }

  function KeptBetween(cfg: Config, input: seq<Record>, a: nat, b: nat): seq<Record>
    requires a <= b <= |input|
    decreases b - a
  {
    if a == b then []
    else (if Kept(cfg, input, a) then [Zeroed(cfg, input[a])] else []) + KeptBetween(cfg, input, a + 1, b)
  }

  lemma PlainTurnKeeps(cfg: Config, input: seq<Record>, c: Cursor)
    requires ConfigOk(cfg) && InputOk(input) && Plain(input) && CursorOk(cfg, input, c) && !c.clearNext
             && c.pos < |input|
    ensures var t := OneTurn(cfg, input, c);
            && CursorOk(cfg, input, t.next) && !t.next.clearNext && t.next.pos == c.pos + 1
            && t.out == if Kept(cfg, input, c.pos) then Some(input[c.pos]) else None
  {
    StripeMonotone(cfg.snapshots, input[c.pos].seqno, input[c.pos].seqno);
    ObsoleteIsDroppable(cfg, input[c.pos]);
    hide Obsolete, Droppable;
  }

  lemma {:induction false} PlainOutputs(cfg: Config, input: seq<Record>, c: Cursor, first: bool)
    requires ConfigOk(cfg) && InputOk(input) && Plain(input) && CursorOk(cfg, input, c) && !c.clearNext
    ensures Outputs(cfg, input, c, first) == KeptBetween(cfg, input, c.pos, |input|)
    decreases |input| - c.pos
  {
    if c.pos < |input| {
      PlainTurnKeeps(cfg, input, c);
      var t := OneTurn(cfg, input, c);
      PlainOutputs(cfg, input, Moved(t, first), first && t.out.None?);
    }
  }

  /** The loop over the input computes the declarative rule. */
  lemma PlainCompaction(cfg: Config, input: seq<Record>)
    requires ConfigOk(cfg) && InputOk(input) && Plain(input)
    ensures Compacted(cfg, input) == KeptBetween(cfg, input, 0, |input|)
  {
    PlainOutputs(cfg, input, START, true);
  }

  lemma {:induction false} KeptSplits(cfg: Config, input: seq<Record>, a: nat, b: nat, c: nat)
    requires a <= b <= c <= |input|
    ensures KeptBetween(cfg, input, a, c) == KeptBetween(cfg, input, a, b) + KeptBetween(cfg, input, b, c)
    decreases b - a
  {
    if a < b {
      KeptSplits(cfg, input, a + 1, b, c);
    }
  }

  // ---------------------------------------------------------------- ranges

  /** `Seek` on a user key: the position of the first record at or behind it. */
  function SeekTo(input: seq<Record>, start: Option<int>): (p: nat)
    requires Sorted(input)
    ensures p <= |input|
    ensures start.None? ==> p == 0
    ensures start.Some? ==> forall i :: 0 <= i < |input| ==> (i >= p <==> input[i].key >= start.value)
  {
    if start.None? || input == [] || input[0].key >= start.value then
      assert forall i :: 0 < i < |input| ==> Precedes(input[0], input[i]);
      0
    else
      SortedTail(input);
      assert forall i :: 0 < i < |input| ==> input[i] == input[1..][i - 1];
      1 + SeekTo(input[1..], start)
  }

  lemma SortedTail(rs: seq<Record>)
    requires Sorted(rs) && rs != []
    ensures Sorted(rs[1..])
  {
    SortedFrom(rs, 1);
  }

  lemma SortedFrom(rs: seq<Record>, p: nat)
    requires Sorted(rs) && p <= |rs|
    ensures Sorted(rs[p..])
  {
    forall i, j | 0 <= i < j < |rs[p..]|
      ensures Precedes(rs[p..][i], rs[p..][j])
    {
      assert Precedes(rs[p + i], rs[p + j]);
    }
  }

  lemma InputSorted(input: seq<Record>)
    requires InputOk(input)
    ensures Sorted(input)
  {
  }

  predicate BelowEnd(key: int, end: Option<int>) {
    end.Some? ==> key < end.value
  }

  /** The records taken before the first one at or beyond the end. */
  function TakeBelow(rs: seq<Record>, end: Option<int>): seq<Record> {
    if rs == [] || !BelowEnd(rs[0].key, end) then [] else [rs[0]] + TakeBelow(rs[1..], end)
  }

  /** What the subcompaction of one range writes. */
  function RangeOutput(cfg: Config, input: seq<Record>, start: Option<int>, end: Option<int>): seq<Record>
    requires Sorted(input)
  {
    TakeBelow(Compacted(cfg, input[SeekTo(input, start)..]), end)
  }

  predicate Increasing(bounds: seq<int>) {
    forall i, j :: 0 <= i < j < |bounds| ==> bounds[i] < bounds[j]
  }

  function RangeStart(bounds: seq<int>, i: nat): Option<int>
    requires i <= |bounds|
  {
    if i == 0 then None else Some(bounds[i - 1])
  }

  function RangeEnd(bounds: seq<int>, i: nat): Option<int>
    requires i <= |bounds|
  {
    if i == |bounds| then None else Some(bounds[i])
  }

  predicate InRangeOf(bounds: seq<int>, i: nat, key: int)
    requires i <= |bounds|
  {
    (i > 0 ==> bounds[i - 1] <= key) && BelowEnd(key, RangeEnd(bounds, i))
  }

  /** The ranges between increasing boundaries partition all user keys. */
  lemma RangesPartition(bounds: seq<int>, key: int) returns (i: nat)
    requires Increasing(bounds)
    ensures i <= |bounds| && InRangeOf(bounds, i, key)
    ensures forall j: nat :: j <= |bounds| && InRangeOf(bounds, j, key) ==> j == i
  {
    i := 0;
    while i < |bounds| && bounds[i] <= key
      invariant i <= |bounds| && (i > 0 ==> bounds[i - 1] <= key)
    {
      i := i + 1;
    }
    forall j: nat | j <= |bounds| && InRangeOf(bounds, j, key)
      ensures j == i
    {
    }
  }

  lemma InOneRange(bounds: seq<int>, i: nat, j: nat, key: int)
    requires Increasing(bounds) && i <= |bounds| && j <= |bounds| && InRangeOf(bounds, j, key)
    ensures InRangeOf(bounds, i, key) <==> i == j
  {
  }

  /** The outputs of the first `n` ranges, one after the other. */
  function Joined(cfg: Config, input: seq<Record>, bounds: seq<int>, n: nat): seq<Record>
    requires Sorted(input) && n <= |bounds| + 1
  {
    if n == 0 then []
    else Joined(cfg, input, bounds, n - 1) + RangeOutput(cfg, input, RangeStart(bounds, n - 1), RangeEnd(bounds, n - 1))
  }

  lemma JoinedNext(cfg: Config, input: seq<Record>, bounds: seq<int>, i: nat)
    requires Sorted(input) && i <= |bounds|
    ensures Joined(cfg, input, bounds, i + 1)
         == Joined(cfg, input, bounds, i) + RangeOutput(cfg, input, RangeStart(bounds, i), RangeEnd(bounds, i))
  {
  }

  /** The outputs of all ranges. */
  function AllJoined(cfg: Config, input: seq<Record>, bounds: seq<int>): seq<Record>
    requires Sorted(input)
  {
    Joined(cfg, input, bounds, |bounds| + 1)
  }

  // ---------------------------------------------------------------- plain inputs

  lemma {:induction false} KeptOfSuffix(cfg: Config, input: seq<Record>, p: nat, a: nat)
    requires p <= a <= |input| && (p == 0 || p == |input| || input[p - 1].key != input[p].key)
    ensures KeptBetween(cfg, input[p..], a - p, |input| - p) == KeptBetween(cfg, input, a, |input|)
    decreases |input| - a
  {
    if a < |input| {
      KeptOfSuffix(cfg, input, p, a + 1);
    }
  }

  lemma ZeroedKey(cfg: Config, r: Record)
    ensures Zeroed(cfg, r).key == r.key
  {
  }

  lemma {:induction false} TakeKept(cfg: Config, input: seq<Record>, a: nat, end: Option<int>)
    requires Sorted(input) && a <= |input|
    ensures var b := if end.None? then |input| else SeekTo(input, end);
            a <= b ==> TakeBelow(KeptBetween(cfg, input, a, |input|), end) == KeptBetween(cfg, input, a, b)
    ensures end.Some? && a >= SeekTo(input, end) ==> TakeBelow(KeptBetween(cfg, input, a, |input|), end) == []
    decreases |input| - a
  {
    hide Kept, Zeroed;
    if a < |input| {
      TakeKept(cfg, input, a + 1, end);
      ZeroedKey(cfg, input[a]);
      var rest := KeptBetween(cfg, input, a + 1, |input|);
      if Kept(cfg, input, a) {
        var z := Zeroed(cfg, input[a]);
        assert ([z] + rest)[0] == z && ([z] + rest)[1..] == rest;
      } else {
        assert [] + rest == rest;
      }
    }
  }

  lemma PlainRange(cfg: Config, input: seq<Record>, start: Option<int>, end: Option<int>)
    requires ConfigOk(cfg) && InputOk(input) && Plain(input)
    ensures var a, b := SeekTo(input, start), if end.None? then |input| else SeekTo(input, end);
            a <= b ==> RangeOutput(cfg, input, start, end) == KeptBetween(cfg, input, a, b)
  {
    var a := SeekTo(input, start);
    var suffix := input[a..];
    SortedFrom(input, a);
    PlainCompaction(cfg, suffix);
    KeptOfSuffix(cfg, input, a, a);
    TakeKept(cfg, input, a, end);
  }

  /** The position where range `n` starts, or the end of the input behind the last one. */
  function Cut(input: seq<Record>, bounds: seq<int>, n: nat): (p: nat)
    requires Sorted(input) && n <= |bounds| + 1
    ensures p <= |input|
  {
    if n <= |bounds| then SeekTo(input, RangeStart(bounds, n)) else |input|
  }

  lemma CutMonotone(input: seq<Record>, bounds: seq<int>, n: nat)
    requires Sorted(input) && Increasing(bounds) && n <= |bounds|
    ensures Cut(input, bounds, n) <= Cut(input, bounds, n + 1)
  {
    if 0 < n < |bounds| {
      var b := Cut(input, bounds, n + 1);
      assert bounds[n - 1] < bounds[n];
      if b < |input| {
        assert input[b].key >= bounds[n];
      }
    }
  }

  lemma NothingKept(cfg: Config, input: seq<Record>, bounds: seq<int>)
    requires Sorted(input)
    ensures Cut(input, bounds, 0) == 0 && KeptBetween(cfg, input, 0, 0) == [] && Joined(cfg, input, bounds, 0) == []
  {
  }

  lemma PlainSegment(cfg: Config, input: seq<Record>, bounds: seq<int>, i: nat)
    requires ConfigOk(cfg) && InputOk(input) && Plain(input) && Increasing(bounds) && i <= |bounds|
    requires Cut(input, bounds, i) <= Cut(input, bounds, i + 1)
    ensures RangeOutput(cfg, input, RangeStart(bounds, i), RangeEnd(bounds, i))
         == KeptBetween(cfg, input, Cut(input, bounds, i), Cut(input, bounds, i + 1))
  {
    hide RangeOutput, SeekTo, KeptBetween, Increasing, Plain, ConfigOk;
    PlainRange(cfg, input, RangeStart(bounds, i), RangeEnd(bounds, i));
  }

  lemma {:induction false} PlainJoined(cfg: Config, input: seq<Record>, bounds: seq<int>, n: nat)
    requires ConfigOk(cfg) && InputOk(input) && Plain(input) && Increasing(bounds) && n <= |bounds| + 1
    ensures Joined(cfg, input, bounds, n) == KeptBetween(cfg, input, 0, Cut(input, bounds, n))
  {
    hide *;
    InputSorted(input);
    if n == 0 {
      NothingKept(cfg, input, bounds);
    } else {
      PlainJoined(cfg, input, bounds, n - 1);
      CutMonotone(input, bounds, n - 1);
      PlainSegment(cfg, input, bounds, n - 1);
      JoinedNext(cfg, input, bounds, n - 1);
      KeptSplits(cfg, input, 0, Cut(input, bounds, n - 1), Cut(input, bounds, n));
    }
  }

  /** Main result: for puts and deletes the split is invisible in the output. */
  lemma SplitIsInvisible(cfg: Config, input: seq<Record>, bounds: seq<int>)
    requires ConfigOk(cfg) && InputOk(input) && Plain(input) && Increasing(bounds)
    ensures AllJoined(cfg, input, bounds) == Compacted(cfg, input)
  {
    PlainJoined(cfg, input, bounds, |bounds| + 1);
    PlainCompaction(cfg, input);
  }

  // ---------------------------------------------------------------- inputs with single deletes

  /** A suffix that starts at a user-key boundary is a setting of its own. */
  lemma SuffixSetting(cfg: Config, input: seq<Record>, deeper: seq<Record>, p: nat)
    requires Setting(cfg, input, deeper) && p <= |input|
    ensures Setting(cfg, input[p..], deeper)
  {
    var suffix := input[p..];
    SortedFrom(input, p);
    forall key
      ensures NoSingleDelete(suffix, key) || Paired(suffix, deeper, key)
    {
      SuffixPaired(input, deeper, p, key);
    }
  }

  lemma SuffixPaired(input: seq<Record>, deeper: seq<Record>, p: nat, key: int)
    requires p <= |input| && (NoSingleDelete(input, key) || Paired(input, deeper, key))
    ensures NoSingleDelete(input[p..], key) || Paired(input[p..], deeper, key)
  {
    var suffix := input[p..];
    if Paired(input, deeper, key) {
      forall i: nat | i < |suffix| && suffix[i].key == key
        ensures PutOk(suffix, deeper, i)
      {
        assert PutOk(input, deeper, p + i);
        assert LastOfKey(input, p + i) == LastOfKey(suffix, i);
      }
    }
  }

  lemma {:induction false} TakeBelowGet(rs: seq<Record>, end: Option<int>, key: int, at: nat)
    requires Sorted(rs)
    ensures Get(TakeBelow(rs, end), key, at) == if BelowEnd(key, end) then Get(rs, key, at) else None
  {
    if rs != [] && BelowEnd(rs[0].key, end) {
      SortedTail(rs);
      TakeBelowGet(rs[1..], end, key, at);
    } else if rs != [] {
      forall i | 0 <= i < |rs|
        ensures rs[i].key >= rs[0].key
      {
        if i > 0 {
          assert Precedes(rs[0], rs[i]);
        }
      }
      if BelowEnd(key, end) {
        GetAbsent(rs, key, at);
      }
    }
  }

  /** What one range writes answers exactly the reads of its own keys. */
  lemma RangeGet(cfg: Config, input: seq<Record>, deeper: seq<Record>, bounds: seq<int>, i: nat, key: int, at: nat)
    requires Setting(cfg, input, deeper) && i <= |bounds|
    ensures var p := SeekTo(input, RangeStart(bounds, i));
            Get(RangeOutput(cfg, input, RangeStart(bounds, i), RangeEnd(bounds, i)), key, at) ==
            if InRangeOf(bounds, i, key) then Get(Compacted(cfg, input[p..]), key, at) else None
  {
    var p := SeekTo(input, RangeStart(bounds, i));
    var suffix := input[p..];
    SuffixSetting(cfg, input, deeper, p);
    CompactedIsSorted(cfg, suffix, deeper);
    TakeBelowGet(Compacted(cfg, suffix), RangeEnd(bounds, i), key, at);
    if i > 0 && key < bounds[i - 1] && suffix != [] {
      OutputsFromSuffix(cfg, suffix, deeper, START, true);
      GetAbsent(Compacted(cfg, suffix), key, at);
    }
  }

  lemma {:induction false} JoinedGet(cfg: Config, input: seq<Record>, deeper: seq<Record>, bounds: seq<int>, n: nat,
                                     j: nat, key: int, at: nat)
    requires Setting(cfg, input, deeper) && Increasing(bounds) && n <= |bounds| + 1 && j <= |bounds|
             && InRangeOf(bounds, j, key)
    ensures Get(Joined(cfg, input, bounds, n), key, at) ==
            if j < n then Get(Compacted(cfg, input[SeekTo(input, RangeStart(bounds, j))..]), key, at) else None
  {
    hide Compacted, Setting, SeekTo, TakeBelow, RangeOutput, Increasing, InRangeOf, Get, Sorted;
    SettingSorted(cfg, input, deeper);
    NothingToGet(key, at);
    if n > 0 {
      InOneRange(bounds, n - 1, j, key);
      RangeGet(cfg, input, deeper, bounds, n - 1, key, at);
      JoinedGet(cfg, input, deeper, bounds, n - 1, j, key, at);
      GetConcat(Joined(cfg, input, bounds, n - 1),
                RangeOutput(cfg, input, RangeStart(bounds, n - 1), RangeEnd(bounds, n - 1)), key, at);
    }
  }

  lemma SettingSorted(cfg: Config, input: seq<Record>, deeper: seq<Record>)
    requires Setting(cfg, input, deeper)
    ensures Sorted(input)
  {
  }

  lemma NothingToGet(key: int, at: nat)
    ensures Get([], key, at) == None
  {
  }

  lemma {:induction false} GetFromSeek(input: seq<Record>, p: nat, key: int, at: nat)
    requires p <= |input| && forall i :: 0 <= i < p ==> input[i].key != key
    ensures Get(input[p..], key, at) == Get(input, key, at)
  {
    GetAbsent(input[..p], key, at);
    assert input == input[..p] + input[p..];
    GetConcat(input[..p], input[p..], key, at);
  }

  /** Main result: with single deletes too, reading the joined outputs of the ranges gives
      what reading the input gave, at every live snapshot and at the tip. */
  lemma SplitPreservesReads(cfg: Config, input: seq<Record>, deeper: seq<Record>, bounds: seq<int>, key: int, at: nat)
    requires Setting(cfg, input, deeper) && Increasing(bounds) && Live(cfg.snapshots, at)
    ensures Read(AllJoined(cfg, input, bounds), deeper, key, at) == Read(input, deeper, key, at)
  {
    hide Compacted;
    var j := RangesPartition(bounds, key);
    JoinedGet(cfg, input, deeper, bounds, |bounds| + 1, j, key, at);
    var p := SeekTo(input, RangeStart(bounds, j));
    SuffixSetting(cfg, input, deeper, p);
    CompactionPreservesReads(cfg, input[p..], deeper, key, at);
    GetFromSeek(input, p, key, at);
  }

  // Two snapshots; key 2 has a newer put, and below it a single delete and its put.
  const SPLIT_CONFIG: Config := Config([10, 20], 10, false, false, 0, Tree([[]], 0, false, false))
  const SPLIT_INPUT: seq<Record> :=
    [Record(1, 5, Put, "a"), Record(2, 25, Put, "c"), Record(2, 15, SingleDelete, ""), Record(2, 12, Put, "b")]
  const SPLIT_BOUNDS: seq<int> := [2]

  lemma SplitExampleSetting()
    ensures Setting(SPLIT_CONFIG, SPLIT_INPUT, [])
  {
    assert NothingReadable([], 2, 12) by {
      forall at: nat
        ensures Answer(Get([], 2, at)) == None
      {
        NothingToGet(2, at);
      }
    }
    assert Paired(SPLIT_INPUT, [], 2);
  }

  lemma SplitExampleWhole()
    ensures Compacted(SPLIT_CONFIG, SPLIT_INPUT) == SPLIT_INPUT[..2]
  {
    var a := Cursor(1, true, 1, 10, false, false);
    assert OneTurn(SPLIT_CONFIG, SPLIT_INPUT, START) == Turn(Some(SPLIT_INPUT[0]), a);
    var b := Cursor(2, true, 2, MAX_SEQUENCE, false, false);
    assert OneTurn(SPLIT_CONFIG, SPLIT_INPUT, a) == Turn(Some(SPLIT_INPUT[1]), b);
    var c := b.(outputted := true);
    assert OneTurn(SPLIT_CONFIG, SPLIT_INPUT, c) == Turn(None, Cursor(4, true, 2, 20, true, false));
  }

  lemma SplitExampleRange(suffix: seq<Record>)
    requires suffix == SPLIT_INPUT[1..]
    ensures Compacted(SPLIT_CONFIG, suffix) == [SPLIT_INPUT[1], SPLIT_INPUT[2], Record(2, 12, Put, "")]
  {
    var b := Cursor(1, true, 2, MAX_SEQUENCE, false, false);
    assert OneTurn(SPLIT_CONFIG, suffix, START) == Turn(Some(suffix[0]), b);
    var c := Cursor(2, true, 2, 20, false, true);
    assert OneTurn(SPLIT_CONFIG, suffix, b) == Turn(Some(suffix[1]), c);
    var d := c.(outputted := true);
    assert OneTurn(SPLIT_CONFIG, suffix, d) == Turn(Some(Record(2, 12, Put, "")), Cursor(3, true, 2, 20, true, false));
    assert Outputs(SPLIT_CONFIG, suffix, d, false) == [Record(2, 12, Put, "")];
    assert Outputs(SPLIT_CONFIG, suffix, b, false) == [suffix[1]] + Outputs(SPLIT_CONFIG, suffix, d, false);
    assert Compacted(SPLIT_CONFIG, suffix) == [suffix[0]] + Outputs(SPLIT_CONFIG, suffix, b, false);
  }

  /** With single deletes the outputs themselves can differ: the record that starts a range
      is reached without a move, so its key does not count as having output yet. */
  lemma SplitVisibleWithSingleDelete()
    ensures Setting(SPLIT_CONFIG, SPLIT_INPUT, [])
    ensures AllJoined(SPLIT_CONFIG, SPLIT_INPUT, SPLIT_BOUNDS) != Compacted(SPLIT_CONFIG, SPLIT_INPUT)
  {
    SplitExampleSetting();
    SplitExampleWhole();
    var suffix := SPLIT_INPUT[1..];
    SplitExampleRange(suffix);
    var out := Compacted(SPLIT_CONFIG, suffix);
    assert SeekTo(SPLIT_INPUT, Some(2)) == 1;
    assert |Compacted(SPLIT_CONFIG, SPLIT_INPUT)| == 2 && |out| == 3;
    hide Compacted, Setting;
    assert RangeOutput(SPLIT_CONFIG, SPLIT_INPUT, Some(2), None) == out by {
      TakeAll(out);
    }
    var before := Joined(SPLIT_CONFIG, SPLIT_INPUT, SPLIT_BOUNDS, 1);
    assert AllJoined(SPLIT_CONFIG, SPLIT_INPUT, SPLIT_BOUNDS) == before + out;
    assert |before + out| >= 3;
  }

  lemma {:induction false} TakeAll(rs: seq<Record>)
    ensures TakeBelow(rs, None) == rs
  {
    if rs != [] {
      TakeAll(rs[1..]);
    }
  }
}
