/**
  What the compaction iterator emits, one input record after the other, as a function of
  the input. Module CompactionIterator proves that the iterator's methods compute it;
  module ReadPreservation proves what it means for readers.
*/
module CompactionSpec {
  import opened Basics
  import opened Records
  import opened LevelFiles

  /** `compacting` is false for a flush, which has no compaction object. */
  datatype Config = Config(
    snapshots: seq<nat>,
    writeConflict: nat,
    compacting: bool,
    ingestBehind: bool,
    largestKey: int,
    tree: Tree)

  /** The iterator's memory between two input records. */
  datatype Cursor = Cursor(
    pos: nat,
    hasKey: bool,
    key: int,
    snapshot: nat,
    outputted: bool,
    clearNext: bool)

  const START: Cursor := Cursor(0, false, 0, 0, false, false)

  /** A record to emit, if any, and the cursor behind what was consumed. */
  datatype Turn = Turn(out: Option<Record>, next: Cursor)

  predicate Droppable(cfg: Config, r: Record) {
    cfg.compacting && r.seqno <= Earliest(cfg.snapshots) && AbsentBelow(cfg.tree, r.key)
  }

  function SingleDeleteTurn(cfg: Config, input: seq<Record>, p: nat, d: Cursor): (t: Turn)
    requires p < |input| && d.pos == p + 1
    ensures t.next.pos > p
  {
    var r := input[p];
    if p + 1 < |input| && input[p + 1].key == r.key then
      var previous := Previous(cfg.snapshots, r.seqno);
      if previous == 0 || input[p + 1].seqno > previous then
        if input[p + 1].kind.SingleDelete? then Turn(None, d)
        else if r.seqno <= cfg.writeConflict || d.outputted then Turn(None, d.(pos := p + 2))
        else Turn(Some(r), d.(clearNext := true))
      else Turn(Some(r), d)
    else if Droppable(cfg, r) then Turn(None, d.(hasKey := false))
    else Turn(Some(r), d.(hasKey := false))
  }

  predicate IsNewKey(input: seq<Record>, c: Cursor)
    requires c.pos < |input|
  {
    !c.hasKey || input[c.pos].key != c.key
  }

  /** The stripe of the version before, 0 for the first version of a key. */
  function LastSnapshot(input: seq<Record>, c: Cursor): nat
    requires c.pos < |input|
  {
    if IsNewKey(input, c) then 0 else c.snapshot
  }

  /** The cursor behind the record it stands at, with that record remembered. */
  function Noted(cfg: Config, input: seq<Record>, c: Cursor): Cursor
    requires c.pos < |input|
  {
    var r := input[c.pos];
    Cursor(c.pos + 1, true, r.key, Stripe(cfg.snapshots, r.seqno), !IsNewKey(input, c) && c.outputted, false)
  }

  function OneTurn(cfg: Config, input: seq<Record>, c: Cursor): (t: Turn)
    requires c.pos < |input|
    ensures t.next.pos > c.pos
  {
    var r := input[c.pos];
    var d := Noted(cfg, input, c);
    if c.clearNext then Turn(Some(r.(value := "")), d)
    else if r.kind.SingleDelete? then SingleDeleteTurn(cfg, input, c.pos, d)
    else if LastSnapshot(input, c) == d.snapshot then Turn(None, d)
    else if r.kind.Delete? && Droppable(cfg, r) then Turn(None, d)
    else Turn(Some(r), d)
  }

  /** The sequence number of a record at the bottommost level may become zero. */
  function Zeroed(cfg: Config, r: Record): Record {
    if cfg.compacting && !cfg.ingestBehind && cfg.tree.bottommost
       && r.seqno <= Earliest(cfg.snapshots) && cfg.largestKey != r.key
    then r.(seqno := 0) else r
  }

  /** Moving on from an emitted record notes that its key has output, except from the very
      first one, which is reached without a move. */
  function Moved(t: Turn, first: bool): Cursor {
    if t.out.Some? && !first then t.next.(outputted := true) else t.next
  }

  function Emitted(cfg: Config, t: Turn): seq<Record> {
    if t.out.Some? then [Zeroed(cfg, t.out.value)] else []
  }

  /** Everything still to be emitted. */
  function Outputs(cfg: Config, input: seq<Record>, c: Cursor, first: bool): seq<Record>
    decreases |input| - c.pos
  {
    if c.pos >= |input| then []
    else
      var t := OneTurn(cfg, input, c);
      Emitted(cfg, t) + Outputs(cfg, input, Moved(t, first), first && t.out.None?)
  }

  function Compacted(cfg: Config, input: seq<Record>): seq<Record> {
    Outputs(cfg, input, START, true)
  }

  predicate ConfigOk(cfg: Config) {
    && SnapshotsOk(cfg.snapshots)
    && Earliest(cfg.snapshots) <= cfg.writeConflict
    && TreeOk(cfg.tree)
  }

  predicate InputOk(input: seq<Record>) {
    Sorted(input) && InRange(input)
  }

  /** The run of records and the levels below it fit together: a key absent below has no
      record there, and at the bottommost level every key of the input is absent below. */
  ghost predicate DeeperOk(cfg: Config, input: seq<Record>, deeper: seq<Record>) {
    && (forall i :: 0 <= i < |deeper| ==> !AbsentBelow(cfg.tree, deeper[i].key))
    && (cfg.compacting && cfg.tree.bottommost ==>
          forall i :: 0 <= i < |input| ==> AbsentBelow(cfg.tree, input[i].key))
  }

  // ---------------------------------------------------------------- single deletes

  predicate NoSingleDelete(input: seq<Record>, key: int) {
    forall i :: 0 <= i < |input| && input[i].key == key ==> !input[i].kind.SingleDelete?
  }

  predicate LastOfKey(input: seq<Record>, i: nat)
    requires i < |input|
  {
    i + 1 == |input| || input[i + 1].key != input[i].key
  }

  /** A put directly behind a single delete is the one this deletes: behind it comes another
      single delete, or nothing that could be read. */
  ghost predicate PutOk(input: seq<Record>, deeper: seq<Record>, i: nat)
    requires i < |input|
  {
    i > 0 && input[i].kind.Put? && input[i - 1].key == input[i].key && input[i - 1].kind.SingleDelete? ==>
      if LastOfKey(input, i) then NothingReadable(deeper, input[i].key, input[i].seqno)
      else input[i + 1].kind.SingleDelete?
  }

  /** The discipline single deletes demand of the user: no plain delete of the same key, and at
      most one put since the previous single delete. Puts newer than all single deletes may
      overwrite each other, and single deletes may repeat. */
  ghost predicate Paired(input: seq<Record>, deeper: seq<Record>, key: int) {
    && (forall i :: 0 <= i < |input| && input[i].key == key ==> !input[i].kind.Delete?)
    && (forall i: nat :: i < |input| && input[i].key == key ==> PutOk(input, deeper, i))
  }

  /** No reader that sees a version of the given number finds a value. */
  ghost predicate NothingReadable(deeper: seq<Record>, key: int, seqno: nat) {
    forall at :: at >= seqno ==> Answer(Get(deeper, key, at)) == None
  }

  ghost predicate SingleDeletesOk(input: seq<Record>, deeper: seq<Record>) {
    forall key :: NoSingleDelete(input, key) || Paired(input, deeper, key)
  }
}
