/**
  The compaction iterator as an object: `SeekToFirst` and `Next` advance over the input
  until a record is to be emitted. Together they emit exactly what CompactionSpec lists.
*/
module CompactionIterator {
  import opened Basics
  import opened Records
  import opened LevelFiles
  import opened CompactionSpec

  class Iterator {
    const cfg: Config
    const input: seq<Record>
    const levelPtrs: array<nat>

    var pos: nat               // where the input iterator stands
    var hasKey: bool
    var key: int
    var sequence: nat          // sequence number of the last record of the key
    var snapshot: nat          // its stripe
    var hasOutputted: bool
    var clearNext: bool
    var atNext: bool           // the input already stands behind the record emitted
    var valid: bool
    var current: Record        // the record emitted, when valid

    /** Sequence numbers and cursors move only in the direction the code asserts. */
    ghost predicate Valid()
      reads this, levelPtrs
    {
      && ConfigOk(cfg) && InputOk(input)
      && pos <= |input|
      && levelPtrs.Length == |cfg.tree.levels|
      && (pos < |input| ==> CursorsOk(cfg.tree, levelPtrs[..], input[pos].key))
      && (hasKey && pos < |input| && input[pos].key == key ==> input[pos].seqno <= sequence)
      && (valid && !atNext ==> AtRecord())
    }

    /** The record the input stands at has been noted. */
    ghost predicate AtRecord()
      reads this
    {
      pos < |input| && hasKey && key == input[pos].key && sequence == input[pos].seqno
    }

    /** What the iterator remembers, as the cursor of the specification. */
    ghost function Memory(): Cursor
      reads this
    {
      Cursor(if valid && !atNext then pos + 1 else pos, hasKey, key, snapshot, hasOutputted, clearNext)
    }

    constructor (cfg: Config, input: seq<Record>)
      requires ConfigOk(cfg) && InputOk(input)
      ensures Valid() && fresh(levelPtrs)
      ensures this.cfg == cfg && this.input == input
      ensures !valid && Memory() == START
    {
      this.cfg, this.input := cfg, input;
      levelPtrs := new nat[|cfg.tree.levels|](_ => 0);
      pos, hasKey, key, sequence, snapshot := 0, false, 0, MAX_SEQUENCE, 0;
      hasOutputted, clearNext, atNext, valid := false, false, false, false;
      current := Record(0, 0, Put, "");
    }

    /** `input_->Next()`: the file cursors stay usable, since keys do not decrease. */
    method Skip()
      requires Valid() && AtRecord() && !valid
      modifies this`pos
      ensures Valid() && pos == old(pos) + 1
    {
      if pos + 1 < |input| {
        assert Precedes(input[pos], input[pos + 1]);
        CursorsMonotone(cfg.tree, levelPtrs[..], input[pos].key, input[pos + 1].key);
      }
      pos := pos + 1;
    }

    /** The snapshot stripe of the record looked at, and the snapshot before it. */
    method FindStripe(seqno: nat) returns (stripe: nat, previous: nat)
      requires ConfigOk(cfg)
      ensures stripe == Stripe(cfg.snapshots, seqno) && previous == Previous(cfg.snapshots, seqno)
    {
      if cfg.snapshots == [] {
        // visible at the tip only
        stripe, previous := MAX_SEQUENCE, 0;
      } else {
        stripe, previous := FindEarliestVisibleSnapshot(cfg.snapshots, seqno);
      }
    }

    /** The tombstone is obsolete: no snapshot needs it and no deeper level has the key. */
    method IsDroppable(r: Record) returns (droppable: bool)
      requires ConfigOk(cfg) && CursorsOk(cfg.tree, levelPtrs[..], r.key)
      modifies levelPtrs
      ensures droppable == Droppable(cfg, r)
      ensures CursorsOk(cfg.tree, levelPtrs[..], r.key)
    {
      droppable := false;
      if cfg.compacting && r.seqno <= Earliest(cfg.snapshots) {
        droppable := KeyNotExistsBeyondOutputLevel(cfg.tree, r.key, levelPtrs);
      }
    }

    /** The part of the loop that handles a single delete, peeking at the next record. */
    method SingleDeleteStep(previous: nat)
      requires Valid() && pos < |input| && !valid && !clearNext && !atNext
      requires AtRecord()
      requires snapshot == Stripe(cfg.snapshots, sequence) && previous == Previous(cfg.snapshots, sequence)
      modifies this, levelPtrs
      ensures Valid()
      ensures var t := SingleDeleteTurn(cfg, input, old(pos), old(Memory()).(pos := old(pos) + 1));
              valid == t.out.Some? && (valid ==> current == t.out.value) && Memory() == t.next
      ensures !valid ==> !atNext
    {
      hide CursorsOk, ConfigOk, InputOk, Droppable, Stripe, Previous;
      var r := input[pos];
      Skip();
      if pos < |input| && input[pos].key == r.key {
        var next := input[pos];
        if previous == 0 || next.seqno > previous {
          if next.kind.SingleDelete? {
            // two in a row: the first one is skipped already
          } else if r.seqno <= cfg.writeConflict || hasOutputted {
            // the pair annihilates
            sequence := next.seqno;
            Skip();
          } else {
            current, valid, clearNext := r, true, true;
          }
        } else {
          current, valid := r, true;
        }
      } else {
        LoneSingleDelete(r);
      }
      if valid {
        atNext := true;
      }
    }

    method LoneSingleDelete(r: Record)
      requires Valid() && 0 < pos && !valid && r == input[pos - 1]
      requires pos < |input| ==> input[pos].key != r.key
      requires CursorsOk(cfg.tree, levelPtrs[..], r.key)
      modifies this`hasKey, this`current, this`valid, levelPtrs
      ensures !hasKey && valid == !Droppable(cfg, r) && (valid ==> current == r)
      ensures levelPtrs.Length == |cfg.tree.levels|
      ensures pos < |input| ==> CursorsOk(cfg.tree, levelPtrs[..], input[pos].key)
    {
      hasKey := false;
      var droppable := IsDroppable(r);
      if pos < |input| {
        assert Precedes(input[pos - 1], input[pos]);
        CursorsMonotone(cfg.tree, levelPtrs[..], r.key, input[pos].key);
      }
      if !droppable {
        current, valid := r, true;
      }
    }

    /** The part of the loop that handles a put or a plain delete. */
    method PlainStep(lastSnapshot: nat)
      requires Valid() && pos < |input| && !valid && !clearNext && !atNext && !input[pos].kind.SingleDelete?
      requires AtRecord()
      modifies this`pos, this`current, this`valid, levelPtrs
      ensures Valid()
      ensures valid == (lastSnapshot != snapshot && !(input[old(pos)].kind.Delete? && Droppable(cfg, input[old(pos)])))
      ensures valid ==> current == input[old(pos)]
      ensures Memory() == old(Memory()).(pos := old(pos) + 1)
    {
      var r := input[pos];
      if lastSnapshot == snapshot {
        Skip();
      } else {
        var droppable := false;
        if r.kind.Delete? {
          droppable := IsDroppable(r);
        }
        if droppable {
          Skip();
        } else {
          current, valid := r, true;
        }
      }
    }

    /** Notes the user key and the stripe of the record looked at. */
    method NoteRecord() returns (lastSnapshot: nat, previous: nat)
      requires Valid() && pos < |input| && !valid
      modifies this`key, this`hasKey, this`hasOutputted, this`sequence, this`snapshot
      ensures Valid() && AtRecord()
      ensures lastSnapshot == LastSnapshot(input, old(Memory()))
      ensures previous == Previous(cfg.snapshots, sequence)
      ensures Memory() == Noted(cfg, input, old(Memory())).(pos := pos, clearNext := clearNext)
    {
      var r := input[pos];
      if !hasKey || r.key != key {
        key, hasKey, hasOutputted, sequence, snapshot := r.key, true, false, MAX_SEQUENCE, 0;
      }
      lastSnapshot := snapshot;
      assert sequence >= r.seqno;
      sequence := r.seqno;
      snapshot, previous := FindStripe(r.seqno);
    }

    /** One round of the loop over the input. */
    method Step()
      requires Valid() && pos < |input| && !valid && !atNext
      modifies this, levelPtrs
      ensures Valid()
      ensures var t := OneTurn(cfg, input, old(Memory()));
              valid == t.out.Some? && (valid ==> current == t.out.value) && Memory() == t.next
      ensures !valid ==> !atNext
    {
      hide Stripe, Previous, Droppable, SingleDeleteTurn, ConfigOk, InputOk, CursorsOk;
      var lastSnapshot, previous := NoteRecord();
      if clearNext {
        current, valid, clearNext := input[pos].(value := ""), true, false;
      } else if input[pos].kind.SingleDelete? {
        SingleDeleteStep(previous);
      } else {
        PlainStep(lastSnapshot);
      }
    }

    /** Everything still to be emitted. */
    ghost function Pending(first: bool): seq<Record>
      reads this
    {
      Outputs(cfg, input, Memory(), first)
    }

    /** The record emitted, if any, and everything after it. */
    ghost function Remaining(): seq<Record>
      reads this
    {
      if valid then [current] + Pending(false) else []
    }

    lemma RemainingFirst()
      ensures if valid then Remaining() != [] && Remaining()[0] == current else Remaining() == []
    {
    }

    /** The iterator found the first of `all`, and the rest follows; or `all` is empty. */
    ghost predicate Found(all: seq<Record>, first: bool)
      reads this
    {
      if valid then all
          == [Zeroed(cfg, current)] + Outputs(cfg, input, Moved(Turn(Some(current), Memory()), first), false)
      else all == []
    }

    /** Loops over the input until a record is to be emitted. */
    method NextFromInput(ghost first: bool)
      requires Valid() && (valid ==> atNext)
      modifies this, levelPtrs
      ensures Valid() && Found(old(Pending(first)), first)
    {
      atNext, valid := false, false;
      while !valid && pos < |input|
        invariant Valid()
        invariant !valid ==> !atNext
        invariant if valid then Found(old(Pending(first)), first) else old(Pending(first)) == Pending(first)
        decreases |input| - Memory().pos, !valid
      {
        ghost var t := OneTurn(cfg, input, Memory());
        Step();
        assert Emitted(cfg, t) + Outputs(cfg, input, Moved(t, first), first && t.out.None?) ==
               if valid then [Zeroed(cfg, current)] + Outputs(cfg, input, Moved(t, first), false)
               else Outputs(cfg, input, Memory(), first);
      }
    }

    /** Zeroes the sequence number of the record emitted, where that is allowed. */
    method PrepareOutput()
      requires Valid()
      modifies this`current
      ensures Valid()
      ensures current == if valid then Zeroed(cfg, old(current)) else old(current)
    {
      if cfg.compacting && !cfg.ingestBehind && cfg.tree.bottommost && valid
         && current.seqno <= Earliest(cfg.snapshots) && cfg.largestKey != current.key {
        current := current.(seqno := 0);
      }
    }

    /** The first record emitted is the first one of the specification. */
    method SeekToFirst()
      requires Valid() && !valid && Memory() == START
      modifies this, levelPtrs
      ensures Valid()
      ensures Remaining() == Compacted(cfg, input)
    {
      NextFromInput(true);
      PrepareOutput();
    }

    /** Each move emits the next record of the specification, until there is none. */
    method Next()
      requires Valid() && valid
      modifies this, levelPtrs
      ensures Valid()
      ensures old(Remaining()) == [old(current)] + Remaining()
    {
      hide Outputs, ConfigOk, InputOk, CursorsOk;
      if !atNext {
        valid := false;
        Skip();
      }
      NextFromInput(false);
      if valid {
        hasOutputted := true;
      }
      PrepareOutput();
    }
  }
}
