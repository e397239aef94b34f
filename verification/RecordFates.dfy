/**
  The fate of every single input record of a compaction, for all inputs with puts, deletes and single
  deletes: whether it is emitted, and how it looks then, is said by a rule on the input alone. The
  iterator with its memory, its peeking and its flags emits exactly what the rule says.
*/
module RecordFates {
  import opened Records
  import opened LevelFiles
  import opened CompactionSpec
  import opened ReadPreservation

  // ---------------------------------------------------------------- the rule

  /** The record before, or behind, is a version of the same key with the same earliest snapshot. */
  predicate SameStripeAs(cfg: Config, input: seq<Record>, i: nat, j: nat)
    requires i < |input| && j < |input|
  {
    input[i].key == input[j].key && Stripe(cfg.snapshots, input[i].seqno) == Stripe(cfg.snapshots, input[j].seqno)
  }

  /** A tombstone that can hide nothing any more: every snapshot sees it, and no file of a level
      beyond the output level can hold the key; a universal compaction only knows whether it writes
      the bottommost level. */
  predicate Obsolete(cfg: Config, r: Record) {
    && cfg.compacting
    && (forall s :: s in cfg.snapshots ==> r.seqno <= s) && r.seqno <= MAX_SEQUENCE
    && if cfg.tree.universal then cfg.tree.bottommost
       else forall l, f :: cfg.tree.output < l < |cfg.tree.levels| && f in cfg.tree.levels[l] ==>
                             r.key < f.smallest || f.largest < r.key
  }

  /** The single delete at `i` has its partner directly behind it: a version of the same stripe that
      is not a single delete. */
  predicate Mated(cfg: Config, input: seq<Record>, i: nat) {
    && i + 1 < |input| && input[i].kind.SingleDelete? && !input[i + 1].kind.SingleDelete?
    && SameStripeAs(cfg, input, i, i + 1)
  }

  /** Something older than the very first record of the output was emitted for this key before. */
  predicate HasOutput(cfg: Config, input: seq<Record>, i: nat)
    requires i < |input|
    decreases i, 0
  {
    exists j, k :: 0 <= j < k < i && Survives(cfg, input, j) && Survives(cfg, input, k) && input[k].key == input[i].key
  }

  /** The rule. A partner goes with its single delete. A single delete goes if it is obsolete and has
      no older version, if another single delete of the stripe follows, or if it and its partner
      annihilate. Any other record goes if it is hidden, or an obsolete delete. */
  predicate Survives(cfg: Config, input: seq<Record>, i: nat)
    requires i < |input|
    decreases i, 1
  {
    if i > 0 && Mated(cfg, input, i - 1) then Survives(cfg, input, i - 1)
    else if input[i].kind.SingleDelete? then
      if LastOfKey(input, i) then !Obsolete(cfg, input[i])
      else if !SameStripeAs(cfg, input, i, i + 1) then true
      else !input[i + 1].kind.SingleDelete? && input[i].seqno > cfg.writeConflict && !HasOutput(cfg, input, i)
    else
      && !(i > 0 && SameStripeAs(cfg, input, i - 1, i))
      && !(input[i].kind.Delete? && Obsolete(cfg, input[i]))
  }

  /** How a surviving record looks: a partner loses its value, and at the bottommost level a number
      that every snapshot sees becomes zero, except for the largest key of the compaction. */
  function Rendered(cfg: Config, input: seq<Record>, i: nat): Record
    requires i < |input|
  {
    var r := if i > 0 && Mated(cfg, input, i - 1) then input[i].(value := "") else input[i];
    if cfg.compacting && !cfg.ingestBehind && cfg.tree.bottommost && r.key != cfg.largestKey
       && (forall s :: s in cfg.snapshots ==> r.seqno <= s) && r.seqno <= MAX_SEQUENCE
    then Record(r.key, 0, r.kind, r.value) else r
  }

  /** What the rule lets through among the records from `a` on. */
  function Survivors(cfg: Config, input: seq<Record>, a: nat): seq<Record>
    requires a <= |input|
    decreases |input| - a
  {
    if a == |input| then []
    else (if Survives(cfg, input, a) then [Rendered(cfg, input, a)] else []) + Survivors(cfg, input, a + 1)
  }

  // ---------------------------------------------------------------- the iterator follows the rule

  lemma SeenByAll(snapshots: seq<nat>, seqno: nat)
    requires SnapshotsOk(snapshots)
    ensures seqno <= Earliest(snapshots) <==> (forall s :: s in snapshots ==> seqno <= s) && seqno <= MAX_SEQUENCE
  {
    if snapshots != [] && seqno <= snapshots[0] {
      assert forall i :: 0 <= i < |snapshots| ==> snapshots[0] <= snapshots[i];
    } else if snapshots != [] {
      assert snapshots[0] in snapshots;
    }
  }

  lemma ObsoleteIsDroppable(cfg: Config, r: Record)
    requires ConfigOk(cfg)
    ensures Obsolete(cfg, r) <==> Droppable(cfg, r)
  {
    SeenByAll(cfg.snapshots, r.seqno);
    if AbsentBelow(cfg.tree, r.key) && !cfg.tree.universal {
      forall l, f | cfg.tree.output < l < |cfg.tree.levels| && f in cfg.tree.levels[l]
        ensures r.key < f.smallest || f.largest < r.key
      {
        var i :| 0 <= i < |cfg.tree.levels[l]| && cfg.tree.levels[l][i] == f;
        assert !Covers(cfg.tree.levels[l][i], r.key);
      }
    }
  }

  /** No record before `p` survives. */
  predicate NoneBefore(cfg: Config, input: seq<Record>, p: nat)
    requires p <= |input|
  {
    forall k: nat :: k < p ==> !Survives(cfg, input, k)
  }

  /** The flags of the cursor are what the rule says of the records before it. */
  predicate Follows(cfg: Config, input: seq<Record>, c: Cursor, first: bool) {
    && CursorOk(cfg, input, c)
    && (first <==> NoneBefore(cfg, input, c.pos))
    && (c.pos < |input| && !IsNewKey(input, c) ==> (c.outputted <==> HasOutput(cfg, input, c.pos)))
    && (c.clearNext <==> 0 < c.pos < |input| && Mated(cfg, input, c.pos - 1))
    && (c.clearNext ==> Survives(cfg, input, c.pos - 1))
  }

  lemma RenderedIsZeroed(cfg: Config, input: seq<Record>, i: nat)
    requires ConfigOk(cfg) && i < |input|
    ensures Rendered(cfg, input, i)
            == Zeroed(cfg, if i > 0 && Mated(cfg, input, i - 1) then input[i].(value := "") else input[i])
  {
    SeenByAll(cfg.snapshots, input[i].seqno);
  }

  /** A hidden record, as the memory of the cursor tells it. */
  lemma HiddenIff(cfg: Config, input: seq<Record>, c: Cursor)
    requires ConfigOk(cfg) && InputOk(input) && CursorOk(cfg, input, c) && c.pos < |input|
    ensures LastSnapshot(input, c) == Stripe(cfg.snapshots, input[c.pos].seqno)
            <==> c.pos > 0 && SameStripeAs(cfg, input, c.pos - 1, c.pos)
  {
    StripeMonotone(cfg.snapshots, input[c.pos].seqno, input[c.pos].seqno);
  }

  /** The turn decides as the rule does, and its cursor passes over the partner only together with
      the single delete. */
  predicate Decides(cfg: Config, input: seq<Record>, p: nat, t: Turn)
    requires p < |input|
  {
    && (t.out.Some? <==> Survives(cfg, input, p))
    && (t.out.Some? ==>
          t.out.value == if p > 0 && Mated(cfg, input, p - 1) then input[p].(value := "") else input[p])
    && (t.next.pos == p + 1 || (t.next.pos == p + 2 && Mated(cfg, input, p) && !Survives(cfg, input, p)))
  }

  lemma SingleDeleteDecides(cfg: Config, input: seq<Record>, p: nat, d: Cursor)
    requires ConfigOk(cfg) && InputOk(input) && p < |input| && input[p].kind.SingleDelete? && d.pos == p + 1
    requires d.outputted <==> HasOutput(cfg, input, p)
    ensures Decides(cfg, input, p, SingleDeleteTurn(cfg, input, p, d))
  {
    ObsoleteIsDroppable(cfg, input[p]);
    if !LastOfKey(input, p) {
      SingleDeleteStripes(cfg, input, p);
    }
    hide Obsolete, Droppable, Stripe, Previous, HasOutput;
  }

  lemma OtherDecides(cfg: Config, input: seq<Record>, c: Cursor)
    requires ConfigOk(cfg) && InputOk(input) && CursorOk(cfg, input, c) && c.pos < |input|
    requires !input[c.pos].kind.SingleDelete? && !c.clearNext && (c.pos > 0 ==> !Mated(cfg, input, c.pos - 1))
    ensures Decides(cfg, input, c.pos, OneTurn(cfg, input, c))
  {
    ObsoleteIsDroppable(cfg, input[c.pos]);
    HiddenIff(cfg, input, c);
    hide Obsolete, Droppable, Stripe, Previous, LastSnapshot, CursorOk;
  }

  /** One turn decides as the rule does. */
  lemma TurnDecides(cfg: Config, input: seq<Record>, c: Cursor, first: bool)
    requires ConfigOk(cfg) && InputOk(input) && Follows(cfg, input, c, first) && c.pos < |input|
    ensures Decides(cfg, input, c.pos, OneTurn(cfg, input, c)) && OneTurn(cfg, input, c).next.pos <= |input|
  {
    CursorStays(cfg, input, c);
    hide Survives, HasOutput, Mated, SingleDeleteTurn;
    if c.clearNext {
      PartnerGoes(cfg, input, c.pos - 1);
    } else if input[c.pos].kind.SingleDelete? {
      if IsNewKey(input, c) {
        NewKeyHasNone(cfg, input, c);
      }
      SingleDeleteDecides(cfg, input, c.pos, Noted(cfg, input, c));
    } else {
      OtherDecides(cfg, input, c);
    }
  }

  lemma NewKeyHasNone(cfg: Config, input: seq<Record>, c: Cursor)
    requires InputOk(input) && CursorOk(cfg, input, c) && c.pos < |input| && IsNewKey(input, c)
    ensures !HasOutput(cfg, input, c.pos)
  {
    hide Survives;
    forall k: nat | k < c.pos
      ensures input[k].key != input[c.pos].key
    {
      Older(input, c.pos - 1, c.pos);
      if k < c.pos - 1 {
        Older(input, k, c.pos - 1);
      }
    }
  }

  lemma NextFirst(cfg: Config, input: seq<Record>, p: nat, q: nat, first: bool)
    requires p < q <= |input| && q <= p + 2 && (q == p + 2 ==> Mated(cfg, input, p) && !Survives(cfg, input, p))
    requires first <==> NoneBefore(cfg, input, p)
    ensures (first && !Survives(cfg, input, p)) <==> NoneBefore(cfg, input, q)
  {
    hide Survives, Mated;
    if q == p + 2 {
      PartnerGoes(cfg, input, p);
    }
  }

  lemma PartnerGoes(cfg: Config, input: seq<Record>, p: nat)
    requires Mated(cfg, input, p)
    ensures Survives(cfg, input, p + 1) <==> Survives(cfg, input, p)
  {
  }

  /** What was emitted for the key before, one turn later. */
  lemma NextHasOutput(cfg: Config, input: seq<Record>, p: nat, q: nat, first: bool)
    requires InputOk(input) && p < q < |input| && q <= p + 2 && input[p].key == input[q].key
    requires q == p + 2 ==> Mated(cfg, input, p) && !Survives(cfg, input, p)
    requires first <==> NoneBefore(cfg, input, p)
    ensures HasOutput(cfg, input, q) <==> HasOutput(cfg, input, p) || (!first && Survives(cfg, input, p))
  {
    hide Survives, Mated;
    if q == p + 2 {
      PartnerGoes(cfg, input, p);
    }
    if HasOutput(cfg, input, q) {
      var j, k := WhatWasOutput(cfg, input, q);
      if k < p {
        OutputBefore(cfg, input, p, j, k);
      }
    }
    if HasOutput(cfg, input, p) {
      var j, k := WhatWasOutput(cfg, input, p);
      OutputBefore(cfg, input, q, j, k);
    }
    if !first && Survives(cfg, input, p) {
      var j: nat :| j < p && Survives(cfg, input, j);
      OutputBefore(cfg, input, q, j, p);
    }
  }

  lemma WhatWasOutput(cfg: Config, input: seq<Record>, i: nat) returns (j: nat, k: nat)
    requires i < |input| && HasOutput(cfg, input, i)
    ensures j < k < i && Survives(cfg, input, j) && Survives(cfg, input, k) && input[k].key == input[i].key
  {
    j, k :| 0 <= j < k < i && Survives(cfg, input, j) && Survives(cfg, input, k) && input[k].key == input[i].key;
  }

  lemma OutputBefore(cfg: Config, input: seq<Record>, i: nat, j: nat, k: nat)
    requires j < k < i < |input| && Survives(cfg, input, j) && Survives(cfg, input, k) && input[k].key == input[i].key
    ensures HasOutput(cfg, input, i)
  {
    hide Survives;
  }

  /** The clearing of a value is pending exactly behind an emitted single delete with a partner. */
  lemma NextClears(cfg: Config, input: seq<Record>, c: Cursor, first: bool)
    requires ConfigOk(cfg) && InputOk(input) && Follows(cfg, input, c, first) && c.pos < |input|
    ensures var d := OneTurn(cfg, input, c).next;
            && (d.clearNext <==> 0 < d.pos < |input| && Mated(cfg, input, d.pos - 1))
            && (d.clearNext ==> d.pos == c.pos + 1 && OneTurn(cfg, input, c).out.Some?)
  {
    hide Droppable, Stripe, Previous, Survives, HasOutput;
    var p := c.pos;
    if !LastOfKey(input, p) {
      SingleDeleteStripes(cfg, input, p);
    }
  }

  /** What the flag says after a turn. */
  lemma NextFlag(cfg: Config, input: seq<Record>, c: Cursor, first: bool)
    requires c.pos < |input|
    ensures var t := OneTurn(cfg, input, c); var d := Moved(t, first);
            && (d.outputted <==> (!IsNewKey(input, c) && c.outputted) || (t.out.Some? && !first))
            && (d.hasKey ==> d.key == input[c.pos].key)
            && d.pos == t.next.pos && d.clearNext == t.next.clearNext
  {
  }

  lemma TurnFollows(cfg: Config, input: seq<Record>, c: Cursor, first: bool)
    requires ConfigOk(cfg) && InputOk(input) && Follows(cfg, input, c, first) && c.pos < |input|
    ensures var t := OneTurn(cfg, input, c); Follows(cfg, input, Moved(t, first), first && t.out.None?)
  {
    hide OneTurn, Survives, HasOutput, Mated, CursorOk;
    assert CursorOk(cfg, input, c);
    var t := OneTurn(cfg, input, c);
    var d := Moved(t, first);
    CursorStays(cfg, input, c);
    CursorIgnoresFlag(cfg, input, t.next, d);
    TurnDecides(cfg, input, c, first);
    NextFirst(cfg, input, c.pos, d.pos, first);
    NextClears(cfg, input, c, first);
    NextFlag(cfg, input, c, first);
    if d.pos < |input| && !IsNewKey(input, d) {
      NextHasOutput(cfg, input, c.pos, d.pos, first);
      if IsNewKey(input, c) {
        NewKeyHasNone(cfg, input, c);
      }
    }
  }

  lemma CursorIgnoresFlag(cfg: Config, input: seq<Record>, c: Cursor, d: Cursor)
    requires CursorOk(cfg, input, c) && d == c.(outputted := d.outputted)
    ensures CursorOk(cfg, input, d)
  {
  }

  /** Behind a turn that decides as the rule does, what is left to let through is the rest. */
  lemma SurvivorsMove(cfg: Config, input: seq<Record>, p: nat, t: Turn)
    requires ConfigOk(cfg) && p < |input| && Decides(cfg, input, p, t) && t.next.pos <= |input|
    ensures Survivors(cfg, input, p) == Emitted(cfg, t) + Survivors(cfg, input, t.next.pos)
  {
    hide Survives, Mated, Zeroed, Rendered;
    RenderedIsZeroed(cfg, input, p);
    if t.next.pos == p + 2 {
      PartnerGoes(cfg, input, p);
    }
  }

  lemma {:induction false} OutputsAreSurvivors(cfg: Config, input: seq<Record>, c: Cursor, first: bool)
    requires ConfigOk(cfg) && InputOk(input) && Follows(cfg, input, c, first)
    ensures Outputs(cfg, input, c, first) == Survivors(cfg, input, c.pos)
    decreases |input| - c.pos
  {
    assert c.pos <= |input|;
    hide OneTurn, Survives, Follows, Mated, Survivors, Decides, Emitted, Rendered;
    if c.pos < |input| {
      var t := OneTurn(cfg, input, c);
      TurnDecides(cfg, input, c, first);
      TurnFollows(cfg, input, c, first);
      OutputsAreSurvivors(cfg, input, Moved(t, first), first && t.out.None?);
      SurvivorsMove(cfg, input, c.pos, t);
    } else {
      NoSurvivors(cfg, input);
    }
  }

  lemma NoSurvivors(cfg: Config, input: seq<Record>)
    ensures Survivors(cfg, input, |input|) == []
  {
  }

  /** Main result: for every sorted input, the compaction emits exactly the records the rule lets
      through, in their order and with the looks the rule gives them. */
  lemma CompactedIsRule(cfg: Config, input: seq<Record>)
    requires ConfigOk(cfg) && InputOk(input)
    ensures Compacted(cfg, input) == Survivors(cfg, input, 0)
  {
    hide Survives, Mated, Survivors;
    OutputsAreSurvivors(cfg, input, START, true);
  }

  // ---------------------------------------------------------------- tombstones

  lemma {:induction false} SurvivorIsRendered(cfg: Config, input: seq<Record>, a: nat, j: nat) returns (i: nat)
    requires a <= |input| && j < |Survivors(cfg, input, a)|
    ensures i < |input| && Survives(cfg, input, i) && Survivors(cfg, input, a)[j] == Rendered(cfg, input, i)
    decreases |input| - a
  {
    hide Survives, Rendered;
    if Survives(cfg, input, a) && j == 0 {
      i := a;
    } else {
      i := SurvivorIsRendered(cfg, input, a + 1, if Survives(cfg, input, a) then j - 1 else j);
    }
  }

  lemma {:induction false} SurvivorIsListed(cfg: Config, input: seq<Record>, a: nat, i: nat)
    requires a <= i < |input| && Survives(cfg, input, i)
    ensures Rendered(cfg, input, i) in Survivors(cfg, input, a)
    decreases |input| - a
  {
    hide Survives, Rendered;
    if a < i {
      SurvivorIsListed(cfg, input, a + 1, i);
    }
  }

  /** A tombstone that no record of the input has to be weighed against: a delete that is the newest
      of its stripe and no partner of a single delete, or a single delete without an older version. */
  predicate Lone(cfg: Config, input: seq<Record>, i: nat)
    requires i < |input|
  {
    || (input[i].kind.Delete? && !(i > 0 && SameStripeAs(cfg, input, i - 1, i)))
    || (input[i].kind.SingleDelete? && LastOfKey(input, i))
  }

  /** Such a tombstone is emitted if and only if it is not obsolete. */
  lemma LoneTombstone(cfg: Config, input: seq<Record>, i: nat)
    requires ConfigOk(cfg) && InputOk(input) && i < |input| && Lone(cfg, input, i)
    ensures Survives(cfg, input, i) <==> !Obsolete(cfg, input[i])
    ensures !Obsolete(cfg, input[i]) ==> Rendered(cfg, input, i) in Compacted(cfg, input)
  {
    CompactedIsRule(cfg, input);
    hide Obsolete, Rendered, Compacted;
    if !Obsolete(cfg, input[i]) {
      SurvivorIsListed(cfg, input, 0, i);
    }
  }

  /** No obsolete tombstone is in the output: every record of it stems from a record of the input
      that is not an obsolete delete, nor an obsolete single delete without an older version. */
  lemma NoObsoleteTombstone(cfg: Config, input: seq<Record>, j: nat) returns (i: nat)
    requires ConfigOk(cfg) && InputOk(input) && j < |Compacted(cfg, input)|
    ensures i < |input| && Compacted(cfg, input)[j] == Rendered(cfg, input, i)
    ensures input[i].kind.Delete? || (input[i].kind.SingleDelete? && LastOfKey(input, i)) ==> !Obsolete(cfg, input[i])
  {
    CompactedIsRule(cfg, input);
    i := SurvivorIsRendered(cfg, input, 0, j);
    hide Rendered, Compacted, HasOutput;
    if i > 0 && Mated(cfg, input, i - 1) {
      PartnerIsNeeded(cfg, input, i);
    }
  }

  lemma PartnerIsNeeded(cfg: Config, input: seq<Record>, i: nat)
    requires ConfigOk(cfg) && InputOk(input) && 0 < i < |input| && Mated(cfg, input, i - 1)
    requires Survives(cfg, input, i - 1)
    ensures !Obsolete(cfg, input[i])
  {
    Older(input, i - 1, i);
    SeenByAll(cfg.snapshots, input[i].seqno);
    StripeMonotone(cfg.snapshots, input[i].seqno, input[i - 1].seqno);
    StripeMonotone(cfg.snapshots, input[i - 1].seqno, input[i - 1].seqno);
  }
}
