/**
  Versioned records, snapshots and reads of the key-value store.

  User keys are integers, standing for the total order of a comparator. A run of records
  is sorted by user key ascending and, within a key, by sequence number descending.
*/
module Records {
  import opened Basics

  const MAX_SEQUENCE: nat := 0xFF_FFFF_FFFF_FFFF

  datatype Kind = Put | Delete | SingleDelete

  datatype Record = Record(key: int, seqno: nat, kind: Kind, value: string)

  predicate Precedes(a: Record, b: Record) {
    a.key < b.key || (a.key == b.key && a.seqno > b.seqno)
  }

  predicate Sorted(rs: seq<Record>) {
    forall i, j {:trigger Precedes(rs[i], rs[j])} :: 0 <= i < j < |rs| ==> Precedes(rs[i], rs[j])
  }

  predicate InRange(rs: seq<Record>) {
    forall i :: 0 <= i < |rs| ==> rs[i].seqno <= MAX_SEQUENCE
  }

  // ---------------------------------------------------------------- reads

  /** The newest version of `key` visible at sequence number `at`. */
  function Get(rs: seq<Record>, key: int, at: nat): Option<Record> {
    if rs == [] then None
    else if rs[0].key == key && rs[0].seqno <= at then Some(rs[0])
    else Get(rs[1..], key, at)
  }

  function Answer(r: Option<Record>): Option<string> {
    if r.Some? && r.value.kind.Put? then Some(r.value.value) else None
  }

  /** A read that looks at a run of records first and at the levels below it only when the
      run holds no visible version: a value, or nothing. */
  function Read(rs: seq<Record>, deeper: seq<Record>, key: int, at: nat): Option<string> {
    var r := Get(rs, key, at);
    if r.Some? then Answer(r) else Answer(Get(deeper, key, at))
  }

  lemma {:induction false} GetAbsent(rs: seq<Record>, key: int, at: nat)
    requires forall i :: 0 <= i < |rs| ==> rs[i].key != key || rs[i].seqno > at
    ensures Get(rs, key, at) == None
  {
    if rs != [] {
      GetAbsent(rs[1..], key, at);
    }
  }

  lemma {:induction false} GetConcat(a: seq<Record>, b: seq<Record>, key: int, at: nat)
    ensures Get(a + b, key, at) == if Get(a, key, at).Some? then Get(a, key, at) else Get(b, key, at)
  {
    if a == [] {
      assert a + b == b;
    } else {
      assert (a + b)[1..] == a[1..] + b;
      GetConcat(a[1..], b, key, at);
    }
  }

  /** In a sorted run `Get` finds a visible version exactly when there is one, and then
      the one with the largest number. */
  lemma {:induction false} GetIsNewest(rs: seq<Record>, key: int, at: nat)
    requires Sorted(rs)
    ensures match Get(rs, key, at)
            case None => forall i :: 0 <= i < |rs| ==> rs[i].key != key || rs[i].seqno > at
            case Some(r) =>
              && r in rs && r.key == key && r.seqno <= at
              && forall i :: 0 <= i < |rs| && rs[i].key == key && rs[i].seqno <= at ==> rs[i].seqno <= r.seqno
  {
    if rs != [] {
      forall i, j | 0 <= i < j < |rs[1..]|
        ensures Precedes(rs[1..][i], rs[1..][j])
      {
        assert Precedes(rs[i + 1], rs[j + 1]);
      }
      GetIsNewest(rs[1..], key, at);
      forall i | 0 < i < |rs|
        ensures Precedes(rs[0], rs[i]) && rs[i] == rs[1..][i - 1]
      {
      }
    }
  }

  // ---------------------------------------------------------------- snapshots

  /** Live snapshots are ascending, positive and below the largest sequence number. */
  predicate SnapshotsOk(snapshots: seq<nat>) {
    && (forall i :: 0 <= i < |snapshots| ==> 0 < snapshots[i] < MAX_SEQUENCE)
    && (forall i, j :: 0 <= i < j < |snapshots| ==> snapshots[i] <= snapshots[j])
  }

  /** Reads happen at a live snapshot or at the tip. */
  predicate Live(snapshots: seq<nat>, at: nat) {
    at in snapshots || at == MAX_SEQUENCE
  }

  function Earliest(snapshots: seq<nat>): nat {
    if snapshots == [] then MAX_SEQUENCE else snapshots[0]
  }

  /** The earliest snapshot that sees sequence number `seqno`; the tip if none does. */
  function Stripe(snapshots: seq<nat>, seqno: nat): (s: nat)
    ensures Live(snapshots, s)
    ensures seqno <= MAX_SEQUENCE ==> seqno <= s
  {
    if snapshots == [] then MAX_SEQUENCE
    else if snapshots[0] >= seqno then snapshots[0]
    else Stripe(snapshots[1..], seqno)
  }

  /** The latest snapshot that does not see `seqno`; 0 if every snapshot sees it. */
  function Previous(snapshots: seq<nat>, seqno: nat): (p: nat)
    ensures p == 0 || p in snapshots
  {
    if snapshots == [] || snapshots[0] >= seqno then 0
    else if |snapshots| == 1 || snapshots[1] >= seqno then snapshots[0]
    else Previous(snapshots[1..], seqno)
  }

  lemma SnapshotsTail(snapshots: seq<nat>)
    requires SnapshotsOk(snapshots) && snapshots != []
    ensures SnapshotsOk(snapshots[1..])
  {
  }

  /** Exactly the snapshots from its stripe on see a record. */
  lemma {:induction false} VisibleIffFromStripe(snapshots: seq<nat>, seqno: nat, at: nat)
    requires SnapshotsOk(snapshots) && Live(snapshots, at) && seqno <= MAX_SEQUENCE
    ensures seqno <= at <==> Stripe(snapshots, seqno) <= at
  {
    if snapshots != [] && snapshots[0] < seqno {
      SnapshotsTail(snapshots);
      if at in snapshots[1..] || at == MAX_SEQUENCE {
        VisibleIffFromStripe(snapshots[1..], seqno, at);
      } else {
        assert at == snapshots[0];
      }
    } else if snapshots != [] && at in snapshots {
      var i :| 0 <= i < |snapshots| && snapshots[i] == at;
      assert snapshots[0] <= snapshots[i];
    }
  }

  lemma {:induction false} StripeMonotone(snapshots: seq<nat>, a: nat, b: nat)
    requires SnapshotsOk(snapshots) && a <= b <= MAX_SEQUENCE
    ensures Earliest(snapshots) <= Stripe(snapshots, a) <= Stripe(snapshots, b) <= MAX_SEQUENCE
    ensures Stripe(snapshots, a) > 0
    ensures Stripe(snapshots, a) == Earliest(snapshots) <==> a <= Earliest(snapshots)
  {
    if snapshots != [] {
      SnapshotsTail(snapshots);
      StripeMonotone(snapshots[1..], a, b);
      if |snapshots| > 1 {
        assert snapshots[0] <= snapshots[1];
      }
    }
  }

  /** An older record is in the same stripe exactly when it is newer than the snapshot
      before the stripe, or there is no such snapshot. */
  lemma {:induction false} SameStripe(snapshots: seq<nat>, newer: nat, older: nat)
    requires SnapshotsOk(snapshots) && older <= newer <= MAX_SEQUENCE
    ensures var p := Previous(snapshots, newer);
            (p == 0 || older > p) <==> Stripe(snapshots, older) == Stripe(snapshots, newer)
    ensures Previous(snapshots, newer) == 0 <==> newer <= Earliest(snapshots)
  {
    if snapshots != [] {
      SnapshotsTail(snapshots);
      SameStripe(snapshots[1..], newer, older);
      StripeMonotone(snapshots[1..], older, newer);
      if snapshots[0] < newer && older <= snapshots[0] && |snapshots| > 1 {
        assert snapshots[0] <= snapshots[1];
      }
    }
  }

  /** The search through the snapshot list for the stripe of `seqno`. */
  method FindEarliestVisibleSnapshot(snapshots: seq<nat>, seqno: nat) returns (snapshot: nat, previous: nat)
    requires SnapshotsOk(snapshots) && snapshots != []
    ensures snapshot == Stripe(snapshots, seqno)
    ensures previous == Previous(snapshots, seqno)
  {
    var prev := MAX_SEQUENCE;
    for i := 0 to |snapshots|
      invariant i == 0 ==> prev == MAX_SEQUENCE
      invariant i > 0 ==> prev == snapshots[i - 1] && prev < seqno
      invariant Stripe(snapshots, seqno) == Stripe(snapshots[i..], seqno)
      invariant i > 0 ==> Previous(snapshots, seqno) == Previous(snapshots[i - 1..], seqno)
    {
      var cur := snapshots[i];
      assert snapshots[i..][0] == cur && snapshots[i..][1..] == snapshots[i + 1..];
      if i > 0 {
        assert snapshots[i - 1..][0] == snapshots[i - 1] && snapshots[i - 1..][1..] == snapshots[i..];
        assert snapshots[i - 1..][1] == cur;
      }
      if cur >= seqno {
        return cur, if prev == MAX_SEQUENCE then 0 else prev;
      }
      prev := cur;
    }
    assert snapshots[|snapshots|..] == [];
    return MAX_SEQUENCE, prev;
  }
}
