/**
  What becomes of the node that `remove` marks, in every run of the lock-free map: before the call
  returns, the node is off the list, whoever took it off, and it never comes back.
*/
module RemovedNodes {
  import opened HarrisList
  import opened HarrisThread
  import opened LockFreeMap
  import opened SearchPasses

  // ---------------------------------------------------------------- victims

  /** With step `u` thread `tid` marks node `n`, for its call to remove `key`. */
  ghost predicate MarksAt(tr: Trace, u: nat, tid: nat, key: int, n: nat) {
    && u < |tr.labels| && u < |tr.states| && tr.labels[u] == Run(tid) && tid < |tr.states[u].threads|
    && var th := tr.states[u].threads[tid];
       th.op == Remove(key) && Marks(HeapAt(tr, u, key), th) && th.pc.right == n
  }

  /** The thread marked the node at an instant from `lo` on and before `hi`. */
  ghost predicate Victim(tr: Trace, lo: nat, hi: nat, tid: nat, key: int, n: nat) {
    exists u: nat :: lo <= u < hi && MarksAt(tr, u, tid, key, n)
  }

  ghost predicate Off(tr: Trace, i: nat, key: int, n: nat) {
    var h := HeapAt(tr, i, key);
    Marked(h, n) && Stores(h, n, key) && !Reachable(h, n)
  }

  /** Marked by this call and off the list at instant `i`. */
  ghost predicate Gone(tr: Trace, lo: nat, i: nat, tid: nat, key: int, n: nat) {
    Victim(tr, lo, i, tid, key, n) && Off(tr, i, key, n)
  }

  /** Where a thread is with its call to remove a key. */
  ghost predicate RemoveOk(tr: Trace, i: nat, tid: nat)
    requires i < |tr.states| == |tr.labels| + 1
  {
    tid < |tr.states[i].threads| &&
    var th, lo := tr.states[i].threads[tid], CallStart(tr, i, tid);
    var key := th.op.key;
    th.op.Remove? ==>
      match th.pc
      case Idle => true
      case CasUnlink(_, n, _) => Victim(tr, lo, i, tid, key, n)
      case Done(ok) => ok ==> exists n :: Gone(tr, lo, i, tid, key, n)
      case _ => th.cleanup ==> exists n :: Victim(tr, lo, PassStart(tr, i, tid), tid, key, n)
  }

  // ---------------------------------------------------------------- marked and off

  /** A victim is marked, and stores the key, ever after. */
  lemma VictimMarked(tr: Trace, u: nat, i: nat, tid: nat, key: int, n: nat)
    requires IsTrace(tr) && u < i < |tr.states| && MarksAt(tr, u, tid, key, n)
    ensures Marked(HeapAt(tr, i, key), n) && Stores(HeapAt(tr, i, key), n, key)
  {
    var th := tr.states[u].threads[tid];
    var c := StepFacts(tr, u, tid, th);
    assert Marked(HeapAt(tr, u + 1, key), n) && Stores(HeapAt(tr, u + 1, key), n, key);
    hide IsTrace, HeapAt, ListInv, LocalInv, Safe;
    MarkedNodesAreFrozen(tr, u + 1, i, key);
  }

  /** Between two adjacent nodes around the key, of which the right one is unmarked, there is no
      marked node with this key on the list. */
  lemma BracketExcludes(tr: Trace, t: nat, l: nat, r: nat, key: int, n: nat)
    requires IsTrace(tr) && t < |tr.states| && BracketAt(tr, t, l, r, key)
    requires Marked(HeapAt(tr, t, key), n) && Stores(HeapAt(tr, t, key), n, key)
    ensures !Reachable(HeapAt(tr, t, key), n)
  {
    var cs := TraceStateInv(tr, t);
    var h, c := HeapAt(tr, t, key), cs[Home(tr.states[t], key)];
    assert ListInv(h, c);
    hide IsTrace, StateInv, HeapAt;
    ReachableIffOnChain(h, c, l);
    ReachableIffOnChain(h, c, n);
    if n in c {
      NotBetween(h, c, l, r, key, n);
    }
  }

  lemma NotBetween(h: Heap, c: seq<nat>, l: nat, r: nat, key: int, n: nat)
    requires ListInv(h, c) && l in c && h[l].next == Link(r, false) && BelowKey(h, l, key) && AtLeastKey(h, r, key)
    requires n in c && Stores(h, n, key)
    ensures n == r
  {
    var a :| 0 <= a < |c| && c[a] == l;
    assert a < |c| - 1 && c[a + 1] == r;
    var i :| 0 <= i < |c| && c[i] == n;
    assert i < a ==> Before(h, c[i], c[a]);
    assert i > a + 1 ==> Before(h, c[a + 1], c[i]);
  }

  lemma StaysOff(tr: Trace, i: nat, key: int, n: nat)
    requires IsTrace(tr) && i < |tr.labels| && Off(tr, i, key, n)
    ensures Off(tr, i + 1, key, n)
  {
    var cs := TraceStateInv(tr, i);
    var cs' := TraceStateInv(tr, i + 1);
    var c', own := StepBucket(tr.states[i], tr.labels[i], tr.states[i + 1], cs);
    var b := Home(tr.states[i], key);
    assert ListInv(tr.states[i].buckets[b], cs[b]) && ListInv(tr.states[i + 1].buckets[b], cs'[b]);
    ReachableIffOnChain(tr.states[i].buckets[b], cs[b], n);
    ReachableIffOnChain(tr.states[i + 1].buckets[b], cs'[b], n);
    hide IsTrace, StateInv, ListInv;
    if b == Home(tr.states[i], OpOf(tr.states[i], tr.labels[i]).key) {
      SameChain(tr.states[i + 1].buckets[b], c', cs'[b]);
    } else {
      SameChain(tr.states[i + 1].buckets[b], cs[b], cs'[b]);
    }
  }

  lemma SameChain(h: Heap, c: seq<nat>, d: seq<nat>)
    requires ListInv(h, c) && ListInv(h, d)
    ensures c == d
  {
    ChainUnique(h, c, d);
  }

  /** A node that is off the list never comes back. */
  lemma {:induction false} OffForGood(tr: Trace, t: nat, i: nat, key: int, n: nat)
    requires IsTrace(tr) && t <= i < |tr.states| && Off(tr, t, key, n)
    ensures Off(tr, i, key, n)
    decreases i
  {
    hide IsTrace, Off;
    if t < i {
      TraceLength(tr);
      OffForGood(tr, t, i - 1, key, n);
      StaysOff(tr, i - 1, key, n);
    }
  }

  // ---------------------------------------------------------------- steps

  /** The search that follows a failed attempt returns: the node is off the list. */
  lemma CleanupDone(tr: Trace, i: nat, tid: nat, n: nat)
    requires IsTrace(tr) && i < |tr.labels| && tr.labels[i] == Run(tid) && tid < |tr.states[i].threads|
    requires Searching(tr.states[i].threads[tid]) && tid < |tr.states[i + 1].threads|
    requires !Searching(tr.states[i + 1].threads[tid])
    requires Victim(tr, CallStart(tr, i, tid), PassStart(tr, i, tid), tid, tr.states[i].threads[tid].op.key, n)
    ensures Gone(tr, CallStart(tr, i, tid), i + 1, tid, tr.states[i].threads[tid].op.key, n)
  {
    var th := tr.states[i].threads[tid];
    var key, lo := th.op.key, PassStart(tr, i, tid);
    var c := StepFacts(tr, i, tid, th);
    ReturnsWhenLeaving(HeapAt(tr, i, key), c, th);
    var l, r :| Returns(HeapAt(tr, i, key), th, l, r);
    SearchFoundAdjacentNodes(tr, i, tid, l, r);
    var t :| lo <= t <= i + 1 && BracketAt(tr, t, l, r, key);
    var u: nat :| CallStart(tr, i, tid) <= u < lo && MarksAt(tr, u, tid, key, n);
    hide IsTrace, HeapAt, ListInv, LocalInv, Safe, Returns, BracketAt, MarksAt;
    VictimMarked(tr, u, t, tid, key, n);
    BracketExcludes(tr, t, l, r, key, n);
    OffForGood(tr, t, i + 1, key, n);
  }

  /** The node is taken off by the one who marked it. */
  lemma UnlinkDone(tr: Trace, i: nat, tid: nat)
    requires IsTrace(tr) && i < |tr.labels| && tr.labels[i] == Run(tid) && tid < |tr.states[i].threads|
    requires var th := tr.states[i].threads[tid];
             && th.pc.CasUnlink? && th.pc.left < |HeapAt(tr, i, th.op.key)|
             && HeapAt(tr, i, th.op.key)[th.pc.left].next == Link(th.pc.right, false)
    ensures var th := tr.states[i].threads[tid]; !Reachable(HeapAt(tr, i + 1, th.op.key), th.pc.right)
  {
    var th := tr.states[i].threads[tid];
    var c := StepFacts(tr, i, tid, th);
    var h, n := HeapAt(tr, i, th.op.key), th.pc.right;
    hide IsTrace, HeapAt;
    LinkedInRange(h, c, th.pc.left);
    assert MarkedPath(h, [n], th.pc.rightNext.target);
    var d := BypassMarked(h, c, th.pc.left, n, th.pc.rightNext.target);
    ReachableIffOnChain(Advance(h, th).0, d, n);
  }

  lemma VictimLater(tr: Trace, lo: nat, hi: nat, hi': nat, tid: nat, key: int, n: nat)
    requires Victim(tr, lo, hi, tid, key, n) && hi <= hi'
    ensures Victim(tr, lo, hi', tid, key, n)
  {
  }

  lemma SearchStep(tr: Trace, i: nat, tid: nat)
    requires IsTrace(tr) && i < |tr.labels| && tr.labels[i] == Run(tid) && RemoveOk(tr, i, tid)
    requires var th := tr.states[i].threads[tid]; th.op.Remove? && Searching(th)
    ensures RemoveOk(tr, i + 1, tid)
  {
    hide IsTrace, Gone, Victim;
    TraceLength(tr);
    var th := tr.states[i].threads[tid];
    var key, lo := th.op.key, CallStart(tr, i, tid);
    StepLeads(tr, i, tid);
    assert CallStart(tr, i + 1, tid) == lo;
    if th.cleanup {
      var n :| Victim(tr, lo, PassStart(tr, i, tid), tid, key, n);
      if Searching(tr.states[i + 1].threads[tid]) {
        VictimLater(tr, lo, PassStart(tr, i, tid), PassStart(tr, i + 1, tid), tid, key, n);
        assert Victim(tr, CallStart(tr, i + 1, tid), PassStart(tr, i + 1, tid), tid, key, n);
      } else {
        CleanupDone(tr, i, tid, n);
      }
    }
  }

  lemma StepLeads(tr: Trace, i: nat, tid: nat)
    requires IsTrace(tr) && i < |tr.labels| && tr.labels[i] == Run(tid) && tid < |tr.states[i].threads|
    requires var th := tr.states[i].threads[tid]; th.op.Remove? && Searching(th)
    ensures tid < |tr.states[i + 1].threads|
    ensures Leads(tr.states[i].threads[tid], tr.states[i + 1].threads[tid])
  {
    var th := tr.states[i].threads[tid];
    var c := StepFacts(tr, i, tid, th);
    hide IsTrace, HeapAt, ListInv, LocalInv, Safe, Advance;
    SearchLeads(HeapAt(tr, i, th.op.key), th);
  }

  /** Where a search for a key to be removed leads to. */
  predicate Leads(th: Thread, th': Thread) {
    && th'.op == th.op && th'.cleanup == th.cleanup
    && (Searching(th') || (if th.cleanup then th'.pc == Done(true) else th'.pc == Done(false) || th'.pc.LoadVictim?))
  }

  lemma SearchLeads(h: Heap, th: Thread)
    requires Safe(h, th) && th.op.Remove? && Searching(th)
    ensures Leads(th, Advance(h, th).1)
  {
  }

  lemma MarkStep(tr: Trace, i: nat, tid: nat)
    requires IsTrace(tr) && i < |tr.labels| && tr.labels[i] == Run(tid) && RemoveOk(tr, i, tid)
    requires var th := tr.states[i].threads[tid]; th.op.Remove? && (th.pc.LoadVictim? || th.pc.CasMark?)
    ensures RemoveOk(tr, i + 1, tid)
  {
    var th := tr.states[i].threads[tid];
    var c := StepFacts(tr, i, tid, th);
    if Marks(HeapAt(tr, i, th.op.key), th) {
      assert MarksAt(tr, i, tid, th.op.key, th.pc.right);
    }
    hide IsTrace, HeapAt, Off;
  }

  /** An attempt to take the node off succeeds, or another search begins. */
  lemma UnlinkLeads(tr: Trace, i: nat, tid: nat)
    requires IsTrace(tr) && i < |tr.labels| && tr.labels[i] == Run(tid) && tid < |tr.states[i].threads|
    requires tr.states[i].threads[tid].pc.CasUnlink?
    ensures |tr.states| == |tr.labels| + 1 && tid < |tr.states[i + 1].threads|
    ensures var th, th' := tr.states[i].threads[tid], tr.states[i + 1].threads[tid];
            && th'.op == th.op
            && if th'.pc == Done(true) then !Reachable(HeapAt(tr, i + 1, th.op.key), th.pc.right)
               else th'.pc.LoadHead? && PassStart(tr, i + 1, tid) == i + 1
  {
    var th := tr.states[i].threads[tid];
    var c := StepFacts(tr, i, tid, th);
    if HeapAt(tr, i, th.op.key)[th.pc.left].next == Link(th.pc.right, false) {
      UnlinkDone(tr, i, tid);
    }
    hide IsTrace, HeapAt, ListInv, Reachable;
  }

  lemma UnlinkStep(tr: Trace, i: nat, tid: nat)
    requires IsTrace(tr) && i < |tr.labels| && tr.labels[i] == Run(tid) && RemoveOk(tr, i, tid)
    requires var th := tr.states[i].threads[tid]; th.op.Remove? && th.pc.CasUnlink?
    ensures RemoveOk(tr, i + 1, tid)
  {
    hide IsTrace, HeapAt, MarksAt, Marked, Stores, Reachable;
    TraceLength(tr);
    var th := tr.states[i].threads[tid];
    var key, lo, n := th.op.key, CallStart(tr, i, tid), th.pc.right;
    UnlinkLeads(tr, i, tid);
    assert CallStart(tr, i + 1, tid) == lo;
    VictimLater(tr, lo, i, i + 1, tid, key, n);
    var u: nat :| lo <= u < i && MarksAt(tr, u, tid, key, n);
    VictimMarked(tr, u, i + 1, tid, key, n);
    if tr.states[i + 1].threads[tid].pc == Done(true) {
      assert Gone(tr, lo, i + 1, tid, key, n);
    } else {
      assert Victim(tr, CallStart(tr, i + 1, tid), PassStart(tr, i + 1, tid), tid, key, n);
    }
  }

  lemma OwnStep(tr: Trace, i: nat, tid: nat)
    requires IsTrace(tr) && i < |tr.labels| && tr.labels[i] == Run(tid) && RemoveOk(tr, i, tid)
    ensures RemoveOk(tr, i + 1, tid)
  {
    var th := tr.states[i].threads[tid];
    var c := StepFacts(tr, i, tid, th);
    hide IsTrace, HeapAt, Off, Victim, ListInv, RemoveOk, Safe, Advance;
    if !th.op.Remove? {
      NotARemoval(tr, i + 1, tid);
    } else if Searching(th) {
      SearchStep(tr, i, tid);
    } else if th.pc.CasUnlink? {
      UnlinkStep(tr, i, tid);
    } else {
      MarkStep(tr, i, tid);
    }
  }

  lemma NotARemoval(tr: Trace, i: nat, tid: nat)
    requires i < |tr.states| == |tr.labels| + 1 && tid < |tr.states[i].threads| && !tr.states[i].threads[tid].op.Remove?
    ensures RemoveOk(tr, i, tid)
  {
  }

  lemma OtherStep(tr: Trace, i: nat, tid: nat)
    requires IsTrace(tr) && i < |tr.labels| && tr.labels[i].tid != tid && RemoveOk(tr, i, tid)
    ensures RemoveOk(tr, i + 1, tid)
  {
    ThreadKept(tr, i, tid);
    var th := tr.states[i].threads[tid];
    var lo, key := CallStart(tr, i, tid), th.op.key;
    assert CallStart(tr, i + 1, tid) == lo && PassStart(tr, i + 1, tid) == PassStart(tr, i, tid);
    hide IsTrace, Victim, Off;
    if th.pc.CasUnlink? {
      if Victim(tr, lo, i, tid, key, th.pc.right) {
        VictimLater(tr, lo, i, i + 1, tid, key, th.pc.right);
      }
    } else if th.pc.Done? {
      forall n | Gone(tr, lo, i, tid, key, n)
        ensures Gone(tr, lo, i + 1, tid, key, n)
      {
        VictimLater(tr, lo, i, i + 1, tid, key, n);
        StaysOff(tr, i, key, n);
      }
    }
  }

  lemma {:induction false} RemovalsHold(tr: Trace, i: nat, tid: nat)
    requires IsTrace(tr) && i < |tr.states| && tid < |tr.states[0].threads|
    ensures |tr.states| == |tr.labels| + 1 && RemoveOk(tr, i, tid)
  {
    TraceLength(tr);
    if i == 0 {
      assert tr.states[0].threads[tid].pc.Idle?;
    } else {
      RemovalsHold(tr, i - 1, tid);
      if tr.labels[i - 1].tid != tid {
        OtherStep(tr, i - 1, tid);
      } else if tr.labels[i - 1].Run? {
        OwnStep(tr, i - 1, tid);
      } else {
        ThreadKept(tr, i - 1, tid);
        Invoked(tr, i - 1, tid);
      }
    }
  }

  lemma Invoked(tr: Trace, i: nat, tid: nat)
    requires IsTrace(tr) && i < |tr.labels| && tr.labels[i].Invoke? && tr.labels[i].tid == tid
    ensures RemoveOk(tr, i + 1, tid)
  {
    assert Next(tr.states[i], tr.labels[i], tr.states[i + 1]);
  }

  // ---------------------------------------------------------------- main result

  /** Main result: a call to remove that has answered yes marked a node with the key at an instant of the
      call, and from its return on this node is off the list for good. */
  lemma RemovedIsOffForGood(tr: Trace, i: nat, tid: nat) returns (n: nat)
    requires IsTrace(tr) && i < |tr.states| && tid < |tr.states[0].threads| && tid < |tr.states[i].threads|
    requires var th := tr.states[i].threads[tid]; th.op.Remove? && th.pc == Done(true)
    ensures |tr.states| == |tr.labels| + 1
    ensures var key := tr.states[i].threads[tid].op.key;
            && Victim(tr, CallStart(tr, i, tid), i, tid, key, n)
            && forall j :: i <= j < |tr.states| ==> Off(tr, j, key, n)
  {
    RemovalsHold(tr, i, tid);
    var key := tr.states[i].threads[tid].op.key;
    hide IsTrace, Victim, Off;
    n :| Gone(tr, CallStart(tr, i, tid), i, tid, key, n);
    forall j | i <= j < |tr.states|
      ensures Off(tr, j, key, n)
    {
      OffForGood(tr, i, j, key, n);
    }
  }
}
