/**
  Progress of the lock-free map: a search starts over, and an insert or remove tries again,
  only if another thread has changed the same list since the pass began. So in every run the
  passes of a call are paid for by successful compare-and-swaps of other threads.
*/
module LockFreedom {
  import opened HarrisList
  import opened HarrisThread
  import opened LockFreeMap
  import opened SearchPasses

  /** The step is a compare-and-swap that succeeds: it links, marks, bypasses or unlinks. */
  predicate CasSucceeds(h: Heap, th: Thread) {
    || Links(h, th) || Marks(h, th)
    || (th.pc.CasBypass? && th.pc.left < |h| && h[th.pc.left].next == th.pc.leftNext)
    || (th.pc.CasUnlink? && th.pc.left < |h| && h[th.pc.left].next == Link(th.pc.right, false))
  }

  /** At instant `u` a thread other than `tid` changes the list of `key`. */
  predicate DisturbedAt(tr: Trace, u: nat, tid: nat, key: int) {
    && u < |tr.labels| && u < |tr.states| && |tr.states[u].buckets| > 0
    && tr.labels[u].Run? && tr.labels[u].tid != tid && tr.labels[u].tid < |tr.states[u].threads|
    && var th := tr.states[u].threads[tr.labels[u].tid];
       Home(tr.states[u], th.op.key) == Home(tr.states[u], key) && CasSucceeds(HeapAt(tr, u, key), th)
  }

  predicate Disturbed(tr: Trace, lo: nat, hi: nat, tid: nat, key: int) {
    exists u :: lo <= u < hi && DisturbedAt(tr, u, tid, key)
  }

  // ---------------------------------------------------------------- what an undisturbed pass relies on

  /** Everything the pass has read is still so. */
  predicate Intact(h: Heap, th: Thread) {
    match th.pc
    case LoadNext(_, left, leftNext) => Has(h, left, leftNext)
    case LoadRight(left, right) => Has(h, left, Link(right, false)) && !Marked(h, right)
    case CasBypass(left, leftNext, right) => Has(h, left, leftNext) && !Marked(h, right)
    case StoreFresh(left, right) => Has(h, left, Link(right, false))
    case CasLink(left, right) => Has(h, left, Link(right, false))
    case LoadVictim(left, right) => Has(h, left, Link(right, false)) && !Marked(h, right)
    case CasMark(left, right, rightNext) => Has(h, left, Link(right, false)) && Has(h, right, rightNext)
    case CasUnlink(left, right, _) => Has(h, left, Link(right, false))
    case _ => true
  }

  predicate Has(h: Heap, n: nat, l: Link) {
    n < |h| && h[n].next == l
  }

  /** A thread that finds everything as it left it does not start over. */
  lemma OwnStepIntact(h: Heap, c: seq<nat>, th: Thread)
    requires ListInv(h, c) && LocalInv(h, c, th) && Active(th) && Safe(h, th) && Intact(h, th)
    ensures Intact(Advance(h, th).0, Advance(h, th).1) && !Advance(h, th).1.pc.LoadHead?
  {
    hide ListInv, LocalInv, Safe, Advance, Intact;
    if th.pc.LoadHead? {
      HeadVisitIntact(h, c, th);
    } else if th.pc.LoadNext? {
      VisitIntact(h, c, th);
    } else if th.pc.LoadRight? || th.pc.LoadVictim? {
      LoadIntact(h, c, th);
    } else {
      WriteIntact(h, c, th);
    }
  }

  lemma HeadVisitIntact(h: Heap, c: seq<nat>, th: Thread)
    requires ListInv(h, c) && Safe(h, th) && th.pc.LoadHead?
    ensures Intact(Advance(h, th).0, Advance(h, th).1) && !Advance(h, th).1.pc.LoadHead?
  {
    assert !Marked(h, HEAD) && !Marked(h, TAIL);
    hide ListInv;
  }

  lemma VisitIntact(h: Heap, c: seq<nat>, th: Thread)
    requires ListInv(h, c) && LocalInv(h, c, th) && Safe(h, th) && Intact(h, th)
    requires th.pc.LoadNext?
    ensures Intact(Advance(h, th).0, Advance(h, th).1) && !Advance(h, th).1.pc.LoadHead?
  {
    assert !Marked(h, HEAD) && !Marked(h, TAIL);
    hide ListInv, LocalInv;
  }

  lemma LoadIntact(h: Heap, c: seq<nat>, th: Thread)
    requires ListInv(h, c) && LocalInv(h, c, th) && Safe(h, th) && Intact(h, th)
    requires th.pc.LoadRight? || th.pc.LoadVictim?
    ensures Intact(Advance(h, th).0, Advance(h, th).1) && !Advance(h, th).1.pc.LoadHead?
  {
  }

  lemma WriteIntact(h: Heap, c: seq<nat>, th: Thread)
    requires ListInv(h, c) && LocalInv(h, c, th) && Active(th) && Safe(h, th) && Intact(h, th)
    requires !(th.pc.LoadHead? || th.pc.LoadNext? || th.pc.LoadRight? || th.pc.LoadVictim?)
    ensures Intact(Advance(h, th).0, Advance(h, th).1) && !Advance(h, th).1.pc.LoadHead?
  {
  }

  /** No node that was ever linked has changed. */
  ghost predicate SameLinks(h: Heap, c: seq<nat>, h': Heap) {
    |h| <= |h'| && forall n: nat :: n < |h| && Linked(h, c, n) ==> h'[n] == h[n]
  }

  /** Without a successful compare-and-swap, a step changes at most a private node. */
  lemma QuietStep(h: Heap, c: seq<nat>, th: Thread)
    requires ListInv(h, c) && LocalInv(h, c, th) && Active(th) && Safe(h, th) && !CasSucceeds(h, th)
    ensures SameLinks(h, c, Advance(h, th).0)
  {
  }

  lemma IntactKept(h: Heap, c: seq<nat>, h': Heap, th: Thread)
    requires ListInv(h, c) && LocalInv(h, c, th) && SameLinks(h, c, h') && Intact(h, th)
    ensures Intact(h', th)
  {
  }

  // ---------------------------------------------------------------- whole runs

  /** Unless it was disturbed, the pass a thread is in still finds everything as it left it. */
  ghost predicate PassIntact(tr: Trace, i: nat, tid: nat)
    requires i < |tr.states| == |tr.labels| + 1 && tid < |tr.states[i].threads|
  {
    var th := tr.states[i].threads[tid];
    Active(th) ==> Disturbed(tr, PassStart(tr, i, tid), i, tid, th.op.key) || Intact(HeapAt(tr, i, th.op.key), th)
  }

  lemma DisturbedGrows(tr: Trace, lo: nat, i: nat, tid: nat, key: int)
    requires lo <= i
    ensures Disturbed(tr, lo, i + 1, tid, key) <==> Disturbed(tr, lo, i, tid, key) || DisturbedAt(tr, i, tid, key)
  {
  }

  lemma OwnStepPass(tr: Trace, i: nat, tid: nat)
    requires IsTrace(tr) && i < |tr.labels| && tr.labels[i] == Run(tid)
    requires tid < |tr.states[i].threads| && PassIntact(tr, i, tid)
    ensures tid < |tr.states[i + 1].threads| && PassIntact(tr, i + 1, tid)
    ensures AtHead(tr.states[i + 1], tid) ==>
              Disturbed(tr, PassStart(tr, i, tid), i, tid, tr.states[i].threads[tid].op.key)
  {
    var th := tr.states[i].threads[tid];
    var c := StepFacts(tr, i, tid, th);
    hide IsTrace, HeapAt, ListInv, LocalInv, Safe, Advance, Intact, Disturbed;
    DisturbedGrows(tr, PassStart(tr, i, tid), i, tid, th.op.key);
    if Intact(HeapAt(tr, i, th.op.key), th) {
      OwnStepIntact(HeapAt(tr, i, th.op.key), c, th);
    }
    HeadIntact(HeapAt(tr, i + 1, th.op.key), tr.states[i + 1].threads[tid]);
  }

  lemma HeadIntact(h: Heap, th: Thread)
    ensures th.pc.LoadHead? ==> Intact(h, th)
  {
  }

  /** A step of another thread: it disturbs the pass or leaves all linked nodes alone. */
  lemma OtherStepLinks(tr: Trace, i: nat, tid: nat, th: Thread) returns (c: seq<nat>)
    requires IsTrace(tr) && i < |tr.labels| && tr.labels[i].tid != tid
    requires tid < |tr.states[i].threads| && th == tr.states[i].threads[tid]
    ensures var h := HeapAt(tr, i, th.op.key); ListInv(h, c) && LocalInv(h, c, th)
    ensures DisturbedAt(tr, i, tid, th.op.key) || SameLinks(HeapAt(tr, i, th.op.key), c, HeapAt(tr, i + 1, th.op.key))
  {
    var s, l := tr.states[i], tr.labels[i];
    var cs := TraceStateInv(tr, i);
    var c', own := StepBucket(s, l, tr.states[i + 1], cs);
    assert Next(s, l, tr.states[i + 1]);
    assert ThreadOk(s, cs, tid) && ThreadOk(s, cs, l.tid);
    c := cs[Home(s, th.op.key)];
    hide ListInv, LocalInv, Safe, Advance, StateInv, Evolves;
    if l.Run? && Home(s, s.threads[l.tid].op.key) == Home(s, th.op.key) {
      if !CasSucceeds(HeapAt(tr, i, th.op.key), s.threads[l.tid]) {
        QuietStep(HeapAt(tr, i, th.op.key), c, s.threads[l.tid]);
      }
    }
  }

  lemma OtherStepPass(tr: Trace, i: nat, tid: nat)
    requires IsTrace(tr) && i < |tr.labels| && tr.labels[i].tid != tid
    requires tid < |tr.states[i].threads| && PassIntact(tr, i, tid)
    ensures tid < |tr.states[i + 1].threads| && PassIntact(tr, i + 1, tid)
  {
    var th := tr.states[i].threads[tid];
    ThreadKept(tr, i, tid);
    var c := OtherStepLinks(tr, i, tid, th);
    hide IsTrace, HeapAt, ListInv, LocalInv, Intact, Disturbed, DisturbedAt, SameLinks;
    DisturbedGrows(tr, PassStart(tr, i, tid), i, tid, th.op.key);
    if Intact(HeapAt(tr, i, th.op.key), th) && !DisturbedAt(tr, i, tid, th.op.key) {
      IntactKept(HeapAt(tr, i, th.op.key), c, HeapAt(tr, i + 1, th.op.key), th);
    }
  }

  lemma {:induction false} PassesIntact(tr: Trace, i: nat, tid: nat)
    requires IsTrace(tr) && i < |tr.states| && tid < |tr.states[0].threads|
    ensures tid < |tr.states[i].threads| && PassIntact(tr, i, tid)
  {
    hide Intact, Disturbed, Next;
    if i == 0 {
      assert tr.states[0].threads[tid].pc.Idle?;
    } else {
      PassesIntact(tr, i - 1, tid);
      ThreadKept(tr, i - 1, tid);
      if tr.labels[i - 1].tid != tid {
        OtherStepPass(tr, i - 1, tid);
      } else if tr.labels[i - 1].Run? {
        OwnStepPass(tr, i - 1, tid);
      } else {
        HeadIntact(HeapAt(tr, i, tr.states[i].threads[tid].op.key), tr.states[i].threads[tid]);
      }
    }
  }

  /** Main result: a step goes back to the head of the list, in whatever operation and for
      whatever reason, only if another thread changed this list since the pass began. */
  lemma RetryWasDisturbed(tr: Trace, i: nat, tid: nat)
    requires IsTrace(tr) && i < |tr.labels| && tr.labels[i] == Run(tid) && AtHead(tr.states[i + 1], tid)
    ensures tid < |tr.states[i].threads|
    ensures Disturbed(tr, PassStart(tr, i, tid), i, tid, tr.states[i].threads[tid].op.key)
  {
    var cs := TraceStateInv(tr, i);
    assert Next(tr.states[i], tr.labels[i], tr.states[i + 1]);
    PassesIntact(tr, i, tid);
    OwnStepPass(tr, i, tid);
  }

  // ---------------------------------------------------------------- counting

  /** How often thread `tid` went back to the head between two instants. */
  function Retries(tr: Trace, lo: nat, hi: nat, tid: nat): nat
    requires lo <= hi < |tr.states| == |tr.labels| + 1
    decreases hi
  {
    if lo == hi then 0
    else Retries(tr, lo, hi - 1, tid) + if tr.labels[hi - 1] == Run(tid) && AtHead(tr.states[hi], tid) then 1 else 0
  }

  /** How often other threads changed the list of `key` between two instants. */
  function Disturbances(tr: Trace, lo: nat, hi: nat, tid: nat, key: int): nat
    requires lo <= hi
    decreases hi
  {
    if lo == hi then 0
    else Disturbances(tr, lo, hi - 1, tid, key) + if DisturbedAt(tr, hi - 1, tid, key) then 1 else 0
  }

  lemma {:induction false} DisturbancesGrow(tr: Trace, lo: nat, mid: nat, hi: nat, tid: nat, key: int)
    requires lo <= mid <= hi
    ensures Disturbances(tr, lo, hi, tid, key) >= Disturbances(tr, lo, mid, tid, key)
              + if Disturbed(tr, mid, hi, tid, key) then 1 else 0
    decreases hi
  {
    hide DisturbedAt;
    if mid < hi {
      DisturbancesGrow(tr, lo, mid, hi - 1, tid, key);
    }
  }

  /** How the starts of call and pass and the count of retries move in one step. */
  lemma StartsMove(tr: Trace, i: nat, tid: nat)
    requires i + 1 < |tr.states| == |tr.labels| + 1
    ensures var invoked := tr.labels[i].Invoke? && tr.labels[i].tid == tid;
            var begins := tr.labels[i].tid == tid && AtHead(tr.states[i + 1], tid);
            && CallStart(tr, i + 1, tid) == (if invoked then i + 1 else CallStart(tr, i, tid))
            && PassStart(tr, i + 1, tid) == (if begins then i + 1 else PassStart(tr, i, tid))
            && Retries(tr, CallStart(tr, i + 1, tid), i + 1, tid)
               == (if invoked then 0 else Retries(tr, CallStart(tr, i, tid), i, tid) + if begins then 1 else 0)
  {
  }

  /** Each retry is charged to a disturbance of the pass it ends. */
  predicate Charged(tr: Trace, i: nat, tid: nat)
    requires i < |tr.states| == |tr.labels| + 1 && tid < |tr.states[i].threads|
  {
    var lo, pass := CallStart(tr, i, tid), PassStart(tr, i, tid);
    lo <= pass && Retries(tr, lo, i, tid) <= Disturbances(tr, lo, pass, tid, tr.states[i].threads[tid].op.key)
  }

  /** A step that goes back to the head. */
  lemma RetryCharged(tr: Trace, i: nat, tid: nat)
    requires IsTrace(tr) && i + 1 < |tr.states| && tid < |tr.states[i].threads| && Charged(tr, i, tid)
    requires tr.labels[i] == Run(tid) && AtHead(tr.states[i + 1], tid)
    ensures Charged(tr, i + 1, tid)
  {
    hide IsTrace, Disturbed, DisturbedAt, Disturbances, Retries, CallStart, PassStart, AtHead;
    TraceLength(tr);
    var key, lo, pass := tr.states[i].threads[tid].op.key, CallStart(tr, i, tid), PassStart(tr, i, tid);
    ThreadKept(tr, i, tid);
    StartsMove(tr, i, tid);
    RetryWasDisturbed(tr, i, tid);
    DisturbancesGrow(tr, lo, pass, i, tid, key);
    DisturbancesGrow(tr, lo, i, i + 1, tid, key);
  }

  lemma StepCharged(tr: Trace, i: nat, tid: nat)
    requires IsTrace(tr) && i + 1 < |tr.states| && tid < |tr.states[i].threads| && Charged(tr, i, tid)
    ensures tid < |tr.states[i + 1].threads| && Charged(tr, i + 1, tid)
  {
    hide IsTrace, Disturbances, Retries, CallStart, PassStart;
    TraceLength(tr);
    ThreadKept(tr, i, tid);
    if tr.labels[i] == Run(tid) && AtHead(tr.states[i + 1], tid) {
      RetryCharged(tr, i, tid);
    } else {
      StartsMove(tr, i, tid);
    }
  }

  lemma {:induction false} RetriesCharged(tr: Trace, i: nat, tid: nat)
    requires IsTrace(tr) && i < |tr.states| && tid < |tr.states[0].threads|
    ensures tid < |tr.states[i].threads| && Charged(tr, i, tid)
  {
    if i > 0 {
      hide Charged, Next, Init;
      RetriesCharged(tr, i - 1, tid);
      StepCharged(tr, i - 1, tid);
    }
  }

  /** Main result: in every run, a call goes back to the head at most as often as other threads
      changed its list while it was under way. */
  lemma RetriesAreBounded(tr: Trace, i: nat, tid: nat)
    requires IsTrace(tr) && i < |tr.states| && tid < |tr.states[i].threads|
    ensures var lo := CallStart(tr, i, tid);
            Retries(tr, lo, i, tid) <= Disturbances(tr, lo, i, tid, tr.states[i].threads[tid].op.key)
  {
    var cs := TraceStateInv(tr, i);
    RetriesCharged(tr, i, tid);
    DisturbancesGrow(tr, CallStart(tr, i, tid), PassStart(tr, i, tid), i, tid, tr.states[i].threads[tid].op.key);
  }
}
