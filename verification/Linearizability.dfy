/**
  Linearizability of the lock-free map: in every run, each call that returned took effect
  at a single instant between its invocation and its return, with the answer the abstract
  set demands at that instant.
*/
module Linearizability {
  import opened HarrisList
  import opened HarrisThread
  import opened LockFreeMap
  import opened SearchPasses

  /** The number of times thread `tid` changed the abstract set between two instants. */
  ghost function Changes(tr: Trace, lo: nat, hi: nat, tid: nat): nat
    requires lo <= hi <= |tr.labels| && |tr.states| == |tr.labels| + 1
    decreases hi
  {
    if lo == hi then 0
    else Changes(tr, lo, hi - 1, tid)
         + if tr.labels[hi - 1].tid == tid && MapSet(tr.states[hi]) != MapSet(tr.states[hi - 1]) then 1 else 0
  }

  // ---------------------------------------------------------------- what explains a call

  /** `result` is the right answer to `op` on the set of instant `t`, without changing it. */
  ghost predicate AnswerAt(tr: Trace, t: nat, op: Op, result: bool)
    requires t < |tr.states|
  {
    match op
    case Insert(key) => !result && key in MapSet(tr.states[t])
    case Remove(key) => !result && key !in MapSet(tr.states[t])
    case Find(key) => result == (key in MapSet(tr.states[t]))
  }

  /** The step from instant `t` is a step of `tid` that performs the update `op`. */
  ghost predicate EffectAt(tr: Trace, t: nat, tid: nat, op: Op)
    requires t + 1 < |tr.states| && t < |tr.labels|
  {
    && tr.labels[t] == Run(tid)
    && match op
       case Insert(key) => key !in MapSet(tr.states[t]) && MapSet(tr.states[t + 1]) == MapSet(tr.states[t]) + {key}
       case Remove(key) => key in MapSet(tr.states[t]) && MapSet(tr.states[t + 1]) == MapSet(tr.states[t]) - {key}
       case Find(_) => false
  }

  ghost predicate TookEffect(tr: Trace, lo: nat, hi: nat, tid: nat, op: Op)
    requires hi < |tr.states| && |tr.states| == |tr.labels| + 1
  {
    exists t :: lo <= t < hi && EffectAt(tr, t, tid, op)
  }

  ghost predicate Answered(tr: Trace, lo: nat, hi: nat, op: Op, result: bool)
    requires hi < |tr.states|
  {
    exists t :: lo <= t <= hi && AnswerAt(tr, t, op, result)
  }

  /** The call took effect at one instant between its invocation and instant `hi`. */
  ghost predicate Explained(tr: Trace, lo: nat, hi: nat, tid: nat, op: Op, result: bool)
    requires hi < |tr.states| && |tr.states| == |tr.labels| + 1
  {
    if result && !op.Find? then TookEffect(tr, lo, hi, tid, op) else Answered(tr, lo, hi, op, result)
  }

  /** The call has already performed its update. */
  predicate Updated(th: Thread) {
    th.pc.CasUnlink? || (Active(th) && th.cleanup) || (th.pc == Done(true) && !th.op.Find?)
  }

  ghost predicate PcHistory(tr: Trace, lo: nat, i: nat, tid: nat, th: Thread)
    requires i < |tr.states| && |tr.states| == |tr.labels| + 1
  {
    match th.pc
    case Done(result) => Explained(tr, lo, i, tid, th.op, result)
    case _ => true
  }

  ghost predicate History(tr: Trace, i: nat, tid: nat)
    requires i < |tr.states| && |tr.states| == |tr.labels| + 1 && tid < |tr.states[i].threads|
  {
    var th := tr.states[i].threads[tid];
    var lo := CallStart(tr, i, tid);
    !th.pc.Idle? ==>
      && PcHistory(tr, lo, i, tid, th)
      && (Updated(th) ==> TookEffect(tr, lo, i, tid, th.op))
      && Changes(tr, lo, i, tid) == if Updated(th) then 1 else 0
  }

  // ---------------------------------------------------------------- seeing persists

  lemma PcHistoryGrows(tr: Trace, lo: nat, i: nat, tid: nat, th: Thread)
    requires i + 1 < |tr.states| && |tr.states| == |tr.labels| + 1
    requires PcHistory(tr, lo, i, tid, th)
    ensures PcHistory(tr, lo, i + 1, tid, th)
  {
  }

  /** A bracket decides membership at its instant. */
  lemma BracketDecides(tr: Trace, t: nat, left: nat, right: nat, key: int)
    requires IsTrace(tr) && t < |tr.states| && BracketAt(tr, t, left, right, key)
    ensures key in MapSet(tr.states[t]) <==> Stores(HeapAt(tr, t, key), right, key)
  {
    var cs := TraceStateInv(tr, t);
    var b := Home(tr.states[t], key);
    ReachableIffOnChain(HeapAt(tr, t, key), cs[b], left);
    AdjacentDecides(HeapAt(tr, t, key), cs[b], left, right, key);
    InMapSet(tr.states[t], cs, key);
  }

  lemma StoresFixed(tr: Trace, t: nat, i: nat, n: nat, key: int)
    requires IsTrace(tr) && t <= i < |tr.states| && n < |HeapAt(tr, t, key)|
    ensures Stores(HeapAt(tr, t, key), n, key) <==> Stores(HeapAt(tr, i, key), n, key)
  {
    MarkedNodesAreFrozen(tr, t, i, key);
  }

  /** When `search` returns a pair, the caller's decision is right at the bracket's instant. */
  lemma PairDecides(tr: Trace, lo: nat, i: nat, tid: nat, th: Thread, t: nat, left: nat, right: nat)
    requires IsTrace(tr) && i + 1 < |tr.states| && lo <= t <= i + 1
    requires BracketAt(tr, t, left, right, th.op.key)
    requires th.cleanup ==> th.op.Remove? && TookEffect(tr, lo, i, tid, th.op)
    requires right < |HeapAt(tr, i, th.op.key)|
    ensures PcHistory(tr, lo, i + 1, tid, AfterSearch(HeapAt(tr, i, th.op.key), th, left, right))
  {
    var key := th.op.key;
    if th.cleanup {
      var u :| lo <= u < i && EffectAt(tr, u, tid, th.op);
      assert TookEffect(tr, lo, i + 1, tid, th.op);
    } else {
      BracketDecides(tr, t, left, right, key);
      if t <= i {
        StoresFixed(tr, t, i, right, key);
      } else {
        StoresFixed(tr, i, t, right, key);
      }
      var th' := AfterSearch(HeapAt(tr, i, key), th, left, right);
      if th'.pc.Done? {
        assert AnswerAt(tr, t, th.op, th'.pc.result);
      }
    }
  }

  // ---------------------------------------------------------------- one step of the thread itself

  /** The facts about the stepping thread that the history lemmas start from. */
  ghost predicate StepInCall(tr: Trace, lo: nat, i: nat, tid: nat, th: Thread) {
    && Stepping(tr, i, tid, th) && lo <= i
    && (th.cleanup ==> th.op.Remove? && TookEffect(tr, lo, i, tid, th.op))
  }

  lemma RightInRange(h: Heap, c: seq<nat>, th: Thread, l: nat, r: nat)
    requires ListInv(h, c) && LocalInv(h, c, th) && Safe(h, th) && Returns(h, th, l, r)
    ensures r < |h|
  {
  }

  lemma SearchHistory(tr: Trace, i: nat, tid: nat, th: Thread)
    requires i < |tr.labels| && StepInCall(tr, CallStart(tr, i, tid), i, tid, th) && Searching(th)
    ensures tid < |tr.states[i + 1].threads|
    ensures PcHistory(tr, CallStart(tr, i, tid), i + 1, tid, tr.states[i + 1].threads[tid])
  {
    var h := HeapAt(tr, i, th.op.key);
    var c := StepFacts(tr, i, tid, th);
    hide ListInv, LocalInv, Safe, Advance, AfterSearch, HeapAt, BracketAt, Returns, TookEffect, Explained;
    ReturnsWhenLeaving(h, c, th);
    if !Searching(Advance(h, th).1) {
      var l, r :| Returns(h, th, l, r);
      RightInRange(h, c, th, l, r);
      SearchFoundAdjacentNodes(tr, i, tid, l, r);
      var t :| PassStart(tr, i, tid) <= t <= i + 1 && BracketAt(tr, t, l, r, th.op.key);
      PairDecides(tr, CallStart(tr, i, tid), i, tid, th, t, l, r);
    }
  }

  lemma UpdateHistory(tr: Trace, lo: nat, i: nat, tid: nat, th: Thread)
    requires StepInCall(tr, lo, i, tid, th)
    requires th.pc.StoreFresh? || th.pc.CasLink? || th.pc.LoadVictim? || th.pc.CasMark? || th.pc.CasUnlink?
    requires th.pc.CasUnlink? ==> TookEffect(tr, lo, i, tid, th.op)
    ensures tid < |tr.states[i + 1].threads| && PcHistory(tr, lo, i + 1, tid, tr.states[i + 1].threads[tid])
  {
    var h := HeapAt(tr, i, th.op.key);
    var c := StepFacts(tr, i, tid, th);
    if Links(h, th) {
      var cs := TraceStateInv(tr, i);
      SetChangesOnlyAtCas(tr.states[i], tr.labels[i], tr.states[i + 1], cs);
      assert EffectAt(tr, i, tid, th.op);
    } else if th.pc.CasUnlink? {
      var u :| lo <= u < i && EffectAt(tr, u, tid, th.op);
      assert TookEffect(tr, lo, i + 1, tid, th.op);
    }
  }

  /** The thread's own step keeps its history and its count of set changes. */
  lemma OwnStepHistory(tr: Trace, i: nat, tid: nat)
    requires IsTrace(tr) && i < |tr.labels| && tr.labels[i] == Run(tid)
    requires tid < |tr.states[i].threads| && History(tr, i, tid)
    ensures tid < |tr.states[i + 1].threads| && History(tr, i + 1, tid)
  {
    var th := tr.states[i].threads[tid];
    var lo := CallStart(tr, i, tid);
    var cs := TraceStateInv(tr, i);
    assert ThreadOk(tr.states[i], cs, tid);
    assert Next(tr.states[i], tr.labels[i], tr.states[i + 1]);
    if th.cleanup {
      assert Updated(th);
    }
    if Searching(th) {
      SearchHistory(tr, i, tid, th);
    } else {
      UpdateHistory(tr, lo, i, tid, th);
    }
    OwnStepCount(tr, lo, i, tid, th);
  }

  /** A step makes its call an updated one exactly when it links or marks. */
  lemma UpdatedMoves(h: Heap, c: seq<nat>, th: Thread)
    requires LocalInv(h, c, th) && Active(th) && Safe(h, th)
    ensures Advance(h, th).1.op == th.op
    ensures Updated(Advance(h, th).1) <==> Updated(th) || Links(h, th) || Marks(h, th)
    ensures Updated(th) ==> !Links(h, th) && !Marks(h, th)
  {
  }

  lemma OwnStepCount(tr: Trace, lo: nat, i: nat, tid: nat, th: Thread)
    requires StepInCall(tr, lo, i, tid, th)
    requires Updated(th) ==> TookEffect(tr, lo, i, tid, th.op)
    requires Changes(tr, lo, i, tid) == if Updated(th) then 1 else 0
    ensures tid < |tr.states[i + 1].threads|
    ensures var th' := tr.states[i + 1].threads[tid];
            && (Updated(th') ==> TookEffect(tr, lo, i + 1, tid, th'.op))
            && Changes(tr, lo, i + 1, tid) == if Updated(th') then 1 else 0
  {
    var h := HeapAt(tr, i, th.op.key);
    var cs := TraceStateInv(tr, i);
    var c := StepFacts(tr, i, tid, th);
    UpdatedMoves(h, c, th);
    SetChangesOnlyAtCas(tr.states[i], tr.labels[i], tr.states[i + 1], cs);
    if Links(h, th) || Marks(h, th) {
      assert EffectAt(tr, i, tid, th.op);
    } else if Updated(th) {
      var u :| lo <= u < i && EffectAt(tr, u, tid, th.op);
      assert TookEffect(tr, lo, i + 1, tid, th.op);
    }
  }

  /** Steps of other threads keep the history. */
  lemma OtherStepHistory(tr: Trace, i: nat, tid: nat)
    requires IsTrace(tr) && i < |tr.labels| && tr.labels[i].tid != tid
    requires tid < |tr.states[i].threads| && History(tr, i, tid)
    ensures tid < |tr.states[i + 1].threads| && History(tr, i + 1, tid)
  {
    var th := tr.states[i].threads[tid];
    var lo := CallStart(tr, i, tid);
    var cs := TraceStateInv(tr, i);
    var c', own := StepBucket(tr.states[i], tr.labels[i], tr.states[i + 1], cs);
    if !th.pc.Idle? {
      PcHistoryGrows(tr, lo, i, tid, th);
      if Updated(th) {
        var u :| lo <= u < i && EffectAt(tr, u, tid, th.op);
        assert TookEffect(tr, lo, i + 1, tid, th.op);
      }
    }
  }

  lemma InvokeHistory(tr: Trace, i: nat, tid: nat)
    requires IsTrace(tr) && i < |tr.labels| && tr.labels[i].Invoke? && tr.labels[i].tid == tid
    ensures tid < |tr.states[i + 1].threads| && History(tr, i + 1, tid)
  {
    assert CallStart(tr, i + 1, tid) == i + 1;
  }

  lemma {:induction false} HistoryHolds(tr: Trace, i: nat, tid: nat)
    requires IsTrace(tr) && i < |tr.states| && tid < |tr.states[0].threads|
    ensures tid < |tr.states[i].threads| && History(tr, i, tid)
  {
    if i > 0 {
      HistoryHolds(tr, i - 1, tid);
      if tr.labels[i - 1].tid != tid {
        OtherStepHistory(tr, i - 1, tid);
      } else if tr.labels[i - 1].Invoke? {
        InvokeHistory(tr, i - 1, tid);
      } else {
        OwnStepHistory(tr, i - 1, tid);
      }
    }
  }

  // ---------------------------------------------------------------- main results

  /** Every call that has returned is explained by one instant of the call: a successful
      insert or remove by its own step that adds or removes the key, any other answer by an
      instant at which it is right. A successful update changed the set exactly once, every
      other call never did. */
  lemma CallsAreLinearizable(tr: Trace, i: nat, tid: nat)
    requires IsTrace(tr) && i < |tr.states| && tid < |tr.states[i].threads| && tr.states[i].threads[tid].pc.Done?
    ensures var th := tr.states[i].threads[tid];
            var lo := CallStart(tr, i, tid);
            && Explained(tr, lo, i, tid, th.op, th.pc.result)
            && Changes(tr, lo, i, tid) == if th.pc.result && !th.op.Find? then 1 else 0
  {
    var cs := TraceStateInv(tr, i);
    HistoryHolds(tr, i, tid);
  }
}
