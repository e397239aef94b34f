/**
  One total order of all calls of a run of the lock-free map. It is a legal sequential history of
  a set, every call that returned is in it once and with its answer, and a call that returned
  before another one was invoked precedes it. Calls that have taken effect without having returned
  yet are in it too.
*/
module SequentialHistory {
  import opened HarrisThread
  import opened LockFreeMap
  import opened SearchPasses
  import opened Linearizability

  // ---------------------------------------------------------------- sequential histories of a set

  /** A call of thread `tid` that started at state `start`, placed at instant `at`. */
  datatype Call = Call(tid: nat, start: nat, op: Op, result: bool, at: nat)

  function Apply(s: set<int>, op: Op): set<int> {
    match op
    case Insert(key) => s + {key}
    case Remove(key) => s - {key}
    case Find(_) => s
  }

  /** The answer a set gives. */
  predicate Right(s: set<int>, op: Op, result: bool) {
    match op
    case Insert(key) => result == (key !in s)
    case Remove(key) => result == (key in s)
    case Find(key) => result == (key in s)
  }

  function ApplyAll(s: set<int>, calls: seq<Call>): set<int> {
    if calls == [] then s else Apply(ApplyAll(s, calls[..|calls| - 1]), calls[|calls| - 1].op)
  }

  /** Made one after the other, starting from `s`, all calls get the answers they have. */
  predicate Legal(s: set<int>, calls: seq<Call>) {
    calls == [] ||
    (var n := |calls| - 1;
     Legal(s, calls[..n]) && Right(ApplyAll(s, calls[..n]), calls[n].op, calls[n].result))
  }

  lemma LegalNext(s: set<int>, calls: seq<Call>, c: Call)
    requires Legal(s, calls) && Right(ApplyAll(s, calls), c.op, c.result)
    ensures Legal(s, calls + [c]) && ApplyAll(s, calls + [c]) == Apply(ApplyAll(s, calls), c.op)
  {
    assert (calls + [c])[..|calls|] == calls;
  }

  // ---------------------------------------------------------------- calls of a run

  /** With step `i` a call returns. */
  predicate ReturnsAt(tr: Trace, i: nat) {
    && i < |tr.labels| && i + 1 < |tr.states| && tr.labels[i].Run?
    && tr.labels[i].tid < |tr.states[i + 1].threads| && tr.states[i + 1].threads[tr.labels[i].tid].pc.Done?
  }

  /** The thread that returns. */
  function Returned(tr: Trace, i: nat): Thread
    requires ReturnsAt(tr, i)
  {
    tr.states[i + 1].threads[tr.labels[i].tid]
  }

  /** The call that returns does so without having changed the set. */
  predicate AnswersOnly(tr: Trace, i: nat) {
    ReturnsAt(tr, i) && !(Returned(tr, i).pc.result && !Returned(tr, i).op.Find?)
  }

  /** An instant inside the call at which its answer is right. */
  ghost function AnswerPoint(tr: Trace, i: nat): (t: nat)
    requires IsTrace(tr) && AnswersOnly(tr, i)
    ensures CallStart(tr, i + 1, tr.labels[i].tid) <= t <= i + 1
    ensures AnswerAt(tr, t, Returned(tr, i).op, Returned(tr, i).pc.result)
  {
    CallsAreLinearizable(tr, i + 1, tr.labels[i].tid);
    var t :| CallStart(tr, i + 1, tr.labels[i].tid) <= t <= i + 1
             && AnswerAt(tr, t, Returned(tr, i).op, Returned(tr, i).pc.result);
    t
  }

  ghost predicate ChangesSet(tr: Trace, i: nat) {
    i < |tr.labels| && i + 1 < |tr.states| && MapSet(tr.states[i + 1]) != MapSet(tr.states[i])
  }

  /** The thread that changes the set. */
  function Stepper(tr: Trace, i: nat): Thread
    requires i < |tr.labels| && i < |tr.states| && tr.labels[i].tid < |tr.states[i].threads|
  {
    tr.states[i].threads[tr.labels[i].tid]
  }

  /** A step that changes the set performs the update of its call. */
  lemma ChangeIsEffect(tr: Trace, i: nat)
    requires IsTrace(tr) && ChangesSet(tr, i)
    ensures tr.labels[i].tid < |tr.states[i].threads| && tr.labels[i].Run? && Active(Stepper(tr, i))
    ensures EffectAt(tr, i, tr.labels[i].tid, Stepper(tr, i).op)
  {
    var cs := TraceStateInv(tr, i);
    assert Next(tr.states[i], tr.labels[i], tr.states[i + 1]);
    SetChangesOnlyAtCas(tr.states[i], tr.labels[i], tr.states[i + 1], cs);
    assert ThreadOk(tr.states[i], cs, tr.labels[i].tid);
  }

  // ---------------------------------------------------------------- starts of calls

  lemma {:induction false} StartWithin(tr: Trace, t: nat, i: nat, tid: nat)
    requires i <= |tr.labels| && CallStart(tr, i, tid) <= t <= i
    ensures CallStart(tr, t, tid) == CallStart(tr, i, tid)
    decreases i
  {
    if t < i {
      StartWithin(tr, t, i - 1, tid);
    }
  }

  lemma IdleAtStart(tr: Trace, tid: nat)
    requires IsTrace(tr) && tid < |tr.states[0].threads|
    ensures tr.states[0].threads[tid].pc.Idle?
  {
    hide Next;
  }

  /** A call that is under way or done was so before this step, or starts with it. */
  lemma CallGoesOn(tr: Trace, i: nat, tid: nat)
    requires IsTrace(tr) && i < |tr.labels| && tid < |tr.states[i + 1].threads|
    requires !tr.states[i + 1].threads[tid].pc.Idle?
    ensures tid < |tr.states[i].threads|
    ensures var th, th', l := tr.states[i].threads[tid], tr.states[i + 1].threads[tid], tr.labels[i];
            if l.Invoke? && l.tid == tid then th'.op == l.op else !th.pc.Idle? && th'.op == th.op
  {
    var cs := TraceStateInv(tr, i);
    assert Next(tr.states[i], tr.labels[i], tr.states[i + 1]);
    var c', own := StepBucket(tr.states[i], tr.labels[i], tr.states[i + 1], cs);
    hide StateInv, LocalInv, SetMoves, Safe;
  }

  lemma {:induction false} StartIsInvocation(tr: Trace, i: nat, tid: nat)
    requires IsTrace(tr) && i < |tr.states| && tid < |tr.states[i].threads| && !tr.states[i].threads[tid].pc.Idle?
    ensures 0 < CallStart(tr, i, tid)
    ensures tr.labels[CallStart(tr, i, tid) - 1] == Invoke(tid, tr.states[i].threads[tid].op)
  {
    hide IsTrace;
    TraceLength(tr);
    if i == 0 {
      IdleAtStart(tr, tid);
    } else {
      CallGoesOn(tr, i - 1, tid);
      if !(tr.labels[i - 1].Invoke? && tr.labels[i - 1].tid == tid) {
        StartIsInvocation(tr, i - 1, tid);
      }
    }
  }

  /** A call that has returned makes no further step. */
  lemma {:induction false} DoneStays(tr: Trace, i: nat, j: nat, tid: nat)
    requires IsTrace(tr) && i <= j < |tr.states| && tid < |tr.states[i].threads| && tr.states[i].threads[tid].pc.Done?
    requires CallStart(tr, j, tid) <= i
    ensures tid < |tr.states[j].threads| && tr.states[j].threads[tid].pc.Done?
    decreases j
  {
    if i < j {
      DoneStays(tr, i, j - 1, tid);
      ThreadKept(tr, j - 1, tid);
      assert Next(tr.states[j - 1], tr.labels[j - 1], tr.states[j]);
    }
  }

  // ---------------------------------------------------------------- the order

  /** The call that returns with step `i`, placed at its instant. */
  ghost function AnswerCall(tr: Trace, i: nat): Call
    requires IsTrace(tr) && AnswersOnly(tr, i)
  {
    var tid := tr.labels[i].tid;
    Call(tid, CallStart(tr, i + 1, tid), Returned(tr, i).op, Returned(tr, i).pc.result, AnswerPoint(tr, i))
  }

  /** The call that changes the set with step `i`, placed behind this step. */
  ghost function EffectCall(tr: Trace, i: nat): Call
    requires IsTrace(tr) && ChangesSet(tr, i)
  {
    ChangeIsEffect(tr, i);
    var tid := tr.labels[i].tid;
    Call(tid, CallStart(tr, i, tid), Stepper(tr, i).op, true, i + 1)
  }

  /** The calls that return with one of the first `n` steps and have their instant at `t`. */
  ghost function Answers(tr: Trace, t: nat, n: nat): seq<Call>
    requires IsTrace(tr)
  {
    if n == 0 then []
    else Answers(tr, t, n - 1)
         + if AnswersOnly(tr, n - 1) && AnswerPoint(tr, n - 1) == t then [AnswerCall(tr, n - 1)] else []
  }

  ghost function Effects(tr: Trace, i: nat): seq<Call>
    requires IsTrace(tr)
  {
    if ChangesSet(tr, i) then [EffectCall(tr, i)] else []
  }

  /** All calls with an instant up to `t`, in the order of their instants. */
  ghost function OrderUpTo(tr: Trace, t: nat): seq<Call>
    requires IsTrace(tr)
  {
    (if t == 0 then [] else OrderUpTo(tr, t - 1) + Effects(tr, t - 1)) + Answers(tr, t, |tr.labels|)
  }

  ghost function TotalOrder(tr: Trace): seq<Call>
    requires IsTrace(tr)
  {
    OrderUpTo(tr, |tr.labels|)
  }

  // ---------------------------------------------------------------- it is legal

  lemma {:induction false} AnswersLegal(tr: Trace, t: nat, n: nat, before: seq<Call>)
    requires IsTrace(tr) && t < |tr.states| && n <= |tr.labels|
    requires Legal({}, before) && ApplyAll({}, before) == MapSet(tr.states[t])
    ensures Legal({}, before + Answers(tr, t, n)) && ApplyAll({}, before + Answers(tr, t, n)) == MapSet(tr.states[t])
  {
    hide IsTrace, MapSet, AnswersOnly, Legal, ApplyAll;
    if n == 0 {
      assert before + [] == before;
    } else {
      AnswersLegal(tr, t, n - 1, before);
      var calls := before + Answers(tr, t, n - 1);
      if AnswersOnly(tr, n - 1) && AnswerPoint(tr, n - 1) == t {
        var c := AnswerCall(tr, n - 1);
        LegalNext({}, calls, c);
        assert before + Answers(tr, t, n) == calls + [c];
      } else {
        assert before + Answers(tr, t, n) == calls;
      }
    }
  }

  lemma EffectsLegal(tr: Trace, i: nat, before: seq<Call>)
    requires IsTrace(tr) && i < |tr.labels|
    requires Legal({}, before) && ApplyAll({}, before) == MapSet(tr.states[i])
    ensures Legal({}, before + Effects(tr, i)) && ApplyAll({}, before + Effects(tr, i)) == MapSet(tr.states[i + 1])
  {
    hide MapSet, Legal, ApplyAll, CallStart;
    if ChangesSet(tr, i) {
      ChangeIsEffect(tr, i);
      LegalNext({}, before, EffectCall(tr, i));
    } else {
      assert before + [] == before;
    }
  }

  lemma StartLegal(tr: Trace)
    requires IsTrace(tr)
    ensures Legal({}, []) && ApplyAll({}, []) == MapSet(tr.states[0])
  {
    InitInv(tr.states[0]);
  }

  lemma {:induction false} OrderLegal(tr: Trace, t: nat)
    requires IsTrace(tr) && t < |tr.states|
    ensures Legal({}, OrderUpTo(tr, t)) && ApplyAll({}, OrderUpTo(tr, t)) == MapSet(tr.states[t])
  {
    hide IsTrace, MapSet, Legal, ApplyAll, Effects, Answers;
    TraceLength(tr);
    if t == 0 {
      StartLegal(tr);
      AnswersLegal(tr, 0, |tr.labels|, []);
      assert OrderUpTo(tr, 0) == [] + Answers(tr, 0, |tr.labels|);
    } else {
      OrderLegal(tr, t - 1);
      EffectsLegal(tr, t - 1, OrderUpTo(tr, t - 1));
      AnswersLegal(tr, t, |tr.labels|, OrderUpTo(tr, t - 1) + Effects(tr, t - 1));
    }
  }

  // ---------------------------------------------------------------- every call that returned is in it

  lemma {:induction false} AnswerListed(tr: Trace, i: nat, n: nat)
    requires IsTrace(tr) && AnswersOnly(tr, i) && i < n <= |tr.labels|
    ensures AnswerCall(tr, i) in Answers(tr, AnswerPoint(tr, i), n)
    decreases n
  {
    if i < n - 1 {
      AnswerListed(tr, i, n - 1);
    }
  }

  lemma {:induction false} OrderGrows(tr: Trace, t: nat, t': nat, c: Call)
    requires IsTrace(tr) && t <= t' && c in OrderUpTo(tr, t)
    ensures c in OrderUpTo(tr, t')
    decreases t'
  {
    hide IsTrace, Answers, Effects;
    if t < t' {
      OrderGrows(tr, t, t' - 1, c);
      assert OrderUpTo(tr, t') == OrderUpTo(tr, t' - 1) + Effects(tr, t' - 1) + Answers(tr, t', |tr.labels|);
    }
  }

  /** The thread and the answer are those of the call that returns with step `i`, and the instant
      lies inside this call. */
  ghost predicate StandsFor(tr: Trace, i: nat, c: Call)
    requires ReturnsAt(tr, i)
  {
    var tid := tr.labels[i].tid;
    && c.tid == tid && c.start == CallStart(tr, i + 1, tid) && c.start <= c.at <= i + 1
    && c.op == Returned(tr, i).op && c.result == Returned(tr, i).pc.result
  }

  lemma ReturnedIsListed(tr: Trace, i: nat)
    requires IsTrace(tr) && ReturnsAt(tr, i)
    ensures exists c :: c in TotalOrder(tr) && StandsFor(tr, i, c)
  {
    var tid := tr.labels[i].tid;
    var lo := CallStart(tr, i + 1, tid);
    if AnswersOnly(tr, i) {
      AnswerListed(tr, i, |tr.labels|);
      OrderGrows(tr, AnswerPoint(tr, i), |tr.labels|, AnswerCall(tr, i));
      assert StandsFor(tr, i, AnswerCall(tr, i));
    } else {
      CallsAreLinearizable(tr, i + 1, tid);
      var t :| lo <= t < i + 1 && EffectAt(tr, t, tid, Returned(tr, i).op);
      EffectListed(tr, i, t);
    }
  }

  lemma EffectListed(tr: Trace, i: nat, t: nat)
    requires IsTrace(tr) && ReturnsAt(tr, i) && Returned(tr, i).pc.result
    requires CallStart(tr, i + 1, tr.labels[i].tid) <= t <= i && EffectAt(tr, t, tr.labels[i].tid, Returned(tr, i).op)
    ensures exists c :: c in TotalOrder(tr) && StandsFor(tr, i, c)
  {
    var tid := tr.labels[i].tid;
    assert ChangesSet(tr, t);
    ChangeIsEffect(tr, t);
    StartWithin(tr, t, i + 1, tid);
    SameCallSameOp(tr, t, i + 1, tid);
    var c := EffectCall(tr, t);
    assert c in Effects(tr, t) && c in OrderUpTo(tr, t + 1);
    OrderGrows(tr, t + 1, |tr.labels|, c);
    assert StandsFor(tr, i, c);
  }

  lemma SameCallSameOp(tr: Trace, t: nat, i: nat, tid: nat)
    requires IsTrace(tr) && t <= i < |tr.states| && CallStart(tr, t, tid) == CallStart(tr, i, tid)
    requires tid < |tr.states[t].threads| && !tr.states[t].threads[tid].pc.Idle?
    requires tid < |tr.states[i].threads| && !tr.states[i].threads[tid].pc.Idle?
    ensures tr.states[t].threads[tid].op == tr.states[i].threads[tid].op
  {
    hide IsTrace;
    StartIsInvocation(tr, t, tid);
    StartIsInvocation(tr, i, tid);
  }

  // ---------------------------------------------------------------- nothing else is in it

  /** The call was invoked by its thread, and is still its current call at the instant it has. */
  predicate IsReal(tr: Trace, c: Call) {
    && 0 < c.start <= c.at <= |tr.labels| && tr.labels[c.start - 1] == Invoke(c.tid, c.op)
    && CallStart(tr, c.at, c.tid) == c.start
  }

  lemma AnswerIsReal(tr: Trace, i: nat)
    requires IsTrace(tr) && AnswersOnly(tr, i)
    ensures IsReal(tr, AnswerCall(tr, i))
  {
    var tid := tr.labels[i].tid;
    StartIsInvocation(tr, i + 1, tid);
    StartWithin(tr, AnswerPoint(tr, i), i + 1, tid);
  }

  lemma EffectIsReal(tr: Trace, i: nat)
    requires IsTrace(tr) && ChangesSet(tr, i)
    ensures IsReal(tr, EffectCall(tr, i))
  {
    ChangeIsEffect(tr, i);
    StartIsInvocation(tr, i, tr.labels[i].tid);
  }

  predicate AllPlaced(tr: Trace, calls: seq<Call>, lo: nat, hi: nat) {
    forall k :: 0 <= k < |calls| ==> IsReal(tr, calls[k]) && lo <= calls[k].at <= hi
  }

  lemma {:induction false} AnswersPlaced(tr: Trace, t: nat, n: nat)
    requires IsTrace(tr)
    ensures AllPlaced(tr, Answers(tr, t, n), t, t)
  {
    hide IsTrace, IsReal, AnswersOnly;
    if n > 0 {
      AnswersPlaced(tr, t, n - 1);
      if AnswersOnly(tr, n - 1) {
        AnswerIsReal(tr, n - 1);
      }
    }
  }

  predicate InOrder(calls: seq<Call>) {
    forall k, l :: 0 <= k < l < |calls| ==> calls[k].at <= calls[l].at
  }

  lemma {:induction false} OrderPlaced(tr: Trace, t: nat)
    requires IsTrace(tr)
    ensures InOrder(OrderUpTo(tr, t)) && AllPlaced(tr, OrderUpTo(tr, t), 0, t)
  {
    hide IsTrace, Answers, Effects, AllPlaced, InOrder;
    AnswersPlaced(tr, t, |tr.labels|);
    if t == 0 {
      assert OrderUpTo(tr, 0) == Answers(tr, 0, |tr.labels|);
      PlacedAtOnce(tr, Answers(tr, 0, |tr.labels|), 0);
    } else {
      OrderPlaced(tr, t - 1);
      EffectsPlaced(tr, t - 1);
      JoinPlaced(tr, OrderUpTo(tr, t - 1), Effects(tr, t - 1), t - 1, t);
      JoinPlaced(tr, OrderUpTo(tr, t - 1) + Effects(tr, t - 1), Answers(tr, t, |tr.labels|), t, t);
    }
  }

  lemma EffectsPlaced(tr: Trace, i: nat)
    requires IsTrace(tr)
    ensures AllPlaced(tr, Effects(tr, i), i + 1, i + 1)
  {
    hide IsTrace, IsReal, ChangesSet;
    if ChangesSet(tr, i) {
      EffectIsReal(tr, i);
    }
  }

  lemma PlacedAtOnce(tr: Trace, calls: seq<Call>, t: nat)
    requires AllPlaced(tr, calls, t, t)
    ensures InOrder(calls) && AllPlaced(tr, calls, 0, t)
  {
    hide IsReal;
  }

  lemma JoinPlaced(tr: Trace, a: seq<Call>, b: seq<Call>, m: nat, t: nat)
    requires m <= t && InOrder(a) && AllPlaced(tr, a, 0, m) && AllPlaced(tr, b, t, t)
    ensures InOrder(a + b) && AllPlaced(tr, a + b, 0, t)
  {
    hide IsReal;
  }

  // ---------------------------------------------------------------- every call is in it at most once

  /** How often a call of thread `tid` that started at `start` occurs. */
  function Occurrences(calls: seq<Call>, tid: nat, start: nat): nat {
    if calls == [] then 0
    else
      var c := calls[|calls| - 1];
      Occurrences(calls[..|calls| - 1], tid, start) + if c.tid == tid && c.start == start then 1 else 0
  }

  lemma {:induction false} OccurrencesConcat(a: seq<Call>, b: seq<Call>, tid: nat, start: nat)
    ensures Occurrences(a + b, tid, start) == Occurrences(a, tid, start) + Occurrences(b, tid, start)
  {
    if b == [] {
      assert a + b == a;
    } else {
      assert (a + b)[..|a + b| - 1] == a + b[..|b| - 1];
      OccurrencesConcat(a, b[..|b| - 1], tid, start);
    }
  }

  /** Step `i` puts the call into the order, by returning or by changing the set. */
  ghost predicate Produces(tr: Trace, i: nat, tid: nat, start: nat)
    requires IsTrace(tr)
  {
    || (AnswersOnly(tr, i) && AnswerCall(tr, i).tid == tid && AnswerCall(tr, i).start == start)
    || (ChangesSet(tr, i) && EffectCall(tr, i).tid == tid && EffectCall(tr, i).start == start)
  }

  lemma {:induction false} ChangesGrow(tr: Trace, lo: nat, m: nat, hi: nat, tid: nat)
    requires lo <= m <= hi <= |tr.labels| && |tr.states| == |tr.labels| + 1
    ensures Changes(tr, lo, m, tid) <= Changes(tr, lo, hi, tid)
    decreases hi
  {
    if m < hi {
      ChangesGrow(tr, lo, m, hi - 1, tid);
    }
  }

  lemma ProducerFacts(tr: Trace, i: nat, tid: nat, start: nat)
    requires IsTrace(tr) && Produces(tr, i, tid, start)
    ensures i < |tr.labels| && tr.labels[i] == Run(tid) && tid < |tr.states[i].threads| && Active(Stepper(tr, i))
    ensures CallStart(tr, i, tid) == CallStart(tr, i + 1, tid) == start
  {
    var cs := TraceStateInv(tr, i);
    assert Next(tr.states[i], tr.labels[i], tr.states[i + 1]);
    if ChangesSet(tr, i) {
      ChangeIsEffect(tr, i);
    }
  }

  /** How often a call has changed the set by the time it makes a step that produces it. */
  lemma ProducerChanges(tr: Trace, i: nat, tid: nat, start: nat)
    requires IsTrace(tr) && Produces(tr, i, tid, start)
    ensures start <= i < |tr.labels|
    ensures Changes(tr, start, i + 1, tid) <= 1
    ensures AnswersOnly(tr, i) ==> Changes(tr, start, i + 1, tid) == 0 && !ChangesSet(tr, i)
    ensures ChangesSet(tr, i) ==> Changes(tr, start, i + 1, tid) == Changes(tr, start, i, tid) + 1
  {
    hide StateInv, MapSet, IsTrace;
    TraceLength(tr);
    ProducerFacts(tr, i, tid, start);
    ThreadKept(tr, i, tid);
    var cs := TraceStateInv(tr, i + 1);
    HistoryHolds(tr, i + 1, tid);
    StartIsInvocation(tr, i, tid);
    NotIdleAgain(tr, i, tid);
  }

  lemma NotIdleAgain(tr: Trace, i: nat, tid: nat)
    requires IsTrace(tr) && i < |tr.labels| && tr.labels[i] == Run(tid) && tid < |tr.states[i].threads|
    ensures tid < |tr.states[i + 1].threads| && !tr.states[i + 1].threads[tid].pc.Idle?
  {
    var c := StepFacts(tr, i, tid, tr.states[i].threads[tid]);
  }

  lemma OneProducer(tr: Trace, i: nat, j: nat, tid: nat, start: nat)
    requires IsTrace(tr) && i < j && Produces(tr, i, tid, start)
    ensures !Produces(tr, j, tid, start)
  {
    hide IsTrace;
    TraceLength(tr);
    if Produces(tr, j, tid, start) {
      ProducerFacts(tr, i, tid, start);
      ProducerFacts(tr, j, tid, start);
      if AnswersOnly(tr, i) {
        DoneStays(tr, i + 1, j, tid);
      } else {
        ProducerChanges(tr, i, tid, start);
        ProducerChanges(tr, j, tid, start);
        ChangesGrow(tr, start, i + 1, j, tid);
      }
    }
  }

  /** No step but `p` puts the call into the order. */
  ghost predicate OnlyProducer(tr: Trace, p: nat, tid: nat, start: nat)
    requires IsTrace(tr)
  {
    forall i: nat :: Produces(tr, i, tid, start) ==> i == p
  }

  ghost predicate AnswersAt(tr: Trace, p: nat, t: nat)
    requires IsTrace(tr)
  {
    AnswersOnly(tr, p) && AnswerPoint(tr, p) == t
  }

  lemma {:induction false} AnswersOnce(tr: Trace, t: nat, n: nat, p: nat, tid: nat, start: nat)
    requires IsTrace(tr) && OnlyProducer(tr, p, tid, start)
    ensures Occurrences(Answers(tr, t, n), tid, start) <= if p < n && AnswersAt(tr, p, t) then 1 else 0
  {
    hide IsTrace, AnswersAt, Produces, Answers, Occurrences;
    if n == 0 {
      NoAnswers(tr, t, tid, start);
    } else {
      AnswersOnce(tr, t, n - 1, p, tid, start);
      OneAnswer(tr, t, n - 1, tid, start);
    }
  }

  lemma NoAnswers(tr: Trace, t: nat, tid: nat, start: nat)
    requires IsTrace(tr)
    ensures Occurrences(Answers(tr, t, 0), tid, start) == 0
  {
    hide IsTrace;
  }

  lemma OneAnswer(tr: Trace, t: nat, i: nat, tid: nat, start: nat)
    requires IsTrace(tr)
    ensures Occurrences(Answers(tr, t, i + 1), tid, start)
            <= Occurrences(Answers(tr, t, i), tid, start)
               + if AnswersAt(tr, i, t) && Produces(tr, i, tid, start) then 1 else 0
  {
    hide IsTrace, AnswersOnly, CallStart, Occurrences, ChangesSet;
    if AnswersAt(tr, i, t) {
      var c := AnswerCall(tr, i);
      assert Answers(tr, t, i + 1) == Answers(tr, t, i) + [c];
      OccurrencesConcat(Answers(tr, t, i), [c], tid, start);
      OccurrencesOne(c, tid, start);
    } else {
      assert Answers(tr, t, i + 1) == Answers(tr, t, i);
    }
  }

  lemma OccurrencesOne(c: Call, tid: nat, start: nat)
    ensures Occurrences([c], tid, start) == if c.tid == tid && c.start == start then 1 else 0
  {
  }

  lemma EffectsOnce(tr: Trace, i: nat, p: nat, tid: nat, start: nat)
    requires IsTrace(tr) && OnlyProducer(tr, p, tid, start)
    ensures Occurrences(Effects(tr, i), tid, start) <= if i == p && ChangesSet(tr, p) then 1 else 0
  {
    hide IsTrace, ChangesSet, CallStart;
    if ChangesSet(tr, i) {
      assert Produces(tr, i, tid, start) || !(EffectCall(tr, i).tid == tid && EffectCall(tr, i).start == start);
    }
  }

  lemma {:induction false} OrderOnce(tr: Trace, t: nat, p: nat, tid: nat, start: nat)
    requires IsTrace(tr) && OnlyProducer(tr, p, tid, start) && !(AnswersOnly(tr, p) && ChangesSet(tr, p))
    ensures Occurrences(OrderUpTo(tr, t), tid, start)
            <= if AnswersOnly(tr, p) then (if AnswerPoint(tr, p) <= t then 1 else 0)
               else if ChangesSet(tr, p) && p < t then 1 else 0
  {
    hide IsTrace, AnswersOnly, ChangesSet, OnlyProducer, Answers, Effects, Occurrences;
    AnswersOnce(tr, t, |tr.labels|, p, tid, start);
    if t > 0 {
      OrderOnce(tr, t - 1, p, tid, start);
      EffectsOnce(tr, t - 1, p, tid, start);
      OccurrencesConcat(OrderUpTo(tr, t - 1), Effects(tr, t - 1), tid, start);
      OccurrencesConcat(OrderUpTo(tr, t - 1) + Effects(tr, t - 1), Answers(tr, t, |tr.labels|), tid, start);
    } else {
      assert [] + Answers(tr, t, |tr.labels|) == Answers(tr, t, |tr.labels|);
    }
  }

  lemma CallOnce(tr: Trace, tid: nat, start: nat)
    requires IsTrace(tr)
    ensures Occurrences(TotalOrder(tr), tid, start) <= 1
  {
    hide IsTrace, AnswersOnly, ChangesSet, OrderUpTo, Occurrences, Produces;
    var p: nat := 0;
    if i: nat :| Produces(tr, i, tid, start) {
      p := i;
      ProducerChanges(tr, i, tid, start);
    } else {
      NotBoth(tr);
    }
    forall i: nat | Produces(tr, i, tid, start)
      ensures i == p
    {
      if i < p {
        OneProducer(tr, i, p, tid, start);
      } else if p < i {
        OneProducer(tr, p, i, tid, start);
      }
    }
    OrderOnce(tr, |tr.labels|, p, tid, start);
  }

  lemma NotBoth(tr: Trace)
    requires IsTrace(tr)
    ensures !(AnswersOnly(tr, 0) && ChangesSet(tr, 0))
  {
    if AnswersOnly(tr, 0) {
      ProducerChanges(tr, 0, tr.labels[0].tid, CallStart(tr, 1, tr.labels[0].tid));
    }
  }

  // ---------------------------------------------------------------- main results

  /** Main result: the order is a legal history of a set that starts empty and ends as the set the
      map stands for; every call that returned is in it once, with its answer and at an instant
      inside the call; and everything in it is a call that was made. */
  lemma RunIsSequential(tr: Trace)
    requires IsTrace(tr)
    ensures Legal({}, TotalOrder(tr)) && ApplyAll({}, TotalOrder(tr)) == MapSet(tr.states[|tr.labels|])
    ensures forall i: nat :: ReturnsAt(tr, i) ==> exists c :: c in TotalOrder(tr) && StandsFor(tr, i, c)
    ensures forall tid: nat, start: nat :: Occurrences(TotalOrder(tr), tid, start) <= 1
    ensures forall c :: c in TotalOrder(tr) ==> IsReal(tr, c)
  {
    hide IsTrace, OrderUpTo, Legal, ApplyAll, Occurrences, IsReal, ReturnsAt, StandsFor;
    TraceLength(tr);
    OrderLegal(tr, |tr.labels|);
    OrderPlaced(tr, |tr.labels|);
    forall i: nat | ReturnsAt(tr, i)
      ensures exists c :: c in TotalOrder(tr) && StandsFor(tr, i, c)
    {
      ReturnedIsListed(tr, i);
    }
    forall tid: nat, start: nat
      ensures Occurrences(TotalOrder(tr), tid, start) <= 1
    {
      CallOnce(tr, tid, start);
    }
  }

  /** Main result: the order respects real time. A call that returned with step `i` precedes every
      call that started later. */
  lemma RealTimeOrder(tr: Trace, i: nat, k: nat, l: nat)
    requires IsTrace(tr) && ReturnsAt(tr, i) && k < |TotalOrder(tr)| && l < |TotalOrder(tr)|
    requires StandsFor(tr, i, TotalOrder(tr)[k]) && i + 1 < TotalOrder(tr)[l].start
    ensures k < l
  {
    hide IsTrace, OrderUpTo, CallStart;
    OrderPlaced(tr, |tr.labels|);
    assert IsReal(tr, TotalOrder(tr)[l]);
    assert TotalOrder(tr)[k].at < TotalOrder(tr)[l].at;
  }
}
