/**
  The lock-free hash map: any number of threads running `insert_item`, `remove_item` and
  `lookup_item` on an array of lists, one atomic step at a time, in every interleaving.
  This module keeps the invariant of every state; module
  Linearizability draws the conclusion about whole calls.
*/
module LockFreeMap {
  import opened HarrisList
  import opened HarrisThread

  datatype State = State(buckets: seq<Heap>, threads: seq<Thread>)

  datatype Label = Invoke(tid: nat, op: Op) | Run(tid: nat)

  const ULONG_RANGE: int := 0x1_0000_0000_0000_0000
  const MAX_BUCKETS: int := 0x8000_0000

  /** The key is converted to an unsigned 64-bit number before the remainder is taken, so
      the later test for a negative index never applies. */
  function GetIndex(key: int, length: int): (index: nat)
    requires 0 < length
    ensures index < length
  {
    (key % ULONG_RANGE) % length
  }

  function Home(s: State, key: int): (b: nat)
    requires |s.buckets| > 0
    ensures b < |s.buckets|
  {
    GetIndex(key, |s.buckets|)
  }

  ghost predicate Init(s: State) {
    && 0 < |s.buckets| <= MAX_BUCKETS
    && (forall b :: 0 <= b < |s.buckets| ==> s.buckets[b] == EMPTY_LIST)
    && (forall t :: 0 <= t < |s.threads| ==> s.threads[t].pc.Idle?)
  }

  /** A call starts; an insert allocates its node first. */
  function Started(s: State, tid: nat, op: Op): State
    requires |s.buckets| > 0 && tid < |s.threads|
  {
    var b := Home(s, op.key);
    var h := s.buckets[b];
    State(if op.Insert? then s.buckets[b := h + [Node(op.key, Null)]] else s.buckets,
          s.threads[tid := Thread(op, |h|, false, LoadHead)])
  }

  function Stepped(s: State, tid: nat): State
    requires |s.buckets| > 0 && tid < |s.threads|
    requires Safe(s.buckets[Home(s, s.threads[tid].op.key)], s.threads[tid])
  {
    var b := Home(s, s.threads[tid].op.key);
    var (h', th') := Advance(s.buckets[b], s.threads[tid]);
    State(s.buckets[b := h'], s.threads[tid := th'])
  }

  /** A step that follows a null or dangling pointer may do anything at all. */
  ghost predicate Next(s: State, l: Label, s': State) {
    && |s.buckets| > 0 && l.tid < |s.threads|
    && match l
       case Invoke(tid, op) =>
         !Active(s.threads[tid]) && s' == Started(s, tid, op)
       case Run(tid) =>
         && Active(s.threads[tid])
         && (Safe(s.buckets[Home(s, s.threads[tid].op.key)], s.threads[tid]) ==> s' == Stepped(s, tid))
  }

  datatype Trace = Trace(states: seq<State>, labels: seq<Label>)

  ghost predicate IsTrace(tr: Trace) {
    && |tr.states| == |tr.labels| + 1
    && Init(tr.states[0])
    && (forall i :: 0 <= i < |tr.labels| ==> Next(tr.states[i], tr.labels[i], tr.states[i + 1]))
  }

  lemma TraceLength(tr: Trace)
    requires IsTrace(tr)
    ensures |tr.states| == |tr.labels| + 1
  {
    hide Init, Next;
  }

  /** The set the whole map stands for. */
  ghost function MapSet(s: State): set<int> {
    set b: nat, k | b < |s.buckets| && k in Members(s.buckets[b]) :: k
  }

  // ---------------------------------------------------------------- the state invariant

  ghost predicate KeysAtHome(s: State) {
    forall b: nat, n: nat :: |s.buckets| > 0 && b < |s.buckets| && 2 <= n < |s.buckets[b]| ==>
      Home(s, s.buckets[b][n].key) == b
  }

  ghost predicate ThreadOk(s: State, cs: seq<seq<nat>>, tid: nat)
    requires |s.buckets| > 0 && |cs| == |s.buckets| && tid < |s.threads|
  {
    var b := Home(s, s.threads[tid].op.key);
    LocalInv(s.buckets[b], cs[b], s.threads[tid])
  }

  ghost predicate Apart(s: State, t: nat, u: nat)
    requires |s.buckets| > 0 && t < |s.threads| && u < |s.threads|
  {
    var th, uh := s.threads[t], s.threads[u];
    t != u && Inserting(th) && Inserting(uh) && Home(s, th.op.key) == Home(s, uh.op.key) ==>
      th.insertion != uh.insertion
  }

  ghost predicate StateInv(s: State, cs: seq<seq<nat>>) {
    && |s.buckets| > 0 && |cs| == |s.buckets|
    && (forall b :: 0 <= b < |s.buckets| ==> ListInv(s.buckets[b], cs[b]))
    && KeysAtHome(s)
    && (forall t: nat :: t < |s.threads| ==> ThreadOk(s, cs, t))
    && (forall t: nat, u: nat :: t < |s.threads| && u < |s.threads| ==> Apart(s, t, u))
  }

  lemma InitInv(s: State)
    requires Init(s)
    ensures StateInv(s, seq(|s.buckets|, _ => [HEAD, TAIL]))
    ensures MapSet(s) == {}
  {
    EmptyListInv();
  }

  /** A key can only be in the bucket it hashes to. */
  lemma InMapSet(s: State, cs: seq<seq<nat>>, key: int)
    requires StateInv(s, cs)
    ensures key in MapSet(s) <==> key in Members(s.buckets[Home(s, key)])
    ensures forall b: nat :: b < |s.buckets| && key in Members(s.buckets[b]) ==> b == Home(s, key)
  {
    forall b: nat | b < |s.buckets| && key in Members(s.buckets[b])
      ensures b == Home(s, key)
    {
      var h := s.buckets[b];
      var n: nat :| n < |h| && n != HEAD && n != TAIL && Reachable(h, n) && !Marked(h, n) && h[n].key == key;
    }
  }

  lemma AdvanceKeepsKeys(h: Heap, c: seq<nat>, h': Heap, c': seq<nat>, own: nat)
    requires Evolves(h, c, h', c', own) && |h'| == |h|
    ensures forall n: nat :: n < |h'| ==> h'[n].key == h[n].key
  {
  }

  /** The operation a step belongs to. */
  function OpOf(s: State, l: Label): Op
    requires l.tid < |s.threads|
  {
    if l.Invoke? then l.op else s.threads[l.tid].op
  }

  /** A step works on the list of its own key, and this is what it does there. */
  ghost predicate StepsBucket(s: State, l: Label, s': State, c: seq<nat>, c': seq<nat>, own: nat)
    requires |s.buckets| > 0 && |s'.buckets| == |s.buckets| && l.tid < |s.threads| && |s'.threads| == |s.threads|
  {
    var b := Home(s, OpOf(s, l).key);
    var h, h', th' := s.buckets[b], s'.buckets[b], s'.threads[l.tid];
    && s' == State(s.buckets[b := h'], s.threads[l.tid := th'])
    && th'.op == OpOf(s, l)
    && ListInv(h', c') && Evolves(h, c, h', c', own) && LocalInv(h', c', th')
    && (Inserting(th') ==> own == th'.insertion)
    && (own == |h| || (l.Run? && Inserting(s.threads[l.tid]) && own == s.threads[l.tid].insertion))
    && (forall n: nat :: 2 <= n < |h'| ==> Home(s', h'[n].key) == b)
    && (if l.Invoke? then Members(h') == Members(h)
        else Safe(h, s.threads[l.tid]) && s' == Stepped(s, l.tid)
             && SetMoves(h, s.threads[l.tid], Members(h), Members(h')))
  }

  lemma InvokeBucket(s: State, tid: nat, op: Op, cs: seq<seq<nat>>)
    requires StateInv(s, cs) && tid < |s.threads|
    ensures var b := Home(s, op.key);
            StepsBucket(s, Invoke(tid, op), Started(s, tid, op), cs[b], cs[b], |s.buckets[b]|)
  {
    var b := Home(s, op.key);
    var h := s.buckets[b];
    if op.Insert? {
      Alloc(h, cs[b], op.key);
    } else {
      EvolvesRefl(h, cs[b], |h|);
    }
  }

  lemma AdvanceShape(h: Heap, th: Thread)
    requires Safe(h, th)
    ensures var (h', th') := Advance(h, th);
            && |h'| == |h| && th'.op == th.op && th'.insertion == th.insertion && (Inserting(th') ==> Inserting(th))
  {
  }

  lemma RunBucket(s: State, tid: nat, cs: seq<seq<nat>>) returns (c': seq<nat>)
    requires StateInv(s, cs) && tid < |s.threads| && Active(s.threads[tid])
    ensures var b := Home(s, s.threads[tid].op.key);
            && Safe(s.buckets[b], s.threads[tid])
            && StepsBucket(s, Run(tid), Stepped(s, tid), cs[b], c', OwnNode(s.buckets[b], s.threads[tid]))
  {
    var th := s.threads[tid];
    var b := Home(s, th.op.key);
    var h := s.buckets[b];
    assert ThreadOk(s, cs, tid);
    assert ListInv(h, cs[b]);
    hide ListInv, LocalInv, StateInv, Safe, SetMoves, Advance, Evolves, Inserting;
    c' := AdvanceKeeps(h, cs[b], th);
    AdvanceShape(h, th);
    AdvanceKeepsKeys(h, cs[b], Advance(h, th).0, c', OwnNode(h, th));
    assert KeysAtHome(s);
  }

  lemma StepBucket(s: State, l: Label, s': State, cs: seq<seq<nat>>) returns (c': seq<nat>, own: nat)
    requires StateInv(s, cs) && Next(s, l, s')
    ensures |s'.buckets| == |s.buckets| && |s'.threads| == |s.threads|
    ensures StepsBucket(s, l, s', cs[Home(s, OpOf(s, l).key)], c', own)
  {
    var b := Home(s, OpOf(s, l).key);
    match l
    case Invoke(tid, op) =>
      InvokeBucket(s, tid, op, cs);
      c', own := cs[b], |s.buckets[b]|;
    case Run(tid) =>
      c' := RunBucket(s, tid, cs);
      own := OwnNode(s.buckets[b], s.threads[tid]);
  }

  /** Every step of every thread keeps the invariant of the whole map. */
  lemma StepKeepsInv(s: State, l: Label, s': State, cs: seq<seq<nat>>) returns (cs': seq<seq<nat>>)
    requires StateInv(s, cs) && Next(s, l, s')
    ensures StateInv(s', cs')
  {
    var c', own := StepBucket(s, l, s', cs);
    var b := Home(s, s'.threads[l.tid].op.key);
    cs' := cs[b := c'];
    forall t: nat | t < |s'.threads|
      ensures ThreadOk(s', cs', t)
    {
      assert ThreadOk(s, cs, t);
      if t != l.tid && Home(s, s.threads[t].op.key) == b {
        assert Apart(s, t, l.tid);
        LocalInvStable(s.buckets[b], cs[b], s'.buckets[b], c', own, s.threads[t]);
      }
    }
    forall t: nat, u: nat | t < |s'.threads| && u < |s'.threads|
      ensures Apart(s', t, u)
    {
      assert Apart(s, t, u) && ThreadOk(s, cs, t) && ThreadOk(s, cs, u);
    }
  }

  /** The keys that are in other buckets than `b`. */
  ghost function Elsewhere(s: State, b: nat): set<int>
    requires |s.buckets| > 0
  {
    set k | k in MapSet(s) && Home(s, k) != b
  }

  lemma BucketAndElsewhere(s: State, cs: seq<seq<nat>>, b: nat)
    requires StateInv(s, cs) && b < |s.buckets|
    ensures MapSet(s) == Members(s.buckets[b]) + Elsewhere(s, b)
  {
    hide ListInv, ThreadOk, Apart, KeysAtHome, Members, MapSet;
    forall k
      ensures k in MapSet(s) <==> k in Members(s.buckets[b]) + Elsewhere(s, b)
    {
      InMapSet(s, cs, k);
    }
  }

  lemma ElsewhereKept(s: State, cs: seq<seq<nat>>, s': State, cs': seq<seq<nat>>, b: nat)
    requires StateInv(s, cs) && StateInv(s', cs') && b < |s.buckets| == |s'.buckets|
    requires s'.buckets == s.buckets[b := s'.buckets[b]]
    ensures Elsewhere(s', b) == Elsewhere(s, b)
  {
    hide ListInv, ThreadOk, Apart, KeysAtHome, Members, MapSet;
    forall k
      ensures k in Elsewhere(s', b) <==> k in Elsewhere(s, b)
    {
      InMapSet(s, cs, k);
      InMapSet(s', cs', k);
    }
  }

  lemma MovesWithBucket(h: Heap, th: Thread, part: set<int>, part': set<int>, rest: set<int>)
    requires SetMoves(h, th, part, part') && th.op.key !in rest
    ensures SetMoves(h, th, part + rest, part' + rest)
  {
    hide Links, Marks;
  }

  /** The abstract set changes only at a successful link CAS, which adds an absent key, or
      at a successful mark CAS, which removes a present one. */
  lemma SetChangesOnlyAtCas(s: State, l: Label, s': State, cs: seq<seq<nat>>)
    requires StateInv(s, cs) && Next(s, l, s')
    ensures l.Invoke? ==> MapSet(s') == MapSet(s)
    ensures l.Run? ==> SetMoves(s.buckets[Home(s, s.threads[l.tid].op.key)], s.threads[l.tid], MapSet(s), MapSet(s'))
  {
    hide ListInv, LocalInv, Evolves, Members, Safe, Advance, MapSet, SetMoves, ThreadOk, Apart, KeysAtHome;
    var c', own := StepBucket(s, l, s', cs);
    var cs' := StepKeepsInv(s, l, s', cs);
    var b := Home(s, OpOf(s, l).key);
    BucketAndElsewhere(s, cs, b);
    BucketAndElsewhere(s', cs', b);
    ElsewhereKept(s, cs, s', cs', b);
    if l.Run? {
      MovesWithBucket(s.buckets[b], s.threads[l.tid], Members(s.buckets[b]), Members(s'.buckets[b]), Elsewhere(s, b));
    }
  }

  // ---------------------------------------------------------------- whole runs

  lemma {:induction false} TraceStateInv(tr: Trace, i: nat) returns (cs: seq<seq<nat>>)
    requires IsTrace(tr) && i < |tr.states|
    ensures StateInv(tr.states[i], cs)
    ensures |tr.states[i].buckets| == |tr.states[0].buckets| && |tr.states[i].threads| == |tr.states[0].threads|
  {
    if i == 0 {
      InitInv(tr.states[0]);
      cs := seq(|tr.states[0].buckets|, _ => [HEAD, TAIL]);
    } else {
      var cs0 := TraceStateInv(tr, i - 1);
      var c', own := StepBucket(tr.states[i - 1], tr.labels[i - 1], tr.states[i], cs0);
      cs := StepKeepsInv(tr.states[i - 1], tr.labels[i - 1], tr.states[i], cs0);
    }
  }

  /** No step of any run follows a null or dangling pointer. */
  lemma EveryStepIsSafe(tr: Trace, i: nat)
    requires IsTrace(tr) && i < |tr.labels| && tr.labels[i].Run?
    ensures var s := tr.states[i];
            && |s.buckets| > 0 && tr.labels[i].tid < |s.threads|
            && Safe(s.buckets[Home(s, s.threads[tr.labels[i].tid].op.key)], s.threads[tr.labels[i].tid])
  {
    var cs := TraceStateInv(tr, i);
    var c', own := StepBucket(tr.states[i], tr.labels[i], tr.states[i + 1], cs);
  }

  /** The list a key belongs to, at instant `t` of a run. */
  function HeapAt(tr: Trace, t: nat, key: int): Heap {
    if t < |tr.states| && |tr.states[t].buckets| > 0 then tr.states[t].buckets[Home(tr.states[t], key)]
    else EMPTY_LIST
  }

  ghost predicate Later(h: Heap, h': Heap) {
    && |h| <= |h'|
    && (forall n: nat :: n < |h| ==> h'[n].key == h[n].key)
    && (forall n: nat :: Marked(h, n) ==> h'[n] == h[n])
  }

  /** Over any stretch of a run, keys are fixed and a marked node never changes again. */
  lemma {:induction false} MarkedNodesAreFrozen(tr: Trace, t: nat, i: nat, key: int)
    requires IsTrace(tr) && t <= i < |tr.states|
    ensures Later(HeapAt(tr, t, key), HeapAt(tr, i, key))
    decreases i
  {
    if t < i {
      MarkedNodesAreFrozen(tr, t, i - 1, key);
      var cs := TraceStateInv(tr, i - 1);
      var cs0 := TraceStateInv(tr, t);
      var c', own := StepBucket(tr.states[i - 1], tr.labels[i - 1], tr.states[i], cs);
    }
  }
}
