/**
  The passes of `search` over a list, in every run of the lock-free map. A pass starts where
  the thread is about to load the head; a search makes one pass, and a new one each time it
  finds itself disturbed.
*/
module SearchPasses {
  import opened HarrisList
  import opened HarrisThread
  import opened LockFreeMap

  /** The first state of the call that thread `tid` is in at instant `i`. */
  function CallStart(tr: Trace, i: nat, tid: nat): (lo: nat)
    requires i <= |tr.labels|
    ensures lo <= i
  {
    if i == 0 then 0
    else if tr.labels[i - 1].Invoke? && tr.labels[i - 1].tid == tid then i
    else CallStart(tr, i - 1, tid)
  }

  predicate AtHead(s: State, tid: nat) {
    tid < |s.threads| && s.threads[tid].pc.LoadHead?
  }

  /** The first state of the latest pass that thread `tid` has begun at instant `i`. */
  function PassStart(tr: Trace, i: nat, tid: nat): (lo: nat)
    requires i < |tr.states| == |tr.labels| + 1
    ensures lo <= i
  {
    if i == 0 then 0
    else if tr.labels[i - 1].tid == tid && AtHead(tr.states[i], tid) then i
    else PassStart(tr, i - 1, tid)
  }

  lemma {:induction false} PassInCall(tr: Trace, i: nat, tid: nat)
    requires IsTrace(tr) && i < |tr.states|
    ensures CallStart(tr, i, tid) <= PassStart(tr, i, tid)
  {
    if i > 0 {
      PassInCall(tr, i - 1, tid);
      assert Next(tr.states[i - 1], tr.labels[i - 1], tr.states[i]);
    }
  }

  // ---------------------------------------------------------------- what a pass has seen

  /** At instant `t`, `left` was linked and unmarked, below `key`, and pointed to `next`. */
  ghost predicate LinkAt(tr: Trace, t: nat, left: nat, next: nat, key: int) {
    var h := HeapAt(tr, t, key);
    Reachable(h, left) && BelowKey(h, left, key) && h[left].next == Link(next, false)
  }

  ghost predicate SawLink(tr: Trace, lo: nat, hi: nat, left: nat, next: nat, key: int) {
    exists t :: lo <= t <= hi && LinkAt(tr, t, left, next, key)
  }

  /** At instant `t`, `left` and `right` were linked, unmarked and adjacent, with
      `left.key < key <= right.key`. */
  ghost predicate BracketAt(tr: Trace, t: nat, left: nat, right: nat, key: int) {
    var h := HeapAt(tr, t, key);
    LinkAt(tr, t, left, right, key) && AtLeastKey(h, right, key) && !Marked(h, right)
  }

  ghost predicate SawBracket(tr: Trace, lo: nat, hi: nat, left: nat, right: nat, key: int) {
    exists t :: lo <= t <= hi && BracketAt(tr, t, left, right, key)
  }

  ghost predicate Seen(tr: Trace, lo: nat, i: nat, th: Thread) {
    match th.pc
    case LoadNext(_, left, leftNext) => leftNext.Link? && SawLink(tr, lo, i, left, leftNext.target, th.op.key)
    case LoadRight(left, right) => SawLink(tr, lo, i, left, right, th.op.key)
    case _ => true
  }

  /** The instant a link was read or written serves as a bracket, if the right node was
      found unmarked later. */
  lemma LinkBecomesBracket(tr: Trace, t: nat, i: nat, left: nat, right: nat, key: int)
    requires IsTrace(tr) && t <= i < |tr.states|
    requires LinkAt(tr, t, left, right, key)
    requires AtLeastKey(HeapAt(tr, i, key), right, key) && !Marked(HeapAt(tr, i, key), right)
    ensures BracketAt(tr, t, left, right, key)
  {
    MarkedNodesAreFrozen(tr, t, i, key);
    var cs := TraceStateInv(tr, t);
    var b := Home(tr.states[t], key);
    ReachableIffOnChain(HeapAt(tr, t, key), cs[b], left);
    LinkedInRange(HeapAt(tr, t, key), cs[b], left);
    LinkedInRange(HeapAt(tr, t, key), cs[b], right);
  }

  // ---------------------------------------------------------------- where a search returns

  /** The thread is inside `search`. */
  predicate Searching(th: Thread) {
    th.pc.LoadHead? || th.pc.LoadNext? || th.pc.LoadRight? || th.pc.CasBypass?
  }

  /** The link out of `left` leads straight to the tail, which is never marked. */
  predicate EndsAt(left: nat, leftNext: Link, l: nat, r: nat) {
    leftNext == Link(TAIL, false) && l == left && r == TAIL
  }

  /** With this step `search` returns the pair `l`, `r`. */
  predicate Returns(h: Heap, th: Thread, l: nat, r: nat)
    requires Safe(h, th)
  {
    match th.pc
    case LoadHead => EndsAt(HEAD, h[HEAD].next, l, r)
    case LoadNext(node, left, leftNext) =>
      && h[node].next.target == TAIL
      && if h[node].next.marked then EndsAt(left, leftNext, l, r)
         else h[node].key < th.op.key && EndsAt(node, h[node].next, l, r)
    case LoadRight(left, right) => !h[right].next.marked && l == left && r == right
    case CasBypass(left, leftNext, right) => h[left].next == leftNext && right == TAIL && l == left && r == TAIL
    case _ => false
  }

  /** A step leaves `search` exactly if it returns a pair, and its caller goes on with it. */
  lemma ReturnsWhenLeaving(h: Heap, c: seq<nat>, th: Thread)
    requires ListInv(h, c) && LocalInv(h, c, th) && Searching(th) && Safe(h, th)
    ensures !Searching(Advance(h, th).1) <==> exists l, r :: Returns(h, th, l, r)
    ensures forall l, r :: Returns(h, th, l, r) ==> Advance(h, th).1 == AfterSearch(h, th, l, r)
  {
    var th' := Advance(h, th).1;
    if !Searching(th') {
      match th.pc
      case LoadHead => assert Returns(h, th, HEAD, TAIL);
      case LoadNext(node, left, leftNext) =>
        assert Returns(h, th, if h[node].next.marked then left else node, TAIL);
      case LoadRight(left, right) => assert Returns(h, th, left, right);
      case CasBypass(left, leftNext, right) => assert Returns(h, th, left, right);
    }
  }

  // ---------------------------------------------------------------- steps

  /** The thread that steps at instant `i`, and its list. */
  ghost predicate Stepping(tr: Trace, i: nat, tid: nat, th: Thread) {
    && IsTrace(tr) && i < |tr.labels| && tr.labels[i] == Run(tid)
    && tid < |tr.states[i].threads| && th == tr.states[i].threads[tid]
  }

  lemma StepFacts(tr: Trace, i: nat, tid: nat, th: Thread) returns (c: seq<nat>)
    requires Stepping(tr, i, tid, th)
    ensures var h := HeapAt(tr, i, th.op.key);
            && Active(th) && ListInv(h, c) && LocalInv(h, c, th) && Safe(h, th)
            && tid < |tr.states[i + 1].threads|
            && HeapAt(tr, i + 1, th.op.key) == Advance(h, th).0
            && tr.states[i + 1].threads[tid] == Advance(h, th).1
            && Advance(h, th).1.op == th.op
  {
    var cs := TraceStateInv(tr, i);
    var c', own := StepBucket(tr.states[i], tr.labels[i], tr.states[i + 1], cs);
    assert ThreadOk(tr.states[i], cs, tid);
    assert Next(tr.states[i], tr.labels[i], tr.states[i + 1]);
    c := cs[Home(tr.states[i], th.op.key)];
  }

  /** The link read out of an unmarked node, or kept from before. */
  lemma VisitSees(tr: Trace, lo: nat, i: nat, c: seq<nat>, key: int, node: nat, left: nat, leftNext: Link)
    requires var h := HeapAt(tr, i, key);
             && lo <= i && ListInv(h, c) && Linked(h, c, node) && CanRead(h, node)
             && (if Marked(h, node) then leftNext.Link? && SawLink(tr, lo, i, left, leftNext.target, key)
                 else BelowKey(h, node, key))
    ensures var h := HeapAt(tr, i, key);
            if h[node].next.marked then SawLink(tr, lo, i + 1, left, leftNext.target, key)
            else SawLink(tr, lo, i + 1, node, h[node].next.target, key)
  {
    var h := HeapAt(tr, i, key);
    if h[node].next.marked {
      var t :| lo <= t <= i && LinkAt(tr, t, left, leftNext.target, key);
    } else {
      ReachableIffOnChain(h, c, node);
      assert LinkAt(tr, i, node, h[node].next.target, key);
    }
  }

  /** What the pass has seen after a step of its own; a pair it returns was linked then. */
  ghost predicate SeesAfter(tr: Trace, lo: nat, i: nat, th: Thread)
    requires Safe(HeapAt(tr, i, th.op.key), th)
  {
    var h := HeapAt(tr, i, th.op.key);
    && Seen(tr, lo, i + 1, Advance(h, th).1)
    && (forall l, r :: Returns(h, th, l, r) ==> SawLink(tr, lo, i + 1, l, r, th.op.key))
  }

  lemma HeadSees(tr: Trace, lo: nat, i: nat, th: Thread, c: seq<nat>)
    requires lo <= i && th.pc.LoadHead?
    requires ListInv(HeapAt(tr, i, th.op.key), c) && Safe(HeapAt(tr, i, th.op.key), th)
    ensures SeesAfter(tr, lo, i, th)
  {
    LinkedInRange(HeapAt(tr, i, th.op.key), c, HEAD);
    VisitSees(tr, lo, i, c, th.op.key, HEAD, HEAD, Null);
    hide SawLink, HeapAt, ListInv;
  }

  lemma NextSees(tr: Trace, lo: nat, i: nat, th: Thread, c: seq<nat>)
    requires lo <= i && th.pc.LoadNext? && Seen(tr, lo, i, th)
    requires var h := HeapAt(tr, i, th.op.key); ListInv(h, c) && LocalInv(h, c, th) && Safe(h, th)
    ensures SeesAfter(tr, lo, i, th)
  {
    var key := th.op.key;
    var h := HeapAt(tr, i, key);
    var node, left, leftNext := th.pc.node, th.pc.left, th.pc.leftNext;
    LinkedInRange(h, c, node);
    SawLinkGrows(tr, lo, i, left, leftNext.target, key);
    if h[node].next.marked || h[node].key < key {
      VisitSees(tr, lo, i, c, key, node, left, leftNext);
    }
    hide SawLink, HeapAt, ListInv;
  }

  lemma SawLinkGrows(tr: Trace, lo: nat, i: nat, left: nat, next: nat, key: int)
    requires SawLink(tr, lo, i, left, next, key)
    ensures SawLink(tr, lo, i + 1, left, next, key)
  {
  }

  lemma BypassSees(tr: Trace, lo: nat, i: nat, tid: nat, th: Thread, c: seq<nat>)
    requires lo <= i && th.pc.CasBypass?
    requires var h := HeapAt(tr, i, th.op.key);
             && ListInv(h, c) && LocalInv(h, c, th) && Safe(h, th)
             && HeapAt(tr, i + 1, th.op.key) == Advance(h, th).0
    ensures SeesAfter(tr, lo, i, th)
  {
    var key := th.op.key;
    var h := HeapAt(tr, i, key);
    var left, leftNext, right := th.pc.left, th.pc.leftNext, th.pc.right;
    if h[left].next == leftNext {
      LinkedInRange(h, c, left);
      var c' := BypassMarked(h, c, left, leftNext.target, right);
      ReachableIffOnChain(HeapAt(tr, i + 1, key), c', left);
      assert LinkAt(tr, i + 1, left, right, key);
    }
  }

  lemma OwnStepSees(tr: Trace, lo: nat, i: nat, tid: nat, th: Thread)
    requires Stepping(tr, i, tid, th) && Searching(th) && lo <= i && Seen(tr, lo, i, th)
    ensures Safe(HeapAt(tr, i, th.op.key), th) && SeesAfter(tr, lo, i, th)
  {
    var c := StepFacts(tr, i, tid, th);
    hide HeapAt, ListInv, LocalInv, Safe, Stepping, Advance, SawLink;
    match th.pc
    case LoadHead => HeadSees(tr, lo, i, th, c);
    case LoadNext(_, _, _) => NextSees(tr, lo, i, th, c);
    case LoadRight(left, right) =>
      SawLinkGrows(tr, lo, i, left, right, th.op.key);
      RightSees(HeapAt(tr, i, th.op.key), th);
    case CasBypass(_, _, _) => BypassSees(tr, lo, i, tid, th, c);
  }

  lemma RightSees(h: Heap, th: Thread)
    requires th.pc.LoadRight? && Safe(h, th)
    ensures Advance(h, th).1.pc.LoadHead? || !Searching(Advance(h, th).1)
  {
  }

  lemma StepSeen(tr: Trace, i: nat, tid: nat)
    requires IsTrace(tr) && i < |tr.labels| && tid < |tr.states[i].threads|
    requires Seen(tr, PassStart(tr, i, tid), i, tr.states[i].threads[tid])
    ensures tid < |tr.states[i + 1].threads|
    ensures Seen(tr, PassStart(tr, i + 1, tid), i + 1, tr.states[i + 1].threads[tid])
  {
    var th := tr.states[i].threads[tid];
    ThreadKept(tr, i, tid);
    if tr.labels[i] == Run(tid) {
      var c := StepFacts(tr, i, tid, th);
      if Searching(th) {
        OwnStepSees(tr, PassStart(tr, i, tid), i, tid, th);
      } else {
        NotSearching(HeapAt(tr, i, th.op.key), th);
      }
    }
  }

  lemma NotSearching(h: Heap, th: Thread)
    requires Safe(h, th) && !Searching(th)
    ensures Advance(h, th).1.pc.LoadHead? || !Searching(Advance(h, th).1)
  {
  }

  lemma ThreadKept(tr: Trace, i: nat, tid: nat)
    requires IsTrace(tr) && i < |tr.labels| && tid < |tr.states[i].threads|
    ensures |tr.states[i + 1].threads| == |tr.states[i].threads|
    ensures tr.labels[i].tid != tid ==> tr.states[i + 1].threads[tid] == tr.states[i].threads[tid]
    ensures tr.labels[i] == Run(tid) ==> tr.states[i + 1].threads[tid].op == tr.states[i].threads[tid].op
    ensures tr.labels[i].Invoke? && tr.labels[i].tid == tid ==> tr.states[i + 1].threads[tid].pc.LoadHead?
  {
    var cs := TraceStateInv(tr, i);
    var c', own := StepBucket(tr.states[i], tr.labels[i], tr.states[i + 1], cs);
    assert Next(tr.states[i], tr.labels[i], tr.states[i + 1]);
  }

  /** Every pass, in every state of every run, has seen the link it goes on from. */
  lemma {:induction false} PassSeen(tr: Trace, i: nat, tid: nat)
    requires IsTrace(tr) && i < |tr.states| && tid < |tr.states[0].threads|
    ensures tid < |tr.states[i].threads| && Seen(tr, PassStart(tr, i, tid), i, tr.states[i].threads[tid])
  {
    if i > 0 {
      PassSeen(tr, i - 1, tid);
      StepSeen(tr, i - 1, tid);
    } else {
      assert tr.states[0].threads[tid].pc.Idle?;
    }
  }

  /** The right node of a pair is unmarked and not below the key when it is returned. */
  lemma RightAtReturn(tr: Trace, i: nat, tid: nat, th: Thread, l: nat, r: nat)
    requires Stepping(tr, i, tid, th) && Searching(th)
    requires Safe(HeapAt(tr, i, th.op.key), th) && Returns(HeapAt(tr, i, th.op.key), th, l, r)
    ensures AtLeastKey(HeapAt(tr, i + 1, th.op.key), r, th.op.key) && !Marked(HeapAt(tr, i + 1, th.op.key), r)
  {
    var c := StepFacts(tr, i, tid, th);
    var cs' := TraceStateInv(tr, i + 1);
    assert ListInv(HeapAt(tr, i + 1, th.op.key), cs'[Home(tr.states[i + 1], th.op.key)]);
  }

  /** Main result: whenever `search` returns a pair, there was an instant of its last pass at
      which both nodes were linked, unmarked and adjacent around the key. */
  lemma SearchFoundAdjacentNodes(tr: Trace, i: nat, tid: nat, l: nat, r: nat)
    requires IsTrace(tr) && i < |tr.labels| && tr.labels[i] == Run(tid)
    requires tid < |tr.states[i].threads| && Searching(tr.states[i].threads[tid])
    ensures var th := tr.states[i].threads[tid];
            && Safe(HeapAt(tr, i, th.op.key), th)
            && CallStart(tr, i, tid) <= PassStart(tr, i, tid)
            && (Returns(HeapAt(tr, i, th.op.key), th, l, r) ==>
                  SawBracket(tr, PassStart(tr, i, tid), i + 1, l, r, th.op.key))
  {
    var th := tr.states[i].threads[tid];
    var key := th.op.key;
    var lo := PassStart(tr, i, tid);
    var cs := TraceStateInv(tr, i);
    hide HeapAt, IsTrace, StateInv, Safe, Returns, LinkAt, BracketAt, Seen, AtLeastKey, Marked, Advance;
    PassInCall(tr, i, tid);
    PassSeen(tr, i, tid);
    OwnStepSees(tr, lo, i, tid, th);
    if Returns(HeapAt(tr, i, key), th, l, r) {
      assert SawLink(tr, lo, i + 1, l, r, key);
      var t :| lo <= t <= i + 1 && LinkAt(tr, t, l, r, key);
      RightAtReturn(tr, i, tid, th, l, r);
      LinkBecomesBracket(tr, t, i + 1, l, r, key);
    }
  }
}
