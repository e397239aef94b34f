/**
  How many steps a call of the lock-free map can take. A pass over a list meets each node at most
  once, a call starts over only after another thread has changed its list, and a list can be
  changed only so often: each node is linked, marked and taken off the chain at most once. So in
  every run every call is done after a number of its own steps that depends on nothing but the
  number of nodes in its list.
*/
module Progress {
  import opened HarrisList
  import opened HarrisThread
  import opened LockFreeMap
  import opened SearchPasses
  import opened LockFreedom

  // ---------------------------------------------------------------- the steps of one pass

  /** The number of steps thread `tid` takes between two instants. */
  function OwnSteps(tr: Trace, lo: nat, hi: nat, tid: nat): nat
    requires lo <= hi <= |tr.labels|
    decreases hi
  {
    if lo == hi then 0 else OwnSteps(tr, lo, hi - 1, tid) + if tr.labels[hi - 1] == Run(tid) then 1 else 0
  }

  /** How many steps of a pass, apart from the loads of nodes on the way, come before this point. */
  function Cost(pc: Pc): nat {
    match pc
    case Idle => 0
    case LoadHead => 0
    case LoadNext(_, _, _) => 1
    case CasBypass(_, _, _) => 1
    case LoadRight(_, _) => 2
    case StoreFresh(_, _) => 3
    case LoadVictim(_, _) => 3
    case CasLink(_, _) => 4
    case CasMark(_, _, _) => 4
    case CasUnlink(_, _, _) => 5
    case Done(_) => 6
  }

  /** `visited` are the nodes loaded in this pass, all of them before the one it stands at. */
  ghost predicate WalkOk(h: Heap, th: Thread, visited: set<nat>, steps: nat) {
    && (forall v :: v in visited ==> v < |h| && (th.pc.LoadNext? ==> Before(h, v, th.pc.node)))
    && (th.pc.LoadHead? ==> visited == {})
    && steps <= |visited| + Cost(th.pc)
  }

  function Visiting(th: Thread, visited: set<nat>): set<nat> {
    if th.pc.LoadNext? then visited + {th.pc.node} else visited
  }

  /** A step onto the next node leaves the ones before behind it. */
  lemma WalksOn(h: Heap, c: seq<nat>, th: Thread, visited: set<nat>, steps: nat)
    requires ListInv(h, c) && LocalInv(h, c, th) && Safe(h, th) && th.pc.LoadNext? && WalkOk(h, th, visited, steps)
    ensures WalkOk(h, Advance(h, th).1, Visiting(th, visited), steps + 1)
  {
    var node := th.pc.node;
    LinkedInRange(h, c, node);
    assert node !in visited;
    assert |visited + {node}| == |visited| + 1;
    assert LinkOk(h, c, node);
    hide ListInv, LocalInv, Linked;
  }

  lemma OtherWalks(h: Heap, c: seq<nat>, th: Thread, visited: set<nat>, steps: nat)
    requires ListInv(h, c) && LocalInv(h, c, th) && Active(th) && Safe(h, th) && WalkOk(h, th, visited, steps)
    requires !th.pc.LoadNext? && !Advance(h, th).1.pc.LoadHead?
    ensures WalkOk(Advance(h, th).0, Advance(h, th).1, visited, steps + 1)
  {
    assert th.pc.LoadHead? ==> !Marked(h, HEAD);
    CostMoves(h, th);
    AdvanceShape(h, th);
    hide ListInv, LocalInv, Advance, Safe, Cost;
  }

  lemma CostMoves(h: Heap, th: Thread)
    requires Active(th) && Safe(h, th) && !th.pc.LoadNext? && (th.pc.LoadHead? ==> !Marked(h, HEAD))
    ensures var th' := Advance(h, th).1;
            th'.pc.LoadHead? || (Cost(th'.pc) >= Cost(th.pc) + 1 && (th'.pc.LoadNext? ==> th.pc.LoadHead?))
  {
  }

  // ---------------------------------------------------------------- passes of a run

  ghost predicate PassWalk(tr: Trace, i: nat, tid: nat, visited: set<nat>)
    requires i < |tr.states| == |tr.labels| + 1 && tid < |tr.states[i].threads|
  {
    var th := tr.states[i].threads[tid];
    WalkOk(HeapAt(tr, i, th.op.key), th, visited, OwnSteps(tr, PassStart(tr, i, tid), i, tid))
  }

  lemma OwnWalk(tr: Trace, i: nat, tid: nat, visited: set<nat>) returns (visited': set<nat>)
    requires IsTrace(tr) && i < |tr.labels| && tr.labels[i] == Run(tid)
    requires tid < |tr.states[i].threads| && PassWalk(tr, i, tid, visited)
    ensures tid < |tr.states[i + 1].threads| && PassWalk(tr, i + 1, tid, visited')
  {
    var th := tr.states[i].threads[tid];
    var h := HeapAt(tr, i, th.op.key);
    var steps := OwnSteps(tr, PassStart(tr, i, tid), i, tid);
    var c := StepFacts(tr, i, tid, th);
    hide IsTrace, HeapAt, ListInv, LocalInv, Safe, Advance, WalkOk;
    if AtHead(tr.states[i + 1], tid) {
      visited' := {};
      NoWalk(HeapAt(tr, i + 1, th.op.key), tr.states[i + 1].threads[tid]);
    } else {
      visited' := Visiting(th, visited);
      if th.pc.LoadNext? {
        WalksOn(h, c, th, visited, steps);
        LoadKeepsHeap(h, th);
      } else {
        OtherWalks(h, c, th, visited, steps);
      }
    }
  }

  lemma LoadKeepsHeap(h: Heap, th: Thread)
    requires th.pc.LoadNext? && Safe(h, th)
    ensures Advance(h, th).0 == h
  {
  }

  lemma NoWalk(h: Heap, th: Thread)
    requires th.pc.LoadHead? || th.pc.Idle?
    ensures WalkOk(h, th, {}, 0)
  {
  }

  lemma OtherWalk(tr: Trace, i: nat, tid: nat, visited: set<nat>)
    requires IsTrace(tr) && i < |tr.labels| && tr.labels[i].tid != tid
    requires tid < |tr.states[i].threads| && PassWalk(tr, i, tid, visited)
    ensures tid < |tr.states[i + 1].threads| && PassWalk(tr, i + 1, tid, visited)
  {
    ThreadKept(tr, i, tid);
    MarkedNodesAreFrozen(tr, i, i + 1, tr.states[i].threads[tid].op.key);
    hide IsTrace, HeapAt;
  }

  lemma {:induction false} PassWalks(tr: Trace, i: nat, tid: nat) returns (visited: set<nat>)
    requires IsTrace(tr) && i < |tr.states| && tid < |tr.states[0].threads|
    ensures tid < |tr.states[i].threads| && PassWalk(tr, i, tid, visited)
  {
    visited := {};
    if i == 0 {
      assert tr.states[0].threads[tid].pc.Idle?;
      NoWalk(HeapAt(tr, 0, tr.states[0].threads[tid].op.key), tr.states[0].threads[tid]);
    } else {
      visited := PassWalks(tr, i - 1, tid);
      hide PassWalk, WalkOk, HeapAt, Next, Init;
      if tr.labels[i - 1].tid != tid {
        OtherWalk(tr, i - 1, tid, visited);
      } else if tr.labels[i - 1].Run? {
        visited := OwnWalk(tr, i - 1, tid, visited);
      } else {
        visited := {};
        FreshWalk(tr, i, tid);
      }
    }
  }

  lemma FreshWalk(tr: Trace, i: nat, tid: nat)
    requires IsTrace(tr) && 0 < i < |tr.states| && tr.labels[i - 1].Invoke? && tr.labels[i - 1].tid == tid
    requires tid < |tr.states[i - 1].threads|
    ensures tid < |tr.states[i].threads| && PassWalk(tr, i, tid, {})
  {
    ThreadKept(tr, i - 1, tid);
    NoWalk(HeapAt(tr, i, tr.states[i].threads[tid].op.key), tr.states[i].threads[tid]);
  }

  lemma {:induction false} AtMost(s: set<nat>, n: nat)
    requires forall v :: v in s ==> v < n
    ensures |s| <= n
  {
    if n > 0 {
      AtMost(s - {n - 1}, n - 1);
      if n - 1 in s {
        assert s == (s - {n - 1}) + {n - 1};
      } else {
        assert s == s - {n - 1};
      }
    }
  }

  /** One pass takes at most as many steps as there are nodes, and six more. */
  lemma PassIsBounded(tr: Trace, i: nat, tid: nat)
    requires IsTrace(tr) && i < |tr.states| && tid < |tr.states[i].threads|
    ensures OwnSteps(tr, PassStart(tr, i, tid), i, tid)
            <= |HeapAt(tr, i, tr.states[i].threads[tid].op.key)| + Cost(tr.states[i].threads[tid].pc)
  {
    var cs := TraceStateInv(tr, i);
    var visited := PassWalks(tr, i, tid);
    hide IsTrace, HeapAt;
    AtMost(visited, |HeapAt(tr, i, tr.states[i].threads[tid].op.key)|);
  }

  // ---------------------------------------------------------------- how often a list can change

  function LinkedNodes(h: Heap, c: seq<nat>): set<nat> {
    set n | 0 <= n < |h| && Linked(h, c, n)
  }

  function MarkedNodes(h: Heap): set<nat> {
    set n | 0 <= n < |h| && Marked(h, n)
  }

  /** The marked nodes that are off the chain. */
  function OffNodes(h: Heap, c: seq<nat>): set<nat> {
    set n | 0 <= n < |h| && Marked(h, n) && n !in c
  }

  /** How far the nodes of a list have come: linked, marked, taken off. */
  function Advanced(h: Heap, c: seq<nat>): nat {
    |LinkedNodes(h, c)| + |MarkedNodes(h)| + |OffNodes(h, c)|
  }

  lemma AdvancedAtMost(h: Heap, c: seq<nat>)
    ensures Advanced(h, c) <= 3 * |h|
  {
    AtMost(LinkedNodes(h, c), |h|);
    AtMost(MarkedNodes(h), |h|);
    AtMost(OffNodes(h, c), |h|);
  }

  lemma {:induction false} SmallerSet(a: set<nat>, b: set<nat>)
    requires a <= b
    ensures |a| <= |b|
  {
    if a != {} {
      var x :| x in a;
      SmallerSet(a - {x}, b - {x});
    }
  }

  lemma OneMore(a: set<nat>, b: set<nat>, x: nat)
    requires a <= b && x in b && x !in a
    ensures |a| + 1 <= |b|
  {
    SmallerSet(a + {x}, b);
  }

  /** No node ever goes back. */
  lemma NeverBack(h: Heap, c: seq<nat>, h': Heap, c': seq<nat>, own: nat)
    requires Evolves(h, c, h', c', own)
    ensures LinkedNodes(h, c) <= LinkedNodes(h', c') && MarkedNodes(h) <= MarkedNodes(h')
    ensures OffNodes(h, c) <= OffNodes(h', c')
    ensures Advanced(h, c) <= Advanced(h', c')
  {
    assert LinkedNodes(h, c) <= LinkedNodes(h', c') && MarkedNodes(h) <= MarkedNodes(h');
    assert OffNodes(h, c) <= OffNodes(h', c');
    hide LinkedNodes, MarkedNodes, OffNodes;
    SmallerSet(LinkedNodes(h, c), LinkedNodes(h', c'));
    SmallerSet(MarkedNodes(h), MarkedNodes(h'));
    SmallerSet(OffNodes(h, c), OffNodes(h', c'));
  }

  /** Which set of nodes a successful compare-and-swap adds to. */
  lemma CasMovesNode(h: Heap, c: seq<nat>, th: Thread, h': Heap, c': seq<nat>) returns (n: nat)
    requires ListInv(h, c) && LocalInv(h, c, th) && Safe(h, th) && CasSucceeds(h, th)
    requires h' == Advance(h, th).0 && ListInv(h', c')
    ensures || (n in LinkedNodes(h', c') && n !in LinkedNodes(h, c))
            || (n in MarkedNodes(h') && n !in MarkedNodes(h))
            || (n in OffNodes(h', c') && n !in OffNodes(h, c))
  {
    match th.pc
    case CasLink(left, right) =>
      n := th.insertion;
      var d := LinkMovesNode(h, c, th);
      ChainUnique(h', c', d);
    case CasMark(left, right, rightNext) =>
      n := right;
    case CasBypass(left, leftNext, right) =>
      n := leftNext.target;
      LinkedInRange(h, c, left);
      var d := BypassMarked(h, c, left, leftNext.target, right);
      ChainUnique(h', c', d);
      OffNow(h, c, h', c', n);
    case CasUnlink(left, right, rightNext) =>
      n := right;
      LinkedInRange(h, c, left);
      assert MarkedPath(h, [right], rightNext.target);
      var d := BypassMarked(h, c, left, right, rightNext.target);
      ChainUnique(h', c', d);
      OffNow(h, c, h', c', n);
  }

  lemma LinkMovesNode(h: Heap, c: seq<nat>, th: Thread) returns (d: seq<nat>)
    requires ListInv(h, c) && LocalInv(h, c, th) && Safe(h, th) && Links(h, th)
    ensures ListInv(Advance(h, th).0, d) && th.insertion in d && th.insertion < |h| && !Linked(h, c, th.insertion)
  {
    LinkedInRange(h, c, th.pc.left);
    d := LinkFresh(h, c, th.pc.left, th.pc.right, th.insertion);
  }

  lemma OffNow(h: Heap, c: seq<nat>, h': Heap, c': seq<nat>, n: nat)
    requires n in c && Marked(h, n) && n !in c' && |h'| == |h| && h'[n] == h[n]
    ensures n in OffNodes(h', c') && n !in OffNodes(h, c)
  {
  }

  lemma CasAdvances(h: Heap, c: seq<nat>, th: Thread, h': Heap, c': seq<nat>, own: nat)
    requires ListInv(h, c) && LocalInv(h, c, th) && Safe(h, th) && h' == Advance(h, th).0
    requires ListInv(h', c') && Evolves(h, c, h', c', own)
    ensures Advanced(h', c') >= Advanced(h, c) + if CasSucceeds(h, th) then 1 else 0
  {
    NeverBack(h, c, h', c', own);
    if CasSucceeds(h, th) {
      var n := CasMovesNode(h, c, th, h', c');
      hide *;
      AdvancedMore(h, c, h', c', n);
    }
  }

  lemma AdvancedMore(h: Heap, c: seq<nat>, h': Heap, c': seq<nat>, n: nat)
    requires LinkedNodes(h, c) <= LinkedNodes(h', c') && MarkedNodes(h) <= MarkedNodes(h')
    requires OffNodes(h, c) <= OffNodes(h', c')
    requires || (n in LinkedNodes(h', c') && n !in LinkedNodes(h, c))
             || (n in MarkedNodes(h') && n !in MarkedNodes(h))
             || (n in OffNodes(h', c') && n !in OffNodes(h, c))
    ensures Advanced(h', c') >= Advanced(h, c) + 1
  {
    hide LinkedNodes, MarkedNodes, OffNodes;
    SmallerSet(LinkedNodes(h, c), LinkedNodes(h', c'));
    SmallerSet(MarkedNodes(h), MarkedNodes(h'));
    SmallerSet(OffNodes(h, c), OffNodes(h', c'));
    if n in LinkedNodes(h', c') && n !in LinkedNodes(h, c) {
      OneMore(LinkedNodes(h, c), LinkedNodes(h', c'), n);
    } else if n in MarkedNodes(h') && n !in MarkedNodes(h) {
      OneMore(MarkedNodes(h), MarkedNodes(h'), n);
    } else {
      OneMore(OffNodes(h, c), OffNodes(h', c'), n);
    }
  }

  // ---------------------------------------------------------------- changes in a run

  /** At instant `u` some thread changes the list of `key`. */
  predicate ChangedAt(tr: Trace, u: nat, key: int) {
    && u < |tr.labels| && u < |tr.states| && |tr.states[u].buckets| > 0
    && tr.labels[u].Run? && tr.labels[u].tid < |tr.states[u].threads|
    && var th := tr.states[u].threads[tr.labels[u].tid];
       Home(tr.states[u], th.op.key) == Home(tr.states[u], key) && CasSucceeds(HeapAt(tr, u, key), th)
  }

  /** How often the list of `key` was changed before instant `i`. */
  function ListChanges(tr: Trace, i: nat, key: int): nat {
    if i == 0 then 0 else ListChanges(tr, i - 1, key) + if ChangedAt(tr, i - 1, key) then 1 else 0
  }

  lemma StepAdvances(tr: Trace, i: nat, key: int, c: seq<nat>) returns (c': seq<nat>)
    requires IsTrace(tr) && i < |tr.labels| && ListInv(HeapAt(tr, i, key), c)
    ensures ListInv(HeapAt(tr, i + 1, key), c')
    ensures Advanced(HeapAt(tr, i + 1, key), c')
            >= Advanced(HeapAt(tr, i, key), c) + if ChangedAt(tr, i, key) then 1 else 0
  {
    var s, l := tr.states[i], tr.labels[i];
    var cs := TraceStateInv(tr, i);
    var d, own := StepBucket(s, l, tr.states[i + 1], cs);
    assert Next(s, l, tr.states[i + 1]);
    assert ThreadOk(s, cs, l.tid);
    var b := Home(s, key);
    ChainUnique(HeapAt(tr, i, key), c, cs[b]);
    hide ListInv, LocalInv, Safe, Advance, StateInv, Evolves, Advanced, CasSucceeds, IsChain;
    if Home(s, OpOf(s, l).key) != b {
      c' := c;
    } else {
      c' := d;
      if l.Run? {
        CasAdvances(s.buckets[b], c, s.threads[l.tid], HeapAt(tr, i + 1, key), c', own);
      } else {
        NeverBack(s.buckets[b], c, HeapAt(tr, i + 1, key), c', own);
      }
    }
  }

  lemma {:induction false} ChangesAdvance(tr: Trace, i: nat, key: int) returns (c: seq<nat>)
    requires IsTrace(tr) && i < |tr.states|
    ensures ListInv(HeapAt(tr, i, key), c) && ListChanges(tr, i, key) <= Advanced(HeapAt(tr, i, key), c)
  {
    if i == 0 {
      var cs := TraceStateInv(tr, 0);
      c := cs[Home(tr.states[0], key)];
    } else {
      c := ChangesAdvance(tr, i - 1, key);
      hide ListInv, HeapAt, ChangedAt, Advanced;
      c := StepAdvances(tr, i - 1, key, c);
    }
  }

  /** A list is changed at most three times for each of its nodes. */
  lemma ChangesAreBounded(tr: Trace, i: nat, key: int)
    requires IsTrace(tr) && i < |tr.states|
    ensures ListChanges(tr, i, key) <= 3 * |HeapAt(tr, i, key)|
  {
    var c := ChangesAdvance(tr, i, key);
    AdvancedAtMost(HeapAt(tr, i, key), c);
  }

  lemma {:induction false} DisturbancesAreChanges(tr: Trace, lo: nat, hi: nat, tid: nat, key: int)
    requires lo <= hi
    ensures Disturbances(tr, lo, hi, tid, key) <= ListChanges(tr, hi, key)
    decreases hi
  {
    if lo < hi {
      DisturbancesAreChanges(tr, lo, hi - 1, tid, key);
    }
  }

  // ---------------------------------------------------------------- the steps of a call

  lemma HeapGrows(tr: Trace, i: nat, key: int)
    requires IsTrace(tr) && i < |tr.labels|
    ensures |HeapAt(tr, i, key)| <= |HeapAt(tr, i + 1, key)|
  {
    MarkedNodesAreFrozen(tr, i, i + 1, key);
  }

  /** What so many rounds can cost. */
  function RoundSteps(rounds: nat, n: nat): nat {
    rounds * (n + 6)
  }

  lemma MoreRounds(rounds: nat, n: nat, n': nat)
    requires n <= n'
    ensures RoundSteps(rounds, n) <= RoundSteps(rounds, n')
    ensures RoundSteps(rounds, n) + n + 6 <= RoundSteps(rounds + 1, n')
  {
    assert (rounds + 1) * (n' + 6) == rounds * (n' + 6) + (n' + 6);
    Multiply(rounds, n + 6, n' + 6);
  }

  lemma Multiply(a: nat, x: nat, y: nat)
    requires x <= y
    ensures a * x <= a * y
  {
  }

  ghost predicate StepsPaid(tr: Trace, i: nat, tid: nat)
    requires i < |tr.states| == |tr.labels| + 1 && tid < |tr.states[i].threads|
  {
    var lo, pass := CallStart(tr, i, tid), PassStart(tr, i, tid);
    var n := |HeapAt(tr, i, tr.states[i].threads[tid].op.key)|;
    lo <= pass && OwnSteps(tr, lo, i, tid) <= RoundSteps(Retries(tr, lo, i, tid), n) + OwnSteps(tr, pass, i, tid)
  }

  lemma StepPaid(tr: Trace, i: nat, tid: nat)
    requires IsTrace(tr) && i < |tr.labels| && tid < |tr.states[i].threads| && StepsPaid(tr, i, tid)
    ensures tid < |tr.states[i + 1].threads| && StepsPaid(tr, i + 1, tid)
  {
    hide IsTrace, HeapAt, Retries, CallStart, PassStart, OwnSteps, Cost, RoundSteps;
    TraceLength(tr);
    ThreadKept(tr, i, tid);
    StartsMove(tr, i, tid);
    PassInCall(tr, i + 1, tid);
    if tr.labels[i].Invoke? && tr.labels[i].tid == tid {
      NoOwnSteps(tr, i + 1, tid);
    } else {
      var key, lo, pass := tr.states[i].threads[tid].op.key, CallStart(tr, i, tid), PassStart(tr, i, tid);
      OneOwnStep(tr, lo, i, tid);
      OneOwnStep(tr, pass, i, tid);
      NoOwnSteps(tr, i + 1, tid);
      HeapGrows(tr, i, key);
      MoreRounds(Retries(tr, lo, i, tid), |HeapAt(tr, i, key)|, |HeapAt(tr, i + 1, key)|);
      if tr.labels[i] == Run(tid) {
        PassIsBounded(tr, i, tid);
        RunCosts(tr, i, tid);
      }
    }
  }

  lemma OneOwnStep(tr: Trace, lo: nat, i: nat, tid: nat)
    requires lo <= i < |tr.labels|
    ensures OwnSteps(tr, lo, i + 1, tid) == OwnSteps(tr, lo, i, tid) + if tr.labels[i] == Run(tid) then 1 else 0
  {
  }

  lemma NoOwnSteps(tr: Trace, i: nat, tid: nat)
    requires i <= |tr.labels|
    ensures OwnSteps(tr, i, i, tid) == 0
  {
  }

  lemma RunCosts(tr: Trace, i: nat, tid: nat)
    requires IsTrace(tr) && i < |tr.labels| && tr.labels[i] == Run(tid) && tid < |tr.states[i].threads|
    ensures Cost(tr.states[i].threads[tid].pc) <= 5
  {
    assert Next(tr.states[i], tr.labels[i], tr.states[i + 1]);
  }

  lemma {:induction false} AllStepsPaid(tr: Trace, i: nat, tid: nat)
    requires IsTrace(tr) && i < |tr.states| && tid < |tr.states[0].threads|
    ensures tid < |tr.states[i].threads| && StepsPaid(tr, i, tid)
  {
    if i > 0 {
      hide StepsPaid, Next, Init;
      AllStepsPaid(tr, i - 1, tid);
      StepPaid(tr, i - 1, tid);
    }
  }

  // ---------------------------------------------------------------- the nodes of a list

  /** How many inserts were invoked on the list of `key` before instant `i`. */
  function InsertsOn(tr: Trace, i: nat, key: int): nat
    requires i <= |tr.labels| && i <= |tr.states|
  {
    if i == 0 then 0
    else
      InsertsOn(tr, i - 1, key)
      + if tr.labels[i - 1].Invoke? && tr.labels[i - 1].op.Insert? && |tr.states[i - 1].buckets| > 0
           && Home(tr.states[i - 1], tr.labels[i - 1].op.key) == Home(tr.states[i - 1], key) then 1 else 0
  }

  lemma {:induction false} NodesAreInserts(tr: Trace, i: nat, key: int)
    requires IsTrace(tr) && i < |tr.states|
    ensures |HeapAt(tr, i, key)| == 2 + InsertsOn(tr, i, key)
  {
    if i > 0 {
      NodesAreInserts(tr, i - 1, key);
      var cs := TraceStateInv(tr, i - 1);
      var s, l := tr.states[i - 1], tr.labels[i - 1];
      assert Next(s, l, tr.states[i]);
      var d, own := StepBucket(s, l, tr.states[i], cs);
      hide ListInv, LocalInv, Safe, StateInv, Evolves, Advance;
      if l.Run? {
        AdvanceShape(s.buckets[Home(s, s.threads[l.tid].op.key)], s.threads[l.tid]);
      }
    }
  }

  lemma RetriesByNodes(tr: Trace, i: nat, tid: nat)
    requires IsTrace(tr) && i < |tr.states| && tid < |tr.states[i].threads|
    ensures Retries(tr, CallStart(tr, i, tid), i, tid) <= 3 * |HeapAt(tr, i, tr.states[i].threads[tid].op.key)|
  {
    var key, lo := tr.states[i].threads[tid].op.key, CallStart(tr, i, tid);
    RetriesAreBounded(tr, i, tid);
    hide IsTrace, HeapAt, Retries, CallStart, ListChanges, Disturbances;
    DisturbancesAreChanges(tr, lo, i, tid, key);
    ChangesAreBounded(tr, i, key);
  }

  lemma StepsByRounds(tr: Trace, i: nat, tid: nat)
    requires IsTrace(tr) && i < |tr.states| && tid < |tr.states[i].threads|
    ensures var lo, n := CallStart(tr, i, tid), |HeapAt(tr, i, tr.states[i].threads[tid].op.key)|;
            OwnSteps(tr, lo, i, tid) <= RoundSteps(Retries(tr, lo, i, tid), n) + n + 6
  {
    var cs := TraceStateInv(tr, i);
    AllStepsPaid(tr, i, tid);
    PassIsBounded(tr, i, tid);
    hide IsTrace, HeapAt, StateInv, Retries, CallStart, PassStart, OwnSteps, Cost;
    CostAtMost(tr.states[i].threads[tid].pc);
  }

  /** A first round and at most three more for each node, with at most six steps more than nodes. */
  function StepBound(n: nat): nat {
    (1 + 3 * n) * (n + 6)
  }

  /** Main result: in every run, a call is done after at most `StepBound(n)` steps of its own, where
      `n` counts the sentinels of its list and the inserts invoked on it so far. */
  lemma CallIsBounded(tr: Trace, i: nat, tid: nat)
    requires IsTrace(tr) && i < |tr.states| && tid < |tr.states[i].threads|
    ensures var n := 2 + InsertsOn(tr, i, tr.states[i].threads[tid].op.key);
            OwnSteps(tr, CallStart(tr, i, tid), i, tid) <= StepBound(n)
  {
    var key, lo := tr.states[i].threads[tid].op.key, CallStart(tr, i, tid);
    hide IsTrace, HeapAt, Retries, CallStart, OwnSteps, InsertsOn, StepBound;
    NodesAreInserts(tr, i, key);
    RetriesByNodes(tr, i, tid);
    StepsByRounds(tr, i, tid);
    RoundsAtMost(Retries(tr, lo, i, tid), |HeapAt(tr, i, key)|, OwnSteps(tr, lo, i, tid));
  }

  lemma CostAtMost(pc: Pc)
    ensures Cost(pc) <= 6
  {
  }

  lemma RoundsAtMost(rounds: nat, n: nat, steps: nat)
    requires rounds <= 3 * n && steps <= RoundSteps(rounds, n) + n + 6
    ensures steps <= StepBound(n)
  {
    Multiply(n + 6, rounds, 3 * n);
    assert (1 + 3 * n) * (n + 6) == (n + 6) + 3 * n * (n + 6);
  }
}
