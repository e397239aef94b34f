/** The super version protocol over whole runs. */
module SuperVersionRuns {
  import opened Basics
  import opened SuperVersions
  import opened SuperVersionSafety

  lemma CountsAfter(s: State, t: nat, a: Action, v: nat)
    requires Inv(s) && Enabled(s, t, a) && Safe(s, t, a)
    ensures CountOk(After(s, t, a), v) && CleanOk(After(s, t, a), v)
  {
    assert CountOk(s, v) && CleanOk(s, v);
    hide Inv, After, Safe, Enabled, CountOk, CleanOk;
    if Scrapes(s, t, a) {
      ScrapeKeepsCounts(s, t, v);
      ScrapeKeepsCleans(s, t, v);
    } else {
      CountsKept(s, t, a, v);
      CleansKept(s, t, a, v);
    }
  }

  lemma ThreadAfter(s: State, t: nat, a: Action, u: nat)
    requires Inv(s) && Enabled(s, t, a) && Safe(s, t, a) && u < |s.threads|
    ensures var s' := After(s, t, a);
            |s'.threads| == |s.threads| && LockOk(s', u) && SlotOk(s'.threads[u]) && FreshOk(s', u)
  {
    assert LockOk(s, t) && LockOk(s, u) && SlotOk(s.threads[t]) && SlotOk(s.threads[u]) && FreshOk(s, t)
           && FreshOk(s, u);
    hide Inv, After, Safe, Expected, SlotOk, InMutex;
    LockMoves(s, t, a);
    if u == t {
      OwnSlot(s, t, a);
      OwnFresh(s, t, a);
    } else {
      OtherThread(s, t, a, u);
      ScrapedSlot(s.threads[u]);
    }
    if !(Scrapes(s, t, a) && s.threads[t].pc.next == u) {
      ExpectedKept(s, t, a, u);
    }
  }

  lemma ScrapedSlot(th: Thread)
    requires SlotOk(th)
    ensures SlotOk(th.(slot := Obsolete)) && !SlotVersion(th.(slot := Obsolete)).Cached?
  {
  }

  lemma StepKeepsInv(s: State, t: nat, a: Action, s': State)
    requires Inv(s) && Next(s, t, a, s')
    ensures Safe(s, t, a) && s' == After(s, t, a) && Inv(s') && |s'.threads| == |s.threads|
  {
    StepIsSafe(s, t, a);
    hide After, Safe, Enabled, CountOk, CleanOk, SlotOk, LockOk, FreshOk, NumbersOk;
    forall v: nat
      ensures CountOk(s', v) && CleanOk(s', v)
    {
      CountsAfter(s, t, a, v);
    }
    EnabledInRange(s, t, a);
    ThreadAfter(s, t, a, t);
    forall u: nat | u < |s'.threads|
      ensures LockOk(s', u) && SlotOk(s'.threads[u]) && FreshOk(s', u)
    {
      ThreadAfter(s, t, a, u);
    }
    NumbersKept(s, t, a);
  }

  lemma EnabledInRange(s: State, t: nat, a: Action)
    requires Enabled(s, t, a)
    ensures t < |s.threads|
  {
  }

  lemma InitInv(s: State)
    requires Init(s)
    ensures Inv(s)
  {
    forall v: nat
      ensures CountOk(s, v) && CleanOk(s, v)
    {
      NobodyOwns(s.threads, v);
    }
  }

  lemma {:induction false} NobodyOwns(threads: seq<Thread>, v: nat)
    requires forall t :: 0 <= t < |threads| ==> threads[t] == Thread(Obsolete, Idle)
    ensures Owned(threads, v) == 0 && Owed(threads, v) == 0
  {
    if threads != [] {
      NobodyOwns(threads[..|threads| - 1], v);
    }
  }

  /** Every state of every run satisfies the invariant, and no step of it is unsafe: none touches
      a version that was cleaned up, and none fails an assertion of the protocol. */
  lemma {:induction false} RunInv(states: seq<State>, moves: seq<Move>, i: nat)
    requires IsRun(states, moves) && i < |states|
    ensures Inv(states[i])
    ensures i < |moves| ==>
            Enabled(states[i], moves[i].tid, moves[i].action) && Safe(states[i], moves[i].tid, moves[i].action)
  {
    hide Inv, Safe, Enabled, After, Init;
    if i == 0 {
      InitInv(states[0]);
    } else {
      RunInv(states, moves, i - 1);
      assert Next(states[i - 1], moves[i - 1].tid, moves[i - 1].action, states[i]);
      StepKeepsInv(states[i - 1], moves[i - 1].tid, moves[i - 1].action, states[i]);
    }
    if i < |moves| {
      assert Next(states[i], moves[i].tid, moves[i].action, states[i + 1]);
      StepIsSafe(states[i], moves[i].tid, moves[i].action);
    }
  }

  // ---------------------------------------------------------------- what it means

  /** The reference count of every version is the number of its owners, and it is cleaned up only
      without owners and never twice. */
  lemma ReferencesAreExact(states: seq<State>, moves: seq<Move>, i: nat, v: nat)
    requires IsRun(states, moves) && i < |states| && v < |states[i].versions|
    ensures var s := states[i];
            && s.versions[v].refs == Bit(v == s.current) + Owned(s.threads, v) + s.extra[v]
            && s.versions[v].cleaned <= 1
            && (s.versions[v].cleaned == 1 ==> s.versions[v].refs == 0)
            && (s.versions[v].refs == 0 && Owed(s.threads, v) == 0 ==> s.versions[v].cleaned == 1)
  {
    RunInv(states, moves, i);
    hide Owned, Owed;
    assert CountOk(states[i], v) && CleanOk(states[i], v);
  }

  /** A version in use by a thread, cached in a slot or handed out is not cleaned up. */
  lemma HeldIsAlive(states: seq<State>, moves: seq<Move>, i: nat, t: nat, v: nat)
    requires IsRun(states, moves) && i < |states| && t < |states[i].threads|
    requires Owns(states[i].threads[t], v) > 0 || v in states[i].extra || v == states[i].current
    ensures Usable(states[i], v) && states[i].versions[v].refs > 0
  {
    RunInv(states, moves, i);
    hide Owned, Owed;
    assert CountOk(states[i], v) && CleanOk(states[i], v);
    OwnedUpdate(states[i].threads, t, states[i].threads[t], v);
  }

  /** An install has replaced the current version and has not scraped the slot of `t` yet. */
  predicate InstallPending(s: State, t: nat) {
    s.lock.Held? && s.lock.tid < |s.threads| &&
    var pc := s.threads[s.lock.tid].pc;
    pc.Switched? || pc.Counted? || (pc.Scraping? && pc.next <= t)
  }

  /** The version a thread caches in its slot, or has taken from it and may put back, is the
      current one exactly if no install is on its way to the slot. */
  lemma SlotsAreCurrent(states: seq<State>, moves: seq<Move>, i: nat, t: nat)
    requires IsRun(states, moves) && i < |states| && t < |states[i].threads|
    requires SlotVersion(states[i].threads[t]).Cached?
    ensures SlotVersion(states[i].threads[t]).v == states[i].current <==> !InstallPending(states[i], t)
  {
    RunInv(states, moves, i);
    assert FreshOk(states[i], t) && NumbersOk(states[i]);
  }

  /** A compare-and-swap that puts a version back succeeds exactly if the slot was not scraped,
      and the version it puts back is then still current exactly if no install is on its way. */
  lemma PutBackIsCurrentIff(states: seq<State>, moves: seq<Move>, i: nat)
    requires IsRun(states, moves) && i < |moves| && moves[i].action == Step && moves[i].tid < |states[i].threads|
    requires var pc := states[i].threads[moves[i].tid].pc; pc.Holding? || pc.Sharing?
    ensures moves[i].tid < |states[i + 1].threads|
    ensures var t := moves[i].tid;
            var th, th' := states[i].threads[t], states[i + 1].threads[t];
            && (th'.slot == Cached(th.pc.v) <==> th.slot.InUse?)
            && (th.slot.InUse? ==> (th.pc.v == states[i + 1].current <==> !InstallPending(states[i], t)))
            && (!th.slot.InUse? ==> th.slot.Obsolete? && th'.slot.Obsolete?)
  {
    var t := moves[i].tid;
    RunInv(states, moves, i);
    assert Next(states[i], t, moves[i].action, states[i + 1]);
    assert SlotOk(states[i].threads[t]);
    if states[i].threads[t].slot.InUse? {
      SlotsAreCurrent(states, moves, i, t);
    }
  }

  // Thread 0 takes version 0, thread 1 installs version 1, thread 0 puts version 0 back.
  const PUT_BACK_MOVES: seq<Move> :=
    [Move(0, Get), Move(0, Step), Move(0, Step), Move(0, Step), Move(0, Step),
     Move(1, Install), Move(1, Step), Move(1, Step), Move(0, Step)]

  function TwoThreads(versions: seq<Version>, current: nat, lock: Lock, reader: Thread, installer: Pc): State {
    State(versions, current, 1, lock, [reader, Thread(Obsolete, installer)], multiset{})
  }

  function PutBackStates(): seq<State> {
    var v, w, n := Version(1, 1, 0), Version(2, 1, 0), Version(1, 0, 0);
    var held := Thread(InUse, Holding(0));
    [TwoThreads([v], 0, Free, Thread(Obsolete, Idle), Idle),
     TwoThreads([v], 0, Free, Thread(InUse, Swapped(Obsolete)), Idle),
     TwoThreads([v], 0, Free, Thread(InUse, Waiting(Obsolete)), Idle),
     TwoThreads([v], 0, Held(0), Thread(InUse, Locked(Obsolete)), Idle),
     TwoThreads([w], 0, Held(0), Thread(InUse, Acquired(0)), Idle),
     TwoThreads([w], 0, Free, held, Idle),
     TwoThreads([w], 0, Free, held, InstallWait),
     TwoThreads([w, n], 0, Held(1), held, Created(1)),
     TwoThreads([w, n], 1, Held(1), held, Switched(0)),
     TwoThreads([w, n], 1, Held(1), Thread(Cached(0), Idle), Switched(0))]
  }

  /** In this run the compare-and-swap succeeds and puts back a version that is not current. */
  lemma OldVersionPutBack()
    ensures IsRun(PutBackStates(), PUT_BACK_MOVES)
    ensures PutBackStates()[9].threads[0].slot == Cached(0) && PutBackStates()[9].current == 1
    ensures InstallPending(PutBackStates()[8], 0)
  {
    var ss := PutBackStates();
    forall i | 0 <= i < |PUT_BACK_MOVES|
      ensures Next(ss[i], PUT_BACK_MOVES[i].tid, PUT_BACK_MOVES[i].action, ss[i + 1])
    {
    }
  }

  /** A thread that has taken a version got the one numbered by the global counter at that step. */
  lemma TakenIsCurrent(states: seq<State>, moves: seq<Move>, i: nat)
    requires IsRun(states, moves) && i < |moves| && moves[i].tid < |states[i].threads| && moves[i].action == Step
    requires var pc := states[i].threads[moves[i].tid].pc; pc.Swapped? || pc.Locked?
    ensures moves[i].tid < |states[i + 1].threads|
    ensures var pc := states[i + 1].threads[moves[i].tid].pc;
            pc.Holding? || pc.Acquired? ==>
              pc.v < |states[i].versions| && states[i].versions[pc.v].number == states[i].number == states[i + 1].number
  {
    RunInv(states, moves, i);
    assert Next(states[i], moves[i].tid, moves[i].action, states[i + 1]);
    StepKeepsInv(states[i], moves[i].tid, moves[i].action, states[i + 1]);
    assert LockOk(states[i], moves[i].tid);
    assert NumbersOk(states[i]);
  }

  /** Once all threads are idle and everything handed out is back, every version that is neither
      current nor cached was cleaned up exactly once. */
  lemma QuietMeansClean(states: seq<State>, moves: seq<Move>, i: nat, v: nat)
    requires IsRun(states, moves) && i < |states| && v < |states[i].versions|
    requires forall t :: 0 <= t < |states[i].threads| ==> states[i].threads[t].pc.Idle?
    requires states[i].extra == multiset{}
    ensures v == states[i].current ==> states[i].versions[v].cleaned == 0
    ensures v != states[i].current ==> states[i].versions[v].cleaned == 1 && states[i].versions[v].refs == 0
  {
    RunInv(states, moves, i);
    var s := states[i];
    assert CountOk(s, v) && CleanOk(s, v);
    forall t: nat | t < |s.threads|
      ensures !s.lock.Held? || s.lock.tid != t
      ensures s.threads[t].slot.Cached? ==> s.threads[t].slot.v == s.current
    {
      assert LockOk(s, t) && FreshOk(s, t);
    }
    IdleOwns(s.threads, s.current, v);
  }

  lemma {:induction false} IdleOwns(threads: seq<Thread>, current: nat, v: nat)
    requires forall t :: 0 <= t < |threads| ==> threads[t].pc.Idle?
    requires forall t :: 0 <= t < |threads| && threads[t].slot.Cached? ==> threads[t].slot.v == current
    ensures Owed(threads, v) == 0 && (v != current ==> Owned(threads, v) == 0)
  {
    if threads != [] {
      IdleOwns(threads[..|threads| - 1], current, v);
    }
  }
}
