/** The clock cache over whole runs. */
module ClockRuns {
  import opened ClockCache
  import opened ClockSafety
  import opened ClockSteps
  import opened ClockGuard

  // ---------------------------------------------------------------- the mutex

  /** The mutex is taken when free and given back by its holder. */
  predicate LockMoved(s: State, t: nat, o: Outcome) {
    && (InMutex(o.th.pc) <==> o.s.lock == Locked(t))
    && (o.s.lock == s.lock || (s.lock == Free && o.s.lock == Locked(t)) || (s.lock == Locked(t) && o.s.lock == Free))
  }

  lemma QuickLock(s: State, t: nat, th: Thread)
    requires PhaseOf(th.pc) == OnRefs && SafeQuick(s, th.pc) && (InMutex(th.pc) <==> s.lock == Locked(t))
             && (Waits(th.pc) ==> s.lock == Free)
    ensures LockMoved(s, t, QuickStep(s, t, th))
  {
  }

  lemma EvictingLock(s: State, t: nat, th: Thread)
    requires PhaseOf(th.pc) == OnEviction && SafeEvicting(s, th.pc) && (InMutex(th.pc) <==> s.lock == Locked(t))
             && (Waits(th.pc) ==> s.lock == Free)
    ensures LockMoved(s, t, EvictStep(s, t, th))
  {
  }

  lemma InsertingLock(s: State, t: nat, th: Thread)
    requires PhaseOf(th.pc) == OnInsertion && SafeInserting(s, th.pc) && (InMutex(th.pc) <==> s.lock == Locked(t))
             && (Waits(th.pc) ==> s.lock == Free)
    ensures LockMoved(s, t, InsertStep(s, th))
  {
  }

  lemma ErasingLock(s: State, t: nat, th: Thread)
    requires PhaseOf(th.pc) == OnErasure && SafeErasing(s, th.pc) && (InMutex(th.pc) <==> s.lock == Locked(t))
             && (Waits(th.pc) ==> s.lock == Free)
    ensures LockMoved(s, t, EraseStep(s, t, th))
  {
  }

  lemma AdvanceLock(s: State, t: nat)
    requires Enabled(s, t, Step) && Safe(s, t, Step) && LockOk(s, t)
    ensures LockMoved(s, t, Advance(s, t))
  {
    hide LockMoved, InMutex, QuickStep, EvictStep, InsertStep, EraseStep;
    var th := s.threads[t];
    match PhaseOf(th.pc)
    case OnRefs => QuickLock(s, t, th);
    case OnEviction => EvictingLock(s, t, th);
    case OnInsertion => InsertingLock(s, t, th);
    case OnErasure => ErasingLock(s, t, th);
  }

  function Result(s: State, t: nat, a: Action): Outcome
    requires Enabled(s, t, a) && Safe(s, t, a)
  {
    if a.Step? then Advance(s, t) else Call(s, t, a)
  }

  lemma LockAfter(s: State, t: nat, a: Action)
    requires Enabled(s, t, a) && Safe(s, t, a) && LockOk(s, t)
    ensures LockMoved(s, t, Result(s, t, a))
  {
    hide Advance, Call;
    if a.Step? {
      AdvanceLock(s, t);
    } else {
      CallFrames(s, t, a);
    }
  }

  // ---------------------------------------------------------------- what the mutex protects

  /** A step of the mutex holder keeps what the mutex protects. */
  lemma HolderStep(s: State, t: nat)
    requires Inv(s) && Enabled(s, t, Step) && Safe(s, t, Step) && InMutex(s.threads[t].pc)
    ensures Guarded(Advance(s, t).s, Resting(Advance(s, t).th.pc))
  {
    var th := s.threads[t];
    HolderFacts(s, t);
    hide Inv, InMutex, LivesOk, EntryOk, ListedOk, UsageOk, InBin, AllKeep, AllHold, LocalOk, QuickStep, EvictStep,
         InsertStep, EraseStep, BinMoves, Unreferenced, BinOk;
    forall h: nat
      ensures LivesOk(Advance(s, t).s, Resting(Advance(s, t).th.pc), h)
              && ListedOk(Advance(s, t).s, Resting(Advance(s, t).th.pc), h)
    {
      assert LivesOk(s, th.pc, h) && ListedOk(s, th.pc, h);
      BinFacts(s, t, h);
      match PhaseOf(th.pc)
      case OnRefs => QuickLives(s, t, th, h); QuickListed(s, t, th, h);
      case OnEviction => EvictingLives(s, t, th, h); EvictingListed(s, t, th, h);
      case OnInsertion => InsertingLives(s, th, h); InsertingListed(s, th, h);
      case OnErasure => ErasingLives(s, t, th, h); ErasingListed(s, t, th, h);
    }
    forall key: int
      ensures EntryOk(Advance(s, t).s, Resting(Advance(s, t).th.pc), key)
    {
      assert EntryOk(s, th.pc, key);
      match PhaseOf(th.pc)
      case OnRefs => QuickEntry(s, t, th, key);
      case OnEviction => EvictingEntry(s, t, th, key);
      case OnInsertion => InsertingEntry(s, th, key);
      case OnErasure => ErasingEntry(s, t, th, key);
    }
    match PhaseOf(th.pc)
    case OnRefs => QuickUsage(s, t, th); QuickLocal(s, t, th);
    case OnEviction => EvictingUsage(s, t, th); EvictingLocal(s, t, th);
    case OnInsertion => InsertingUsage(s, th); InsertingLocal(s, th);
    case OnErasure => ErasingUsage(s, t, th); ErasingLocal(s, t, th);
  }

  /** The handle the mutex holder has to itself is unreferenced and not in the bin. */
  lemma HolderFacts(s: State, t: nat)
    requires Inv(s) && Enabled(s, t, Step) && Safe(s, t, Step) && InMutex(s.threads[t].pc)
    ensures Guarded(s, s.threads[t].pc) && LocalOk(s, s.threads[t].pc) && (forall h: nat :: BinOk(s, h))
    ensures s.bin != [] ==> s.bin[|s.bin| - 1] < |s.handles|
    ensures var pc := s.threads[t].pc;
            && (pc.Filling? || pc.Publishing? || pc.EvictErase? || pc.Binning? || pc.EvictBin? ==>
                  Unreferenced(s, pc.h) && InBin(s.bin, pc.h) == 0)
            && (pc.UnsetBin? ==> InBin(s.bin, pc.e) == 0) && (pc.ClearBin? ==> InBin(s.bin, pc.i) == 0)
            && (pc.Counting? ==> InBin(s.bin, pc.h) == 0)
            && (pc.Replacing? && pc.job.Insertion? ==> EntryOk(s, pc, pc.job.key))
            && (pc.Erasing? ==> EntryOk(s, pc, pc.key))
            && (pc.EvictErase? ==> ListedOk(s, pc, pc.h))
  {
    assert LockOk(s, t) && LocalOk(s, s.threads[t].pc);
    var pc := s.threads[t].pc;
    if s.bin != [] {
      BinLast(s.bin);
      assert BinOk(s, s.bin[|s.bin| - 1]);
    }
    hide AllHold, AllKeep, InBin, TotalUpTo;
    if pc.Filling? || pc.Publishing? || pc.EvictErase? || pc.Binning? || pc.EvictBin? {
      KeeperMayRecycle(s, t, pc.h);
    } else if pc.UnsetBin? {
      KeeperMayRecycle(s, t, pc.e);
    } else if pc.ClearBin? {
      KeeperMayRecycle(s, t, pc.i);
    } else if pc.Counting? {
      assert BinOk(s, pc.h);
    }
  }

  lemma BinLast(bin: seq<nat>)
    requires bin != []
    ensures InBin(bin, bin[|bin| - 1]) > 0
  {
    BinPop(bin, bin[|bin| - 1]);
  }

  lemma BinFacts(s: State, t: nat, h: nat)
    requires t < |s.threads| && BinOk(s, h)
    ensures InBin(s.bin, h) <= 1 && (h >= |s.handles| ==> InBin(s.bin, h) == 0)
    ensures BinMoves(s.threads[t].pc, h) ==> InBin(s.bin, h) == 0
  {
    hide AllKeep, InBin;
    KeepUpdate(s.threads, t, s.threads[t], h);
  }

  /** Only the mutex holder changes more than reference counts and usage bits. */
  lemma OutsiderFrames(s: State, t: nat, a: Action)
    requires Enabled(s, t, a) && Safe(s, t, a) && LockOk(s, t) && !InMutex(s.threads[t].pc)
    ensures Framed(s, Result(s, t, a).s) && (InMutex(Result(s, t, a).th.pc) ==> Plain(Result(s, t, a).th.pc))
  {
    var th := s.threads[t];
    if !a.Step? {
      CallFrames(s, t, a);
    } else if PhaseOf(th.pc) == OnRefs {
      QuickFrames(s, t, th);
    } else {
      WaitFrames(s, t, th);
    }
  }

  lemma HolderAfter(s: State, t: nat, a: Action)
    requires Enabled(s, t, a) && Safe(s, t, a) && LockOk(s, t)
    ensures var o := Result(s, t, a);
            HolderPc(After(s, t, a)) ==
              if InMutex(s.threads[t].pc) then Resting(o.th.pc) else if InMutex(o.th.pc) then o.th.pc else HolderPc(s)
    ensures !InMutex(s.threads[t].pc) && InMutex(Result(s, t, a).th.pc) ==> HolderPc(s) == Idle
  {
    LockAfter(s, t, a);
    hide Advance, Call, InMutex;
  }

  lemma GuardedAfter(s: State, t: nat, a: Action)
    requires Inv(s) && Enabled(s, t, a) && Safe(s, t, a)
    ensures Guarded(After(s, t, a), HolderPc(After(s, t, a)))
  {
    assert LockOk(s, t);
    hide Guarded, InMutex, LockOk, BinOk, RefsOk, LocalOk, Advance, Call;
    var o := Result(s, t, a);
    HolderAfter(s, t, a);
    LockAfter(s, t, a);
    if InMutex(s.threads[t].pc) {
      if !a.Step? {
        CallFrames(s, t, a);
      }
      HolderStep(s, t);
      ThreadsFrame(o.s, After(s, t, a));
      FramedKeepsGuarded(o.s, Resting(o.th.pc), After(s, t, a), Resting(o.th.pc));
    } else {
      OutsiderFrames(s, t, a);
      ThreadsFrame(o.s, After(s, t, a));
      FramedKeepsGuarded(s, HolderPc(s), After(s, t, a), HolderPc(After(s, t, a)));
    }
  }

  lemma ThreadsFrame(s: State, s': State)
    requires s' == s.(threads := s'.threads)
    ensures Framed(s, s')
  {
  }

  // ---------------------------------------------------------------- local facts

  lemma OwnLocal(s: State, t: nat, a: Action)
    requires Inv(s) && Enabled(s, t, a) && Safe(s, t, a)
    ensures LocalOk(Result(s, t, a).s, Result(s, t, a).th.pc)
  {
    var th := s.threads[t];
    assert LockOk(s, t) && LocalOk(s, th.pc) && HeadOk(s);
    if !a.Step? {
      CallLocal(s, t, a);
    } else if InMutex(th.pc) {
      HolderFacts(s, t);
      hide Inv, LivesOk, EntryOk, ListedOk, UsageOk, InBin, AllKeep, AllHold, LocalOk, QuickStep, EvictStep, InsertStep,
           EraseStep;
      match PhaseOf(th.pc)
      case OnRefs => QuickLocal(s, t, th);
      case OnEviction => EvictingLocal(s, t, th);
      case OnInsertion => InsertingLocal(s, th);
      case OnErasure => ErasingLocal(s, t, th);
    } else if PhaseOf(th.pc) == OnRefs {
      QuickLocal(s, t, th);
    }
  }

  lemma CallLocal(s: State, t: nat, a: Action)
    requires Inv(s) && Enabled(s, t, a) && Safe(s, t, a) && !a.Step?
    ensures LocalOk(Call(s, t, a).s, Call(s, t, a).th.pc)
  {
    assert LocalOk(s, s.threads[t].pc);
    hide AllHold, AllKeep, InBin, TotalUpTo;
    if a.Lookup? {
      assert EntryOk(s, HolderPc(s), a.key);
    } else if a.Ref? {
      HolderHasHandle(s, t, a.h);
    }
  }

  /** A step cannot disturb what another thread relies on. */
  lemma OtherLocal(s: State, t: nat, a: Action, u: nat)
    requires Inv(s) && Enabled(s, t, a) && Safe(s, t, a) && u < |s.threads| && u != t
    ensures LocalOk(After(s, t, a), s.threads[u].pc)
  {
    assert LockOk(s, t) && LockOk(s, u) && LocalOk(s, s.threads[u].pc);
    hide Inv, Advance, Call, LocalOk, InMutex, Framed;
    var o := Result(s, t, a);
    if InMutex(s.threads[t].pc) {
      if !a.Step? {
        CallFrames(s, t, a);
      }
      HandlesStay(s, t);
      OutsiderLocal(s, o.s, s.threads[u].pc);
    } else {
      OutsiderFrames(s, t, a);
      FramedLocal(s, o.s, s.threads[u].pc);
    }
    LocalIgnoresThreads(o.s, After(s, t, a), s.threads[u].pc);
  }

  /** Without the mutex a thread relies only on handles being there. */
  lemma OutsiderLocal(s: State, s': State, pc: Pc)
    requires LocalOk(s, pc) && !InMutex(pc) && |s'.handles| >= |s.handles|
    ensures LocalOk(s', pc)
  {
  }

  lemma FramedLocal(s: State, s': State, pc: Pc)
    requires LocalOk(s, pc) && Framed(s, s')
    ensures LocalOk(s', pc)
  {
  }

  lemma HandlesStay(s: State, t: nat)
    requires Enabled(s, t, Step) && Safe(s, t, Step)
    ensures |Advance(s, t).s.handles| >= |s.handles|
  {
  }

  // ---------------------------------------------------------------- all states of all runs

  lemma ThreadAfter(s: State, t: nat, a: Action, u: nat)
    requires Inv(s) && Enabled(s, t, a) && Safe(s, t, a) && u < |s.threads|
    ensures LockOk(After(s, t, a), u) && LocalOk(After(s, t, a), After(s, t, a).threads[u].pc)
  {
    assert LockOk(s, t) && LockOk(s, u);
    hide Inv, Advance, Call, LocalOk, InMutex;
    LockAfter(s, t, a);
    if u == t {
      OwnLocal(s, t, a);
      LocalIgnoresThreads(Result(s, t, a).s, After(s, t, a), Result(s, t, a).th.pc);
    } else {
      OtherLocal(s, t, a, u);
    }
  }

  lemma LocalIgnoresThreads(s: State, s': State, pc: Pc)
    requires s' == s.(threads := s'.threads) && LocalOk(s, pc)
    ensures LocalOk(s', pc)
  {
  }

  lemma StepKeepsInv(s: State, t: nat, a: Action, s': State)
    requires Inv(s) && Next(s, t, a, s')
    ensures Safe(s, t, a) && s' == After(s, t, a) && Inv(s') && |s'.threads| == |s.threads|
  {
    StepIsSafe(s, t, a);
    assert LocalOk(s, s.threads[t].pc);
    GuardedAfter(s, t, a);
    hide Advance, Call, Guarded, LockOk, LocalOk, BinOk, RefsOk, Safe, HolderPc;
    forall h: nat
      ensures RefsOk(s', h) && BinOk(s', h)
    {
      assert RefsOk(s, h) && BinOk(s, h);
      RefsKept(s, t, a, h);
      BinKept(s, t, a, h);
    }
    forall u: nat | u < |s'.threads|
      ensures LockOk(s', u) && LocalOk(s', s'.threads[u].pc)
    {
      ThreadAfter(s, t, a, u);
    }
  }

  lemma {:induction false} NobodyHolds(threads: seq<Thread>, h: nat)
    requires forall t :: 0 <= t < |threads| ==> threads[t] == Thread(multiset{}, Idle)
    ensures AllHold(threads, h) == 0 && AllKeep(threads, h) == 0
  {
    if threads != [] {
      NobodyHolds(threads[..|threads| - 1], h);
    }
  }

  lemma InitInv(s: State)
    requires Init(s)
    ensures Inv(s)
  {
    forall h: nat
      ensures RefsOk(s, h) && BinOk(s, h)
    {
      NobodyHolds(s.threads, h);
    }
  }

  /** Every state of every run satisfies the invariant, and no assertion of the source fails. */
  lemma {:induction false} RunInv(states: seq<State>, moves: seq<Move>, i: nat)
    requires IsRun(states, moves) && i < |states|
    ensures Inv(states[i])
    ensures i < |moves| ==>
            Enabled(states[i], moves[i].tid, moves[i].action) && Safe(states[i], moves[i].tid, moves[i].action)
  {
    hide Inv, Safe, Enabled, After, Init;
    if i == 0 {
      InitInv(states[0]);
    } else {
      RunInv(states, moves, i - 1);
      assert Next(states[i - 1], moves[i - 1].tid, moves[i - 1].action, states[i]);
      StepKeepsInv(states[i - 1], moves[i - 1].tid, moves[i - 1].action, states[i]);
    }
    if i < |moves| {
      assert Next(states[i], moves[i].tid, moves[i].action, states[i + 1]);
      StepIsSafe(states[i], moves[i].tid, moves[i].action);
    }
  }

  // ---------------------------------------------------------------- what it means

  /** A handle is recycled once per life and never while it is cached or referenced: in the bin it
      occurs once and its last life is over; cached or referenced, its life goes on. */
  lemma RecycledOncePerLife(states: seq<State>, moves: seq<Move>, i: nat, h: nat)
    requires IsRun(states, moves) && i < |states| && h < |states[i].handles|
    ensures var s := states[i]; var handle := s.handles[h];
            && (h in s.bin ==> Unreferenced(s, h) && multiset(s.bin)[h] == 1 && handle.recycled == handle.lives)
            && (handle.flags.inCache || handle.flags.refs != 0 ==> h !in s.bin && handle.recycled + 1 == handle.lives)
            && handle.flags.refs == AllHold(s.threads, h)
  {
    RunInv(states, moves, i);
    var s := states[i];
    assert BinOk(s, h) && LivesOk(s, HolderPc(s), h) && RefsOk(s, h);
    hide AllHold, AllKeep, TotalUpTo;
    var pc := HolderPc(s);
    if s.lock.Locked? && s.lock.tid < |s.threads| && (pc.Filling? || pc.Publishing?) && pc.h == h {
      KeeperMayRecycle(s, s.lock.tid, h);
    }
  }

  /** While the mutex is free, a key is in the table exactly if a cached handle has it, and the table
      leads to this one handle. */
  lemma TableMatchesCache(states: seq<State>, moves: seq<Move>, i: nat, key: int)
    requires IsRun(states, moves) && i < |states| && states[i].lock == Free
    ensures var s := states[i];
            && (key in s.table
                <==> exists h :: 0 <= h < |s.handles| && s.handles[h].flags.inCache && s.handles[h].key == key)
            && (forall h: nat :: h < |s.handles| && s.handles[h].flags.inCache && s.handles[h].key == key ==>
                                   key in s.table && s.table[key] == h)
  {
    RunInv(states, moves, i);
    var s := states[i];
    assert EntryOk(s, Idle, key);
    forall h: nat | h < |s.handles| && s.handles[h].flags.inCache && s.handles[h].key == key
      ensures key in s.table && s.table[key] == h
    {
      assert ListedOk(s, Idle, h);
    }
  }

  /** The charges of all handles up to the n-th that are not in the bin. */
  function ChargesOutsideBin(s: State, n: nat): nat
    requires n <= |s.handles|
  {
    if n == 0 then 0 else ChargesOutsideBin(s, n - 1) + if n - 1 in s.bin then 0 else s.handles[n - 1].charge
  }

  lemma {:induction false} OutsideBin(s: State, n: nat)
    requires n <= |s.handles|
    ensures TotalUpTo(s, Idle, n) == ChargesOutsideBin(s, n)
  {
    if n > 0 {
      OutsideBin(s, n - 1);
    }
  }

  /** While the mutex is free, the usage is the sum of the charges of all handles not in the bin. */
  lemma UsageIsSum(states: seq<State>, moves: seq<Move>, i: nat)
    requires IsRun(states, moves) && i < |states| && states[i].lock == Free
    ensures states[i].usage == ChargesOutsideBin(states[i], |states[i].handles|)
  {
    RunInv(states, moves, i);
    OutsideBin(states[i], |states[i].handles|);
  }

  /** The same entry in the same life of the handle. */
  predicate SameLife(a: Handle, b: Handle) {
    a.key == b.key && a.charge == b.charge && a.lives == b.lives && a.recycled == b.recycled
  }

  /** A handle is referenced or cached. */
  predicate InUse(s: State, h: nat) {
    h < |s.handles| && (s.handles[h].flags.refs > 0 || s.handles[h].flags.inCache)
  }

  lemma EntryStays(states: seq<State>, moves: seq<Move>, i: nat, h: nat)
    requires IsRun(states, moves) && i < |moves|
    requires InUse(states[i], h)
    ensures h < |states[i + 1].handles| && SameLife(states[i].handles[h], states[i + 1].handles[h])
  {
    RunInv(states, moves, i);
    var s, t, a := states[i], moves[i].tid, moves[i].action;
    assert Next(s, t, a, states[i + 1]);
    StepKeepsInv(s, t, a, states[i + 1]);
    assert LockOk(s, t) && BinOk(s, h);
    hide Inv;
    if InMutex(s.threads[t].pc) {
      if !a.Step? {
        CallFrames(s, t, a);
      }
      KeepUpdate(s.threads, t, s.threads[t], h);
      HolderKeepsEntry(s, t, h);
    } else {
      OutsiderFrames(s, t, a);
    }
  }

  lemma HolderKeepsEntry(s: State, t: nat, h: nat)
    requires Enabled(s, t, Step) && Safe(s, t, Step) && h < |s.handles| && Keeps(s.threads[t], h) == 0
    ensures h < |Advance(s, t).s.handles| && SameLife(s.handles[h], Advance(s, t).s.handles[h])
  {
    hide QuickStep, EvictStep, InsertStep, EraseStep, Keeps, SameLife;
    var th := s.threads[t];
    match PhaseOf(th.pc)
    case OnRefs => QuickKeepsEntry(s, t, th, h);
    case OnEviction => EvictingKeepsEntry(s, t, th, h);
    case OnInsertion => InsertingKeepsEntry(s, th, h);
    case OnErasure => ErasingKeepsEntry(s, t, th, h);
  }

  lemma QuickKeepsEntry(s: State, t: nat, th: Thread, h: nat)
    requires PhaseOf(th.pc) == OnRefs && SafeQuick(s, th.pc) && h < |s.handles| && Keeps(th, h) == 0
    ensures h < |QuickStep(s, t, th).s.handles| && SameLife(s.handles[h], QuickStep(s, t, th).s.handles[h])
  {
  }

  lemma EvictingKeepsEntry(s: State, t: nat, th: Thread, h: nat)
    requires PhaseOf(th.pc) == OnEviction && SafeEvicting(s, th.pc) && h < |s.handles| && Keeps(th, h) == 0
    ensures h < |EvictStep(s, t, th).s.handles| && SameLife(s.handles[h], EvictStep(s, t, th).s.handles[h])
  {
  }

  lemma InsertingKeepsEntry(s: State, th: Thread, h: nat)
    requires PhaseOf(th.pc) == OnInsertion && SafeInserting(s, th.pc) && h < |s.handles| && Keeps(th, h) == 0
    ensures h < |InsertStep(s, th).s.handles| && SameLife(s.handles[h], InsertStep(s, th).s.handles[h])
  {
  }

  lemma ErasingKeepsEntry(s: State, t: nat, th: Thread, h: nat)
    requires PhaseOf(th.pc) == OnErasure && SafeErasing(s, th.pc) && h < |s.handles| && Keeps(th, h) == 0
    ensures h < |EraseStep(s, t, th).s.handles| && SameLife(s.handles[h], EraseStep(s, t, th).s.handles[h])
  {
  }

  predicate InUseThroughout(states: seq<State>, i: nat, j: nat, h: nat)
    requires j <= |states|
  {
    forall m :: i <= m < j ==> InUse(states[m], h)
  }

  /** Through any stretch of a run in which a handle is referenced or cached it stands for the same
      entry: its key, charge, life and number of recyclings do not change. */
  lemma {:induction false} ReferencedIsStable(states: seq<State>, moves: seq<Move>, i: nat, j: nat, h: nat)
    requires IsRun(states, moves) && i <= j < |states| && h < |states[i].handles| && InUseThroughout(states, i, j, h)
    ensures h < |states[j].handles| && SameLife(states[i].handles[h], states[j].handles[h])
    decreases j
  {
    if i < j {
      ReferencedIsStable(states, moves, i, j - 1, h);
      EntryStays(states, moves, j - 1, h);
    }
  }

  // ---------------------------------------------------------------- lookups

  /** The step that started the last lookup of thread `t` before instant `i`. */
  function LookupStart(moves: seq<Move>, i: nat, t: nat): nat
    requires i <= |moves|
  {
    if i == 0 then 0
    else if moves[i - 1].tid == t && moves[i - 1].action.Lookup? then i - 1
    else LookupStart(moves, i - 1, t)
  }

  /** The key a thread is looking up. */
  predicate LooksFor(pc: Pc, key: int) {
    match pc
    case RefLoad(_, reason) => reason == ForKey(key)
    case RefCas(_, _, reason) => reason == ForKey(key)
    case Checking(_, k) => k == key
    case _ => false
  }

  predicate StartedBy(moves: seq<Move>, i: nat, t: nat, key: int)
    requires i <= |moves|
  {
    LookupStart(moves, i, t) < i && moves[LookupStart(moves, i, t)] == Move(t, Lookup(key))
  }

  /** At instant `k` the handle was in the cache, and it was in use from then to instant `i`. */
  predicate CachedSince(states: seq<State>, k: nat, i: nat, h: nat)
    requires i < |states|
  {
    k <= i && h < |states[k].handles| && states[k].handles[h].flags.inCache && InUseThroughout(states, k, i + 1, h)
  }

  ghost predicate LookupHistory(states: seq<State>, moves: seq<Move>, i: nat, t: nat)
    requires i < |states| == |moves| + 1 && t < |states[i].threads|
  {
    var pc := states[i].threads[t].pc;
    && (forall key :: LooksFor(pc, key) ==> StartedBy(moves, i, t, key))
    && (pc.Checking? ==> exists k :: LookupStart(moves, i, t) < k < i && CachedSince(states, k, i, pc.h))
  }

  lemma CheckedInUse(s: State, t: nat)
    requires Inv(s) && t < |s.threads| && s.threads[t].pc.Checking?
    ensures InUse(s, s.threads[t].pc.h)
  {
    hide AllHold, AllKeep, TotalUpTo;
    assert RefsOk(s, s.threads[t].pc.h);
    HolderHasHandle(s, t, s.threads[t].pc.h);
  }

  /** What one step of the thread itself does to a lookup. */
  lemma LookupMoves(s: State, t: nat, a: Action, key: int)
    requires Enabled(s, t, a) && Safe(s, t, a) && LooksFor(After(s, t, a).threads[t].pc, key)
    ensures a == Lookup(key) || (!a.Lookup? && LooksFor(s.threads[t].pc, key))
    ensures var pc' := After(s, t, a).threads[t].pc;
            pc'.Checking? ==>
              && s.threads[t].pc.RefCas? && s.threads[t].pc.h == pc'.h
              && FlagsOf(s, pc'.h) == s.threads[t].pc.seen
  {
    hide EvictStep, InsertStep, EraseStep;
    if a.Step? && PhaseOf(s.threads[t].pc) != OnRefs {
      NoLookup(s, t);
    }
  }

  lemma NoLookup(s: State, t: nat)
    requires Enabled(s, t, Step) && Safe(s, t, Step) && PhaseOf(s.threads[t].pc) != OnRefs
    ensures PhaseOf(Advance(s, t).th.pc) == OnRefs ==> Advance(s, t).th.pc.Unlocking? || Advance(s, t).th.pc.Binning?
  {
  }

  lemma StepLookup(states: seq<State>, moves: seq<Move>, i: nat, t: nat)
    requires IsRun(states, moves) && i < |moves| && t < |states[i].threads| && LookupHistory(states, moves, i, t)
    ensures t < |states[i + 1].threads| && LookupHistory(states, moves, i + 1, t)
  {
    var s, u, a, s' := states[i], moves[i].tid, moves[i].action, states[i + 1];
    RunInv(states, moves, i);
    RunInv(states, moves, i + 1);
    assert Next(s, u, a, s');
    StepKeepsInv(s, u, a, s');
    assert LocalOk(s, s.threads[t].pc);
    hide IsRun, Inv, Safe, Advance, Call;
    if s'.threads[t].pc.Checking? {
      CheckedInUse(s', t);
    }
    if u == t {
      forall key | LooksFor(s'.threads[t].pc, key)
        ensures StartedBy(moves, i + 1, t, key)
      {
        LookupMoves(s, t, a, key);
      }
      if s'.threads[t].pc.Checking? {
        LookupMoves(s, t, a, s'.threads[t].pc.key);
        assert CachedSince(states, i, i + 1, s'.threads[t].pc.h);
      }
    } else if s.threads[t].pc.Checking? {
      var k :| LookupStart(moves, i, t) < k < i && CachedSince(states, k, i, s.threads[t].pc.h);
      assert CachedSince(states, k, i + 1, s.threads[t].pc.h);
    }
  }

  lemma {:induction false} LookupsHold(states: seq<State>, moves: seq<Move>, i: nat, t: nat)
    requires IsRun(states, moves) && i < |states| && t < |states[0].threads|
    ensures t < |states[i].threads| && LookupHistory(states, moves, i, t)
  {
    hide LookupHistory, Init, Next;
    if i == 0 {
      NoLookupYet(states, moves, t);
    } else {
      LookupsHold(states, moves, i - 1, t);
      StepLookup(states, moves, i - 1, t);
    }
  }

  lemma NoLookupYet(states: seq<State>, moves: seq<Move>, t: nat)
    requires IsRun(states, moves) && t < |states[0].threads|
    ensures LookupHistory(states, moves, 0, t)
  {
  }

  lemma {:induction false} SameThreads(states: seq<State>, moves: seq<Move>, i: nat)
    requires IsRun(states, moves) && i < |states|
    ensures |states[i].threads| == |states[0].threads|
  {
    if i > 0 {
      SameThreads(states, moves, i - 1);
      RunInv(states, moves, i - 1);
      assert Next(states[i - 1], moves[i - 1].tid, moves[i - 1].action, states[i]);
      StepKeepsInv(states[i - 1], moves[i - 1].tid, moves[i - 1].action, states[i]);
    }
  }

  /** The handle `h` was cached for `key` at instant `k`, in the life it is in at instant `j`. */
  predicate WasCached(states: seq<State>, k: nat, j: nat, h: nat, key: int)
    requires k < |states| && j < |states|
  {
    && h < |states[k].handles| && h < |states[j].handles|
    && states[k].handles[h].flags.inCache && states[k].handles[h].key == key
    && SameLife(states[k].handles[h], states[j].handles[h])
  }

  predicate CachedDuring(states: seq<State>, lo: nat, hi: nat, j: nat, h: nat, key: int)
    requires hi <= |states| && j < |states|
  {
    exists k :: lo <= k < hi && WasCached(states, k, j, h, key)
  }

  /** A lookup hands out the handle it has referenced exactly if this has the key asked for, and then
      there was an instant inside the lookup at which this handle was cached for this key; it still
      stands for the same entry. */
  lemma LookupFindsKey(states: seq<State>, moves: seq<Move>, i: nat)
    requires IsRun(states, moves) && i < |moves| && moves[i].tid < |states[i].threads| && moves[i].action == Step
    requires states[i].threads[moves[i].tid].pc.Checking?
    ensures moves[i].tid < |states[i + 1].threads|
    ensures var t := moves[i].tid;
            var pc, th := states[i].threads[t].pc, states[i + 1].threads[t];
            && StartedBy(moves, i, t, pc.key)
            && pc.h < |states[i].handles| && pc.h < |states[i + 1].handles|
                && states[i + 1].handles[pc.h].flags.refs > 0
            && (th.pc.Idle? <==> states[i].handles[pc.h].key == pc.key)
            && (th.pc.Idle? ==> pc.h in th.held && states[i + 1].handles[pc.h].key == pc.key)
            && (th.pc.Idle? ==> CachedDuring(states, LookupStart(moves, i, t) + 1, i, i + 1, pc.h, pc.key))
  {
    var t := moves[i].tid;
    var pc := states[i].threads[t].pc;
    RunInv(states, moves, i);
    assert Next(states[i], t, moves[i].action, states[i + 1]);
    StepIsSafe(states[i], t, moves[i].action);
    SameThreads(states, moves, i);
    LookupsHold(states, moves, i, t);
    assert LooksFor(pc, pc.key);
    var k :| LookupStart(moves, i, t) < k < i && CachedSince(states, k, i, pc.h);
    ReferencedIsStable(states, moves, k, i + 1, pc.h);
    if states[i].handles[pc.h].key == pc.key {
      assert WasCached(states, k, i + 1, pc.h, pc.key);
    }
  }
}
