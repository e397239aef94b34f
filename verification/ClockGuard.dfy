/** Preservation of what the mutex protects in the clock cache. */
module ClockGuard {
  import opened ClockCache
  import opened ClockSafety
  import opened ClockSteps

  /** Where the mutex holder is, if it still has the mutex. */
  function Resting(pc: Pc): Pc {
    if InMutex(pc) then pc else Idle
  }

  // ---------------------------------------------------------------- steps without the mutex

  predicate SameEntry(a: Handle, b: Handle) {
    a.key == b.key && a.charge == b.charge && a.lives == b.lives && a.recycled == b.recycled
        && a.flags.inCache == b.flags.inCache
  }

  /** At most reference counts and usage bits differ. */
  ghost predicate Framed(s: State, s': State) {
    && s'.table == s.table && s'.bin == s.bin && s'.usage == s.usage && s'.head == s.head && |s'.handles| == |s.handles|
    && forall h :: 0 <= h < |s.handles| ==> SameEntry(s.handles[h], s'.handles[h])
  }

  lemma CallFrames(s: State, t: nat, a: Action)
    requires Enabled(s, t, a) && Safe(s, t, a) && !a.Step?
    ensures var o := Call(s, t, a);
            Framed(s, o.s) && o.s.lock == s.lock && !InMutex(s.threads[t].pc) && !InMutex(o.th.pc)
  {
  }

  lemma QuickFrames(s: State, t: nat, th: Thread)
    requires PhaseOf(th.pc) == OnRefs && SafeQuick(s, th.pc) && !th.pc.Binning?
    ensures Framed(s, QuickStep(s, t, th).s)
  {
  }

  lemma WaitFrames(s: State, t: nat, th: Thread)
    requires th.pc.JobWait? || th.pc.EraseWait? || th.pc.ClearWait?
    ensures th.pc.JobWait? ==> Framed(s, EvictStep(s, t, th).s)
    ensures !th.pc.JobWait? ==> Framed(s, EraseStep(s, t, th).s)
  {
  }

  /** Control points at which nothing is half done. */
  predicate Plain(pc: Pc) {
    pc.Idle? || pc.Binning? || pc.Unlocking? || pc.EvictStart? || pc.EvictLoop? || pc.EvictBin? || pc.Decide?
        || pc.Erasing? || pc.Clearing?
  }

  lemma FramedHandle(s: State, pc: Pc, s': State, pc': Pc, h: nat)
    requires Framed(s, s') && (pc' == pc || (Plain(pc) && Plain(pc')))
    ensures LivesOk(s, pc, h) ==> LivesOk(s', pc', h)
    ensures ListedOk(s, pc, h) ==> ListedOk(s', pc', h)
    ensures h < |s.handles| ==> Counted(s', pc', h) == Counted(s, pc, h)
  {
    hide LivesOk, ListedOk, Counted;
    FramedState(s, s', pc, h);
    if pc' != pc {
      PlainHandle(s', pc, pc', h);
    }
  }

  lemma FramedState(s: State, s': State, pc: Pc, h: nat)
    requires Framed(s, s')
    ensures LivesOk(s, pc, h) ==> LivesOk(s', pc, h)
    ensures ListedOk(s, pc, h) ==> ListedOk(s', pc, h)
    ensures h < |s.handles| ==> Counted(s', pc, h) == Counted(s, pc, h)
  {
    hide InBin;
  }

  lemma PlainHandle(s: State, pc: Pc, pc': Pc, h: nat)
    requires Plain(pc) && Plain(pc')
    ensures LivesOk(s, pc, h) <==> LivesOk(s, pc', h)
    ensures ListedOk(s, pc, h) <==> ListedOk(s, pc', h)
    ensures h < |s.handles| ==> Counted(s, pc', h) == Counted(s, pc, h)
  {
    hide InBin;
  }

  lemma FramedEntry(s: State, pc: Pc, s': State, pc': Pc, key: int)
    requires Framed(s, s') && (pc' == pc || (Plain(pc) && Plain(pc'))) && EntryOk(s, pc, key)
    ensures EntryOk(s', pc', key)
  {
    hide InBin;
    if pc' != pc {
      assert Plain(pc) && Plain(pc');
    }
  }

  lemma FramedKeepsGuarded(s: State, pc: Pc, s': State, pc': Pc)
    requires Guarded(s, pc) && Framed(s, s') && (pc' == pc || (Plain(pc) && Plain(pc')))
    ensures Guarded(s', pc')
  {
    hide InBin, TotalUpTo, LivesOk, ListedOk, EntryOk, Counted, Plain;
    forall h: nat
      ensures LivesOk(s', pc', h) && ListedOk(s', pc', h)
      ensures h < |s.handles| ==> Counted(s', pc', h) == Counted(s, pc, h)
    {
      FramedHandle(s, pc, s', pc', h);
    }
    forall key
      ensures EntryOk(s', pc', key)
    {
      FramedEntry(s, pc, s', pc', key);
    }
    TotalSame(s, pc, s', pc', |s.handles|);
  }

  // ---------------------------------------------------------------- the usage

  lemma {:induction false} TotalSame(s: State, pc: Pc, s': State, pc': Pc, n: nat)
    requires n <= |s.handles| && n <= |s'.handles|
    requires forall h: nat :: h < n ==> Counted(s', pc', h) == Counted(s, pc, h)
    ensures TotalUpTo(s', pc', n) == TotalUpTo(s, pc, n)
  {
    hide Counted;
    if n > 0 {
      TotalSame(s, pc, s', pc', n - 1);
    }
  }

  /** If the share of one handle changes, so does the total. */
  lemma {:induction false} TotalChange(s: State, pc: Pc, s': State, pc': Pc, g: nat, n: nat)
    requires g < n <= |s.handles| && n <= |s'.handles|
    requires forall h: nat :: h < n && h != g ==> Counted(s', pc', h) == Counted(s, pc, h)
    ensures TotalUpTo(s', pc', n) == TotalUpTo(s, pc, n) - Counted(s, pc, g) + Counted(s', pc', g)
  {
    hide Counted;
    if g == n - 1 {
      TotalSame(s, pc, s', pc', n - 1);
    } else {
      TotalChange(s, pc, s', pc', g, n - 1);
    }
  }

  /** The step leaves the same handle, if any, to be counted later. */
  predicate SameNew(pc: Pc, pc': Pc) {
    && (pc.UnsetBin? ==> pc'.Entering? && pc'.h == pc.h)
    && (!pc.UnsetBin? ==>
        !pc.Filling? && !pc.Publishing? && !pc.Replacing? && !pc.Unsetting? && !pc.Entering? && !pc.Counting?)
    && (!pc.UnsetBin? ==>
        !pc'.Filling? && !pc'.Publishing? && !pc'.Replacing? && !pc'.Unsetting? && !pc'.UnsetBin? && !pc'.Entering?
        && !pc'.Counting?)
  }

  lemma RecycledShare(s: State, pc: Pc, h: nat, pc': Pc, g: nat)
    requires h < |s.handles| && g < |s.handles| && InBin(s.bin, h) == 0 && SameNew(pc, pc')
    ensures Counted(Recycle(s, h), pc', g) == if g == h then 0 else Counted(s, pc, g)
  {
    BinPush(s.bin, h, g);
    hide InBin;
  }

  lemma FullShare(s: State, pc: Pc, h: nat)
    requires h < |s.handles| && InBin(s.bin, h) == 0 && !IsNew(pc, h)
    ensures Counted(s, pc, h) == s.handles[h].charge
  {
  }

  /** Recycling takes the charge out of the usage. */
  lemma RecycleKeepsUsage(s: State, pc: Pc, h: nat, pc': Pc)
    requires UsageOk(s, pc) && h < |s.handles| && InBin(s.bin, h) == 0 && !IsNew(pc, h) && SameNew(pc, pc')
    ensures UsageOk(Recycle(s, h), pc')
  {
    hide InBin, TotalUpTo, IsNew, Counted, SameNew;
    FullShare(s, pc, h);
    var s' := Recycle(s, h);
    forall g: nat | g < |s.handles|
      ensures Counted(s', pc', g) == if g == h then 0 else Counted(s, pc, g)
    {
      RecycledShare(s, pc, h, pc', g);
    }
    TotalChange(s, pc, s', pc', h, |s.handles|);
  }

  lemma QuickUsage(s: State, t: nat, th: Thread)
    requires PhaseOf(th.pc) == OnRefs && SafeQuick(s, th.pc) && UsageOk(s, th.pc) && InMutex(th.pc)
    requires th.pc.Binning? ==> InBin(s.bin, th.pc.h) == 0
    ensures UsageOk(QuickStep(s, t, th).s, Resting(QuickStep(s, t, th).th.pc))
  {
    hide InBin, TotalUpTo;
    if th.pc.Binning? {
      RecycleKeepsUsage(s, th.pc, th.pc.h, Unlocking);
    } else {
      var o := QuickStep(s, t, th);
      TotalSame(s, th.pc, o.s, Resting(o.th.pc), |s.handles|);
    }
  }

  lemma EvictingUsage(s: State, t: nat, th: Thread)
    requires PhaseOf(th.pc) == OnEviction && SafeEvicting(s, th.pc) && UsageOk(s, th.pc) && InMutex(th.pc)
    requires th.pc.EvictBin? ==> InBin(s.bin, th.pc.h) == 0
    ensures UsageOk(EvictStep(s, t, th).s, Resting(EvictStep(s, t, th).th.pc))
  {
    hide InBin, TotalUpTo;
    var o := EvictStep(s, t, th);
    if th.pc.EvictBin? {
      RecycleKeepsUsage(s, th.pc, th.pc.h, o.th.pc);
    } else if o.th.pc.Filling? && s.bin != [] {
      PopKeepsUsage(s, th.pc, o);
    } else if o.th.pc.Filling? {
      TotalSame(s, th.pc, o.s, o.th.pc, |s.handles|);
      TotalNext(o.s, o.th.pc, |s.handles|);
    } else {
      TotalSame(s, th.pc, o.s, Resting(o.th.pc), |s.handles|);
    }
  }

  lemma TotalNext(s: State, pc: Pc, n: nat)
    requires n < |s.handles|
    ensures TotalUpTo(s, pc, n + 1) == TotalUpTo(s, pc, n) + Counted(s, pc, n)
  {
  }

  /** A handle from the bin is not counted, and remains so. */
  lemma PopKeepsUsage(s: State, pc: Pc, o: Outcome)
    requires UsageOk(s, pc) && pc.Decide? && s.bin != [] && o.th.pc.Filling? && o.th.pc.h == s.bin[|s.bin| - 1]
    requires o.s == s.(bin := s.bin[..|s.bin| - 1])
    ensures UsageOk(o.s, o.th.pc)
  {
    hide InBin, TotalUpTo;
    forall h: nat | h < |s.handles|
      ensures Counted(o.s, o.th.pc, h) == Counted(s, pc, h)
    {
      BinPop(s.bin, h);
    }
    TotalSame(s, pc, o.s, o.th.pc, |s.handles|);
  }

  lemma InsertingUsage(s: State, th: Thread)
    requires PhaseOf(th.pc) == OnInsertion && SafeInserting(s, th.pc) && UsageOk(s, th.pc) && LocalOk(s, th.pc)
    requires th.pc.UnsetBin? ==> InBin(s.bin, th.pc.e) == 0
    requires th.pc.Counting? ==> InBin(s.bin, th.pc.h) == 0
    ensures UsageOk(InsertStep(s, th).s, Resting(InsertStep(s, th).th.pc))
  {
    hide InBin, TotalUpTo;
    var o := InsertStep(s, th);
    if th.pc.UnsetBin? {
      RecycleKeepsUsage(s, th.pc, th.pc.e, o.th.pc);
    } else if th.pc.Counting? {
      TotalChange(s, th.pc, o.s, o.th.pc, th.pc.h, |s.handles|);
    } else {
      TotalSame(s, th.pc, o.s, Resting(o.th.pc), |s.handles|);
    }
  }

  lemma ErasingUsage(s: State, t: nat, th: Thread)
    requires PhaseOf(th.pc) == OnErasure && SafeErasing(s, th.pc) && UsageOk(s, th.pc) && LocalOk(s, th.pc)
    requires th.pc.ClearBin? ==> InBin(s.bin, th.pc.i) == 0
    ensures UsageOk(EraseStep(s, t, th).s, Resting(EraseStep(s, t, th).th.pc))
  {
    hide InBin, TotalUpTo;
    var o := EraseStep(s, t, th);
    if th.pc.ClearBin? {
      RecycleKeepsUsage(s, th.pc, th.pc.i, o.th.pc);
    } else {
      TotalSame(s, th.pc, o.s, Resting(o.th.pc), |s.handles|);
    }
  }

  // ---------------------------------------------------------------- lives

  /** The handle a step puts into the bin, or takes out of it. */
  predicate BinMoves(pc: Pc, h: nat) {
    match pc
    case Binning(g) => g == h
    case EvictBin(_, _, _, g) => g == h
    case UnsetBin(_, _, e) => e == h
    case ClearBin(i) => i == h
    case Filling(_, g) => g == h
    case Publishing(_, g) => g == h
    case _ => false
  }

  lemma QuickLives(s: State, t: nat, th: Thread, h: nat)
    requires PhaseOf(th.pc) == OnRefs && SafeQuick(s, th.pc) && InMutex(th.pc) && LivesOk(s, th.pc, h)
             && InBin(s.bin, h) <= 1
    requires (BinMoves(th.pc, h) ==> InBin(s.bin, h) == 0)
    ensures LivesOk(QuickStep(s, t, th).s, Resting(QuickStep(s, t, th).th.pc), h)
  {
    hide InBin;
    if th.pc.Binning? {
      BinPush(s.bin, th.pc.h, h);
    }
  }

  lemma EvictingLives(s: State, t: nat, th: Thread, h: nat)
    requires PhaseOf(th.pc) == OnEviction && SafeEvicting(s, th.pc) && InMutex(th.pc) && LivesOk(s, th.pc, h)
             && InBin(s.bin, h) <= 1
    requires (BinMoves(th.pc, h) ==> InBin(s.bin, h) == 0) && (h >= |s.handles| ==> InBin(s.bin, h) == 0)
    ensures LivesOk(EvictStep(s, t, th).s, Resting(EvictStep(s, t, th).th.pc), h)
  {
    hide InBin;
    if th.pc.EvictBin? {
      BinPush(s.bin, th.pc.h, h);
    } else if th.pc.Decide? && s.bin != [] {
      BinPop(s.bin, h);
    }
  }

  lemma InsertingLives(s: State, th: Thread, h: nat)
    requires PhaseOf(th.pc) == OnInsertion && SafeInserting(s, th.pc) && InMutex(th.pc) && LivesOk(s, th.pc, h)
             && InBin(s.bin, h) <= 1
    requires (BinMoves(th.pc, h) ==> InBin(s.bin, h) == 0) && LocalOk(s, th.pc)
    ensures LivesOk(InsertStep(s, th).s, Resting(InsertStep(s, th).th.pc), h)
  {
    hide InBin;
    if th.pc.UnsetBin? {
      BinPush(s.bin, th.pc.e, h);
    }
  }

  lemma ErasingLives(s: State, t: nat, th: Thread, h: nat)
    requires PhaseOf(th.pc) == OnErasure && SafeErasing(s, th.pc) && InMutex(th.pc) && LivesOk(s, th.pc, h)
             && InBin(s.bin, h) <= 1
    requires (BinMoves(th.pc, h) ==> InBin(s.bin, h) == 0)
    ensures LivesOk(EraseStep(s, t, th).s, Resting(EraseStep(s, t, th).th.pc), h)
  {
    hide InBin;
    if th.pc.ClearBin? {
      BinPush(s.bin, th.pc.i, h);
    }
  }

  // ---------------------------------------------------------------- the table

  lemma QuickEntry(s: State, t: nat, th: Thread, key: int)
    requires PhaseOf(th.pc) == OnRefs && SafeQuick(s, th.pc) && InMutex(th.pc) && LocalOk(s, th.pc)
             && EntryOk(s, th.pc, key)
    ensures EntryOk(QuickStep(s, t, th).s, Resting(QuickStep(s, t, th).th.pc), key)
  {
    hide InBin;
  }

  lemma QuickListed(s: State, t: nat, th: Thread, h: nat)
    requires PhaseOf(th.pc) == OnRefs && SafeQuick(s, th.pc) && InMutex(th.pc) && LocalOk(s, th.pc)
             && ListedOk(s, th.pc, h)
    requires (forall key :: EntryOk(s, th.pc, key))
    ensures ListedOk(QuickStep(s, t, th).s, Resting(QuickStep(s, t, th).th.pc), h)
  {
    hide InBin;
  }

  lemma EvictingEntry(s: State, t: nat, th: Thread, key: int)
    requires PhaseOf(th.pc) == OnEviction && SafeEvicting(s, th.pc) && InMutex(th.pc) && LocalOk(s, th.pc)
             && EntryOk(s, th.pc, key)
    ensures EntryOk(EvictStep(s, t, th).s, Resting(EvictStep(s, t, th).th.pc), key)
  {
    hide EvictStep, SafeEvicting, EntryOk, LocalOk;
    if th.pc.EvictLoop? || th.pc.EvictErase? {
      SweepEntry(s, t, th, key);
    } else {
      RestEntry(s, t, th, key);
    }
  }

  lemma SweepEntry(s: State, t: nat, th: Thread, key: int)
    requires (th.pc.EvictLoop? || th.pc.EvictErase?) && SafeEvicting(s, th.pc) && LocalOk(s, th.pc)
             && EntryOk(s, th.pc, key)
    ensures EntryOk(EvictStep(s, t, th).s, Resting(EvictStep(s, t, th).th.pc), key)
  {
  }

  lemma RestEntry(s: State, t: nat, th: Thread, key: int)
    requires PhaseOf(th.pc) == OnEviction && !th.pc.EvictLoop? && !th.pc.EvictErase? && !th.pc.JobWait?
    requires SafeEvicting(s, th.pc) && LocalOk(s, th.pc) && EntryOk(s, th.pc, key)
    ensures EntryOk(EvictStep(s, t, th).s, Resting(EvictStep(s, t, th).th.pc), key)
  {
  }

  lemma EvictingListed(s: State, t: nat, th: Thread, h: nat)
    requires PhaseOf(th.pc) == OnEviction && SafeEvicting(s, th.pc) && InMutex(th.pc) && LocalOk(s, th.pc)
             && ListedOk(s, th.pc, h)
    requires (forall key :: EntryOk(s, th.pc, key))
    requires th.pc.EvictErase? ==> ListedOk(s, th.pc, th.pc.h) && Unreferenced(s, th.pc.h)
    ensures ListedOk(EvictStep(s, t, th).s, Resting(EvictStep(s, t, th).th.pc), h)
  {
    if th.pc.EvictErase? {
      EvictEraseListed(s, t, th, h);
    } else {
      hide EntryOk, InBin, Unreferenced;
    }
  }

  lemma EvictEraseListed(s: State, t: nat, th: Thread, h: nat)
    requires th.pc.EvictErase? && SafeEvicting(s, th.pc) && LocalOk(s, th.pc) && ListedOk(s, th.pc, h)
    requires ListedOk(s, th.pc, th.pc.h) && Unreferenced(s, th.pc.h)
    ensures ListedOk(EvictStep(s, t, th).s, Resting(EvictStep(s, t, th).th.pc), h)
  {
  }

  lemma InsertingEntry(s: State, th: Thread, key: int)
    requires PhaseOf(th.pc) == OnInsertion && SafeInserting(s, th.pc) && InMutex(th.pc) && LocalOk(s, th.pc)
             && EntryOk(s, th.pc, key)
    requires th.pc.Replacing? && th.pc.job.Insertion? ==> EntryOk(s, th.pc, th.pc.job.key)
    requires th.pc.Filling? || th.pc.Publishing? ==> Unreferenced(s, th.pc.h)
    ensures EntryOk(InsertStep(s, th).s, Resting(InsertStep(s, th).th.pc), key)
  {
    hide InBin;
  }

  lemma InsertingListed(s: State, th: Thread, h: nat)
    requires PhaseOf(th.pc) == OnInsertion && SafeInserting(s, th.pc) && InMutex(th.pc) && LocalOk(s, th.pc)
             && ListedOk(s, th.pc, h)
    requires (forall key :: EntryOk(s, th.pc, key))
    requires th.pc.Filling? || th.pc.Publishing? ==> Unreferenced(s, th.pc.h)
    ensures ListedOk(InsertStep(s, th).s, Resting(InsertStep(s, th).th.pc), h)
  {
    hide InBin;
    assert th.pc.Replacing? && th.pc.job.Insertion? ==> EntryOk(s, th.pc, th.pc.job.key);
  }

  lemma ErasingEntry(s: State, t: nat, th: Thread, key: int)
    requires PhaseOf(th.pc) == OnErasure && SafeErasing(s, th.pc) && InMutex(th.pc) && LocalOk(s, th.pc)
             && EntryOk(s, th.pc, key)
    requires th.pc.Erasing? ==> EntryOk(s, th.pc, th.pc.key)
    ensures EntryOk(EraseStep(s, t, th).s, Resting(EraseStep(s, t, th).th.pc), key)
  {
    hide InBin;
  }

  lemma ErasingListed(s: State, t: nat, th: Thread, h: nat)
    requires PhaseOf(th.pc) == OnErasure && SafeErasing(s, th.pc) && InMutex(th.pc) && LocalOk(s, th.pc)
             && ListedOk(s, th.pc, h)
    requires (forall key :: EntryOk(s, th.pc, key))
    ensures ListedOk(EraseStep(s, t, th).s, Resting(EraseStep(s, t, th).th.pc), h)
  {
    hide InBin;
  }

  // ---------------------------------------------------------------- local facts and the clock hand

  lemma QuickLocal(s: State, t: nat, th: Thread)
    requires PhaseOf(th.pc) == OnRefs && SafeQuick(s, th.pc) && LocalOk(s, th.pc) && HeadOk(s)
    requires InMutex(th.pc) ==> (forall key :: EntryOk(s, th.pc, key)) && UsageOk(s, th.pc)
    ensures LocalOk(QuickStep(s, t, th).s, QuickStep(s, t, th).th.pc) && HeadOk(QuickStep(s, t, th).s)
  {
    hide InBin;
  }

  lemma EvictingLocal(s: State, t: nat, th: Thread)
    requires PhaseOf(th.pc) == OnEviction && SafeEvicting(s, th.pc) && LocalOk(s, th.pc) && HeadOk(s)
    requires InMutex(th.pc) ==> (forall key :: EntryOk(s, th.pc, key)) && UsageOk(s, th.pc)
    requires s.bin != [] ==> s.bin[|s.bin| - 1] < |s.handles|
    ensures LocalOk(EvictStep(s, t, th).s, EvictStep(s, t, th).th.pc) && HeadOk(EvictStep(s, t, th).s)
  {
    hide InBin;
    assert TotalUpTo(s, th.pc, 0) == 0;
  }

  lemma InsertingLocal(s: State, th: Thread)
    requires PhaseOf(th.pc) == OnInsertion && SafeInserting(s, th.pc) && LocalOk(s, th.pc) && HeadOk(s)
    requires InMutex(th.pc) ==> (forall key :: EntryOk(s, th.pc, key)) && UsageOk(s, th.pc)
    ensures LocalOk(InsertStep(s, th).s, InsertStep(s, th).th.pc) && HeadOk(InsertStep(s, th).s)
  {
    hide InBin;
    assert th.pc.Replacing? && th.pc.job.Insertion? ==> EntryOk(s, th.pc, th.pc.job.key);
  }

  lemma ErasingLocal(s: State, t: nat, th: Thread)
    requires PhaseOf(th.pc) == OnErasure && SafeErasing(s, th.pc) && LocalOk(s, th.pc) && HeadOk(s)
    requires InMutex(th.pc) ==> (forall key :: EntryOk(s, th.pc, key)) && UsageOk(s, th.pc)
    ensures LocalOk(EraseStep(s, t, th).s, EraseStep(s, t, th).th.pc) && HeadOk(EraseStep(s, t, th).s)
  {
    hide InBin;
    assert th.pc.Erasing? ==> EntryOk(s, th.pc, th.pc.key);
  }
}
