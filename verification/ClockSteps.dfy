/** Preservation of the clock cache invariant, one part at a time. */
module ClockSteps {
  import opened Basics
  import opened ClockCache
  import opened ClockSafety

  // ---------------------------------------------------------------- references

  predicate Balanced(s: State, th: Thread, o: Outcome, h: nat) {
    RefsOf(o.s, h) - RefsOf(s, h) == Holds(o.th, h) - Holds(th, h)
  }

  lemma CallBalanced(s: State, t: nat, a: Action, h: nat)
    requires Enabled(s, t, a) && Safe(s, t, a) && !a.Step?
    ensures Balanced(s, s.threads[t], Call(s, t, a), h)
  {
  }

  lemma QuickBalanced(s: State, t: nat, th: Thread, h: nat)
    requires PhaseOf(th.pc) == OnRefs && SafeQuick(s, th.pc)
    ensures Balanced(s, th, QuickStep(s, t, th), h)
  {
  }

  lemma EvictingBalanced(s: State, t: nat, th: Thread, h: nat)
    requires PhaseOf(th.pc) == OnEviction && SafeEvicting(s, th.pc)
    ensures Balanced(s, th, EvictStep(s, t, th), h)
  {
  }

  lemma InsertingBalanced(s: State, th: Thread, h: nat)
    requires PhaseOf(th.pc) == OnInsertion && SafeInserting(s, th.pc)
    requires LocalOk(s, th.pc) && (th.pc.Publishing? && th.pc.h == h ==> Unreferenced(s, h))
    ensures Balanced(s, th, InsertStep(s, th), h)
  {
  }

  lemma ErasingBalanced(s: State, t: nat, th: Thread, h: nat)
    requires PhaseOf(th.pc) == OnErasure && SafeErasing(s, th.pc)
    ensures Balanced(s, th, EraseStep(s, t, th), h)
  {
  }

  lemma RefsKept(s: State, t: nat, a: Action, h: nat)
    requires Enabled(s, t, a) && Safe(s, t, a) && RefsOk(s, h) && BinOk(s, h) && LocalOk(s, s.threads[t].pc)
    ensures RefsOk(After(s, t, a), h)
  {
    hide AllHold, Holds, AllKeep, LocalOk, Call, QuickStep, EvictStep, InsertStep, EraseStep;
    var th := s.threads[t];
    HoldUpdate(s.threads, t, After(s, t, a).threads[t], h);
    if !a.Step? {
      CallBalanced(s, t, a, h);
    } else {
      match PhaseOf(th.pc)
      case OnRefs => QuickBalanced(s, t, th, h);
      case OnEviction => EvictingBalanced(s, t, th, h);
      case OnInsertion =>
        if th.pc.Publishing? && th.pc.h == h {
          KeeperMayRecycle(s, t, h);
        }
        InsertingBalanced(s, th, h);
      case OnErasure => ErasingBalanced(s, t, th, h);
    }
  }

  // ---------------------------------------------------------------- the bin

  lemma BinPush(bin: seq<nat>, g: nat, h: nat)
    ensures InBin(bin + [g], h) == InBin(bin, h) + Bit(g == h)
  {
  }

  lemma BinPop(bin: seq<nat>, h: nat)
    requires bin != []
    ensures InBin(bin, h) == InBin(bin[..|bin| - 1], h) + Bit(bin[|bin| - 1] == h)
  {
    assert bin == bin[..|bin| - 1] + [bin[|bin| - 1]];
  }

  predicate Settled(s: State, th: Thread, o: Outcome, h: nat) {
    InBin(o.s.bin, h) + Keeps(o.th, h) + Bit(Unreferenced(s, h))
        == InBin(s.bin, h) + Keeps(th, h) + Bit(Unreferenced(o.s, h))
  }

  lemma CallSettled(s: State, t: nat, a: Action, h: nat)
    requires Enabled(s, t, a) && Safe(s, t, a) && !a.Step?
    ensures Settled(s, s.threads[t], Call(s, t, a), h)
  {
    hide InBin;
  }

  lemma QuickSettled(s: State, t: nat, th: Thread, h: nat)
    requires PhaseOf(th.pc) == OnRefs && SafeQuick(s, th.pc)
    requires LocalOk(s, th.pc)
    ensures Settled(s, th, QuickStep(s, t, th), h)
  {
    hide InBin;
    if th.pc.Binning? {
      BinPush(s.bin, th.pc.h, h);
    }
  }

  lemma EvictingSettled(s: State, t: nat, th: Thread, h: nat)
    requires PhaseOf(th.pc) == OnEviction && SafeEvicting(s, th.pc)
    ensures Settled(s, th, EvictStep(s, t, th), h)
  {
    hide EvictStep, Settled, SafeEvicting;
    if th.pc.EvictBin? {
      EvictBinSettled(s, t, th, h);
    } else if th.pc.Decide? {
      DecideSettled(s, t, th, h);
    } else {
      SweepSettled(s, t, th, h);
    }
  }

  lemma EvictBinSettled(s: State, t: nat, th: Thread, h: nat)
    requires th.pc.EvictBin? && SafeEvicting(s, th.pc)
    ensures Settled(s, th, EvictStep(s, t, th), h)
  {
    hide InBin;
    BinPush(s.bin, th.pc.h, h);
  }

  lemma DecideSettled(s: State, t: nat, th: Thread, h: nat)
    requires th.pc.Decide?
    ensures Settled(s, th, EvictStep(s, t, th), h)
  {
    hide InBin;
    if s.bin != [] {
      BinPop(s.bin, h);
    }
  }

  lemma SweepSettled(s: State, t: nat, th: Thread, h: nat)
    requires PhaseOf(th.pc) == OnEviction && SafeEvicting(s, th.pc) && !th.pc.EvictBin? && !th.pc.Decide?
    ensures Settled(s, th, EvictStep(s, t, th), h)
  {
    hide InBin;
  }

  lemma InsertingSettled(s: State, th: Thread, h: nat)
    requires PhaseOf(th.pc) == OnInsertion && SafeInserting(s, th.pc)
    requires LocalOk(s, th.pc) && (th.pc.Publishing? && th.pc.h == h ==> Unreferenced(s, h))
    ensures Settled(s, th, InsertStep(s, th), h)
  {
    hide InsertStep, Settled, SafeInserting, LocalOk;
    if th.pc.UnsetBin? {
      UnsetBinSettled(s, th, h);
    } else {
      EntrySettled(s, th, h);
    }
  }

  lemma UnsetBinSettled(s: State, th: Thread, h: nat)
    requires th.pc.UnsetBin? && SafeInserting(s, th.pc)
    ensures Settled(s, th, InsertStep(s, th), h)
  {
    hide InBin;
    BinPush(s.bin, th.pc.e, h);
  }

  lemma EntrySettled(s: State, th: Thread, h: nat)
    requires PhaseOf(th.pc) == OnInsertion && SafeInserting(s, th.pc) && !th.pc.UnsetBin?
    requires LocalOk(s, th.pc) && (th.pc.Publishing? && th.pc.h == h ==> Unreferenced(s, h))
    ensures Settled(s, th, InsertStep(s, th), h)
  {
    hide InBin;
    if th.pc.Unsetting? || th.pc.Publishing? {
      FlagsSettled(s, th, h);
    }
  }

  lemma FlagsSettled(s: State, th: Thread, h: nat)
    requires (th.pc.Unsetting? || th.pc.Publishing?) && SafeInserting(s, th.pc)
    requires LocalOk(s, th.pc) && (th.pc.Publishing? && th.pc.h == h ==> Unreferenced(s, h))
    ensures Settled(s, th, InsertStep(s, th), h)
  {
    hide InBin;
  }

  lemma ErasingSettled(s: State, t: nat, th: Thread, h: nat)
    requires PhaseOf(th.pc) == OnErasure && SafeErasing(s, th.pc)
    requires LocalOk(s, th.pc)
    ensures Settled(s, th, EraseStep(s, t, th), h)
  {
    hide EraseStep, Settled, SafeErasing, LocalOk;
    if th.pc.ClearBin? {
      ClearBinSettled(s, t, th, h);
    } else {
      UnsetSettled(s, t, th, h);
    }
  }

  lemma ClearBinSettled(s: State, t: nat, th: Thread, h: nat)
    requires th.pc.ClearBin? && SafeErasing(s, th.pc)
    ensures Settled(s, th, EraseStep(s, t, th), h)
  {
    hide InBin;
    BinPush(s.bin, th.pc.i, h);
  }

  lemma UnsetSettled(s: State, t: nat, th: Thread, h: nat)
    requires PhaseOf(th.pc) == OnErasure && SafeErasing(s, th.pc) && LocalOk(s, th.pc) && !th.pc.ClearBin?
    ensures Settled(s, th, EraseStep(s, t, th), h)
  {
    hide InBin;
  }

  lemma BinKept(s: State, t: nat, a: Action, h: nat)
    requires Enabled(s, t, a) && Safe(s, t, a) && BinOk(s, h) && LocalOk(s, s.threads[t].pc)
    ensures BinOk(After(s, t, a), h)
  {
    hide AllKeep, Keeps, LocalOk, Call, QuickStep, EvictStep, InsertStep, EraseStep, InBin;
    var th := s.threads[t];
    KeepUpdate(s.threads, t, After(s, t, a).threads[t], h);
    if !a.Step? {
      CallSettled(s, t, a, h);
    } else {
      match PhaseOf(th.pc)
      case OnRefs => QuickSettled(s, t, th, h);
      case OnEviction => EvictingSettled(s, t, th, h);
      case OnInsertion =>
        if th.pc.Publishing? && th.pc.h == h {
          PublisherKeeps(th, h);
          KeeperMayRecycle(s, t, h);
        }
        InsertingSettled(s, th, h);
      case OnErasure => ErasingSettled(s, t, th, h);
    }
  }

  lemma PublisherKeeps(th: Thread, h: nat)
    requires th.pc.Publishing? && th.pc.h == h
    ensures Keeps(th, h) > 0
  {
  }
}
