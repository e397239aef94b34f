/** What every step of the clock cache keeps. */
module ClockSafety {
  import opened Basics
  import opened ClockCache

  // ---------------------------------------------------------------- who has what

  /** References a thread has to a handle: its callers', and one it is working with. */
  function Holds(th: Thread, h: nat): nat {
    th.held[h] + PcHolds(th.pc, h)
  }

  function PcHolds(pc: Pc, h: nat): nat {
    match pc
    case Checking(g, _) => Bit(g == h)
    case Marking(g) => Bit(g == h)
    case Dropping(g) => Bit(g == h)
    case Replacing(job, g) => Bit(job.Insertion? && job.hold && g == h)
    case Unsetting(job, g, _) => Bit(job.Insertion? && job.hold && g == h)
    case UnsetBin(job, g, _) => Bit(job.Insertion? && job.hold && g == h)
    case Entering(job, g) => Bit(job.Insertion? && job.hold && g == h)
    case Counting(job, g) => Bit(job.Insertion? && job.hold && g == h)
    case _ => 0
  }

  /** A thread has the handle to itself: it is to recycle it, or took it from the bin. */
  function Keeps(th: Thread, h: nat): nat {
    match th.pc
    case BinWait(g) => Bit(g == h)
    case Binning(g) => Bit(g == h)
    case EvictErase(_, _, _, g) => Bit(g == h)
    case EvictBin(_, _, _, g) => Bit(g == h)
    case Filling(_, g) => Bit(g == h)
    case Publishing(_, g) => Bit(g == h)
    case UnsetBin(_, _, e) => Bit(e == h)
    case ClearBin(i) => Bit(i == h)
    case _ => 0
  }

  function AllHold(threads: seq<Thread>, h: nat): nat {
    if threads == [] then 0 else AllHold(threads[..|threads| - 1], h) + Holds(threads[|threads| - 1], h)
  }

  function AllKeep(threads: seq<Thread>, h: nat): nat {
    if threads == [] then 0 else AllKeep(threads[..|threads| - 1], h) + Keeps(threads[|threads| - 1], h)
  }

  lemma {:induction false} HoldUpdate(threads: seq<Thread>, t: nat, th: Thread, h: nat)
    requires t < |threads|
    ensures AllHold(threads[t := th], h) == AllHold(threads, h) - Holds(threads[t], h) + Holds(th, h)
    ensures AllHold(threads, h) >= Holds(threads[t], h)
  {
    hide Holds;
    var n := |threads| - 1;
    if t < n {
      HoldUpdate(threads[..n], t, th, h);
      assert threads[t := th][..n] == threads[..n][t := th];
    } else {
      assert threads[t := th][..n] == threads[..n];
    }
  }

  lemma {:induction false} KeepUpdate(threads: seq<Thread>, t: nat, th: Thread, h: nat)
    requires t < |threads|
    ensures AllKeep(threads[t := th], h) == AllKeep(threads, h) - Keeps(threads[t], h) + Keeps(th, h)
    ensures AllKeep(threads, h) >= Keeps(threads[t], h)
  {
    hide Keeps;
    var n := |threads| - 1;
    if t < n {
      KeepUpdate(threads[..n], t, th, h);
      assert threads[t := th][..n] == threads[..n][t := th];
    } else {
      assert threads[t := th][..n] == threads[..n];
    }
  }

  // ---------------------------------------------------------------- the invariant

  function RefsOf(s: State, h: nat): int {
    if h < |s.handles| then s.handles[h].flags.refs else 0
  }

  predicate Unreferenced(s: State, h: nat) {
    h < |s.handles| && !s.handles[h].flags.inCache && s.handles[h].flags.refs == 0
  }

  function InBin(bin: seq<nat>, h: nat): nat { multiset(bin)[h] }

  predicate RefsOk(s: State, h: nat) {
    RefsOf(s, h) == AllHold(s.threads, h)
  }

  /** A handle that is neither cached nor referenced is in the bin, once, or exactly one thread
      has it to itself. */
  predicate BinOk(s: State, h: nat) {
    InBin(s.bin, h) + AllKeep(s.threads, h) == Bit(Unreferenced(s, h))
  }

  predicate InMutex(pc: Pc) {
    !(pc.Idle? || pc.RefLoad? || pc.RefCas? || pc.Checking? || pc.Marking? || pc.Dropping? || Waits(pc))
  }

  predicate LockOk(s: State, t: nat)
    requires t < |s.threads|
  {
    InMutex(s.threads[t].pc) <==> s.lock == Locked(t)
  }

  /** Where the mutex holder is; `Idle` while the mutex is free. */
  function HolderPc(s: State): Pc {
    if s.lock.Locked? && s.lock.tid < |s.threads| then s.threads[s.lock.tid].pc else Idle
  }

  /** The new handle of an insertion that has not been counted yet. */
  predicate IsNew(pc: Pc, h: nat) {
    match pc
    case Filling(_, g) => g == h
    case Publishing(_, g) => g == h
    case Replacing(_, g) => g == h
    case Unsetting(_, g, _) => g == h
    case UnsetBin(_, g, _) => g == h
    case Entering(_, g) => g == h
    case Counting(_, g) => g == h
    case _ => false
  }

  /** A handle that does not stand for an entry: in the bin, or taken from there. */
  predicate Blank(s: State, pc: Pc, h: nat) {
    InBin(s.bin, h) > 0 || ((pc.Filling? || pc.Publishing?) && pc.h == h)
  }

  /** Every life of a handle ends with one recycling. */
  predicate LivesOk(s: State, pc: Pc, h: nat) {
    h < |s.handles| ==> s.handles[h].recycled + 1 == s.handles[h].lives + Bit(Blank(s, pc, h))
  }

  /** Whether the table should lead to a handle; the mutex holder may be in the middle of a change. */
  predicate Listed(s: State, pc: Pc, h: nat) {
    h < |s.handles| &&
    var cached := s.handles[h].flags.inCache;
    match pc
    case EvictErase(_, _, _, g) => cached || h == g
    case Replacing(_, g) => cached && h != g
    case Unsetting(_, g, e) => cached && h != g && h != e
    case UnsetBin(_, g, _) => cached && h != g
    case Entering(_, g) => cached && h != g
    case EraseUnset(e) => cached && h != e
    case ClearLoop(i) => cached && h < i
    case ClearBin(i) => cached && h <= i
    case _ => cached
  }

  predicate EntryOk(s: State, pc: Pc, key: int) {
    key in s.table ==> Listed(s, pc, s.table[key]) && s.handles[s.table[key]].key == key
  }

  predicate ListedOk(s: State, pc: Pc, h: nat) {
    Listed(s, pc, h) ==> s.handles[h].key in s.table && s.table[s.handles[h].key] == h
  }

  /** The share of a handle in the usage: its charge, unless it is in the bin or new. */
  function Counted(s: State, pc: Pc, h: nat): nat
    requires h < |s.handles|
  {
    if InBin(s.bin, h) > 0 || IsNew(pc, h) then 0 else s.handles[h].charge
  }

  function TotalUpTo(s: State, pc: Pc, n: nat): nat
    requires n <= |s.handles|
  {
    if n == 0 then 0 else TotalUpTo(s, pc, n - 1) + Counted(s, pc, n - 1)
  }

  predicate UsageOk(s: State, pc: Pc) {
    s.usage == TotalUpTo(s, pc, |s.handles|)
  }

  /** Local facts of a thread: handles exist, positions of the clock hand are in the list. */
  predicate LocalOk(s: State, pc: Pc) {
    var n := |s.handles|;
    match pc
    case RefLoad(h, _) => h < n
    case RefCas(h, seen, _) => h < n && seen.inCache
    case EvictLoop(_, at, _) => at < n
    case EvictErase(_, at, _, h) => at < n && h < n
    case EvictBin(_, at, _, h) => at < n && h < n
    case Filling(job, h) => job.Insertion? && h < n
    case Publishing(job, h) => job.Insertion? && h < n && s.handles[h].key == job.key
        && s.handles[h].charge == job.charge
    case Replacing(job, h) => EntryOf(s, job, h)
    case Unsetting(job, h, e) => EntryOf(s, job, h) && e < n && e != h && s.handles[e].flags.inCache
        && job.key !in s.table
    case UnsetBin(job, h, e) => EntryOf(s, job, h) && e != h && e < n && job.key !in s.table
    case Entering(job, h) => EntryOf(s, job, h) && job.key !in s.table
    case Counting(job, h) => EntryOf(s, job, h)
    case EraseUnset(e) => e < n && s.handles[e].flags.inCache
    case ClearLoop(i) => i <= n
    case ClearBin(i) => i < n
    case _ => true
  }

  predicate EntryOf(s: State, job: Job, h: nat) {
    && job.Insertion? && h < |s.handles| && s.handles[h].key == job.key && s.handles[h].charge == job.charge
    && s.handles[h].flags.inCache
  }

  predicate HeadOk(s: State) {
    s.head < |s.handles| || (s.head == 0 && s.handles == [])
  }

  /** What the mutex protects, given where its holder is. */
  ghost predicate Guarded(s: State, pc: Pc) {
    && (forall h: nat :: LivesOk(s, pc, h))
    && (forall key: int :: EntryOk(s, pc, key))
    && (forall h: nat :: ListedOk(s, pc, h))
    && UsageOk(s, pc) && HeadOk(s)
  }

  ghost predicate Inv(s: State) {
    && (forall h: nat :: RefsOk(s, h))
    && (forall h: nat :: BinOk(s, h))
    && (forall t: nat :: t < |s.threads| ==> LockOk(s, t))
    && (forall t: nat :: t < |s.threads| ==> LocalOk(s, s.threads[t].pc))
    && Guarded(s, HolderPc(s))
  }

  // ---------------------------------------------------------------- safety of one step

  lemma HolderHasHandle(s: State, t: nat, h: nat)
    requires t < |s.threads| && RefsOk(s, h) && Holds(s.threads[t], h) > 0
    ensures h < |s.handles| && s.handles[h].flags.refs >= Holds(s.threads[t], h)
  {
    HoldUpdate(s.threads, t, s.threads[t], h);
  }

  lemma KeeperMayRecycle(s: State, t: nat, h: nat)
    requires t < |s.threads| && BinOk(s, h) && Keeps(s.threads[t], h) > 0
    ensures Unreferenced(s, h) && InBin(s.bin, h) == 0
  {
    KeepUpdate(s.threads, t, s.threads[t], h);
  }

  lemma StepIsSafe(s: State, t: nat, a: Action)
    requires Inv(s) && Enabled(s, t, a)
    ensures Safe(s, t, a)
  {
    hide AllHold, AllKeep, RefsOk, BinOk, LivesOk, EntryOk, UsageOk;
    assert LocalOk(s, s.threads[t].pc) && LockOk(s, t);
    var pc := s.threads[t].pc;
    if a.Step? {
      match pc
      case Checking(h, _) => HolderHasHandle(s, t, h);
      case Marking(h) => HolderHasHandle(s, t, h);
      case Dropping(h) => HolderHasHandle(s, t, h);
      case Binning(h) => KeeperMayRecycle(s, t, h);
      case EvictErase(_, _, _, h) => assert ListedOk(s, pc, h);
      case EvictBin(_, _, _, h) => KeeperMayRecycle(s, t, h);
      case UnsetBin(_, _, e) => KeeperMayRecycle(s, t, e);
      case ClearBin(i) => KeeperMayRecycle(s, t, i);
      case _ =>
    }
  }
}
