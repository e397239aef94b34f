/** What every step of the super version protocol keeps, and what follows for all runs. */
module SuperVersionSafety {
  import opened Basics
  import opened SuperVersions

  function RefsOf(s: State, v: nat): int {
    if v < |s.versions| then s.versions[v].refs else 0
  }

  function CleanedOf(s: State, v: nat): nat {
    if v < |s.versions| then s.versions[v].cleaned else 0
  }

  /** Each reference is accounted for: the current pointer, a slot, a thread, or one handed out. */
  predicate CountOk(s: State, v: nat) {
    RefsOf(s, v) == Bit(v == s.current) + Owned(s.threads, v) + s.extra[v]
  }

  /** A version without references was cleaned up once, or exactly one thread has yet to do it. */
  predicate CleanOk(s: State, v: nat) {
    CleanedOf(s, v) + Owed(s.threads, v) == Bit(v < |s.versions| && s.versions[v].refs == 0)
  }

  predicate InMutex(pc: Pc) {
    match pc
    case Locked(_) => true
    case Acquired(_) => true
    case Cleaning(_) => true
    case Unlocking => true
    case Created(_) => true
    case Switched(_) => true
    case Counted(_) => true
    case Scraping(_, _, _) => true
    case Dropping(_, _) => true
    case Sweeping(_, _, _) => true
    case _ => false
  }

  predicate LockOk(s: State, t: nat)
    requires t < |s.threads|
  {
    InMutex(s.threads[t].pc) <==> s.lock == Held(t)
  }

  /** Between the swap and the compare-and-swap the slot is lent out unless scraped; otherwise never. */
  predicate SlotOk(th: Thread) {
    match th.pc
    case Swapped(got) => !th.slot.Cached? && !got.InUse?
    case Stale(_) => !th.slot.Cached?
    case Waiting(owed) => !th.slot.Cached? && !owed.InUse?
    case Locked(owed) => !th.slot.Cached? && !owed.InUse?
    case Acquired(_) => !th.slot.Cached?
    case Holding(_) => !th.slot.Cached?
    case Sharing(_) => !th.slot.Cached?
    case SharedStale(_) => th.slot.Obsolete?
    case _ => !th.slot.InUse?
  }

  /** The version a thread has in its slot or will put back there. */
  function SlotVersion(th: Thread): Slot {
    if th.slot.InUse? then
      match th.pc
      case Swapped(got) => got
      case Acquired(v) => Cached(v)
      case Holding(v) => Cached(v)
      case Sharing(v) => Cached(v)
      case _ => Obsolete
    else th.slot
  }

  /** The version slots may cache: the current one, or the old one until an install gets there. */
  function Expected(s: State, t: nat): nat {
    if s.lock.Held? && s.lock.tid < |s.threads| then
      match s.threads[s.lock.tid].pc
      case Switched(old_) => old_
      case Counted(old_) => old_
      case Scraping(old_, next, _) => if next <= t then old_ else s.current
      case _ => s.current
    else s.current
  }

  predicate FreshOk(s: State, t: nat)
    requires t < |s.threads|
  {
    var slot := SlotVersion(s.threads[t]);
    slot.Cached? ==> slot.v == Expected(s, t)
  }

  /** Versions are numbered from 1 in the order of their installation. */
  ghost predicate NumbersOk(s: State) {
    var pc := if s.lock.Held? && s.lock.tid < |s.threads| then s.threads[s.lock.tid].pc else Idle;
    && |s.versions| == s.current + (if pc.Created? then 2 else 1)
    && (pc.Created? ==> pc.new_ == s.current + 1)
    && s.number == s.current + (if pc.Switched? then 0 else 1)
    && (forall v: nat :: v < s.current ==> s.versions[v].number == v + 1)
    && (pc.Switched? || pc.Counted? || s.versions[s.current].number == s.number)
    && (pc.Scraping? ==> pc.next <= |s.threads|)
    && (pc.Switched? || pc.Counted? || pc.Scraping? ==> pc.old_ + 1 == s.current)
  }

  ghost predicate Inv(s: State) {
    && (forall v: nat :: CountOk(s, v))
    && (forall v: nat :: CleanOk(s, v))
    && (forall t: nat :: t < |s.threads| ==> LockOk(s, t))
    && (forall t: nat :: t < |s.threads| ==> SlotOk(s.threads[t]))
    && (forall t: nat :: t < |s.threads| ==> FreshOk(s, t))
    && NumbersOk(s)
  }

  // ---------------------------------------------------------------- safety of one step

  /** Whoever owns a reference may use the version. */
  lemma OwnerMayUse(s: State, t: nat, v: nat)
    requires t < |s.threads| && CountOk(s, v) && CleanOk(s, v) && Owns(s.threads[t], v) > 0
    ensures Usable(s, v) && s.versions[v].refs >= Owns(s.threads[t], v)
  {
    OwnedUpdate(s.threads, t, s.threads[t], v);
  }

  lemma DebtorMayClean(s: State, t: nat, v: nat)
    requires t < |s.threads| && CleanOk(s, v) && Owes(s.threads[t], v) > 0
    ensures Usable(s, v) && s.versions[v].refs == 0
  {
    OwedUpdate(s.threads, t, s.threads[t], v);
  }

  lemma CurrentIsAlive(s: State)
    requires CountOk(s, s.current) && CleanOk(s, s.current)
    ensures Usable(s, s.current) && s.versions[s.current].refs > 0
  {
  }

  lemma StepIsSafe(s: State, t: nat, a: Action)
    requires Inv(s) && Enabled(s, t, a)
    ensures Safe(s, t, a)
  {
    var th := s.threads[t];
    assert SlotOk(th);
    if a.Share? {
      OwnerMayUse(s, t, th.pc.v);
    } else if a.Step? {
      match th.pc
      case Swapped(got) => if got.Cached? { OwnerMayUse(s, t, got.v); }
      case Stale(v) => OwnerMayUse(s, t, v);
      case Locked(owed) => if owed.Cached? { DebtorMayClean(s, t, owed.v); } else { CurrentIsAlive(s); }
      case SharedStale(v) => OwnerMayUse(s, t, v);
      case Releasing(v) => OwnerMayUse(s, t, v);
      case Cleaning(v) => DebtorMayClean(s, t, v);
      case Created(n) => OwnerMayUse(s, t, n);
      case Counted(_) => CurrentIsAlive(s);
      case Dropping(old_, pending) =>
        if pending != [] { assert pending[0] in multiset(pending); }
        OwnerMayUse(s, t, if pending == [] then old_ else pending[0]);
      case Sweeping(_, _, v) => DebtorMayClean(s, t, v);
      case _ =>
    }
  }

  // ---------------------------------------------------------------- what one step keeps

  /** All but a scraping step change only the thread that takes it. */
  predicate Scrapes(s: State, t: nat, a: Action)
    requires t < |s.threads|
  {
    a.Step? && s.threads[t].pc.Scraping? && s.threads[t].pc.next < |s.threads|
  }

  lemma OwnThreadOnly(s: State, t: nat, a: Action)
    requires Enabled(s, t, a) && Safe(s, t, a) && !Scrapes(s, t, a)
    ensures var s' := After(s, t, a);
            |s'.threads| == |s.threads| && s'.threads == s.threads[t := s'.threads[t]]
  {
  }

  /** The control points of taking a version, of giving one up, and the two halves of an install. */
  datatype Phase = Taking | Giving | Installing | Sweeping

  function PhaseOf(pc: Pc): Phase {
    match pc
    case Idle => Taking
    case Swapped(_) => Taking
    case Stale(_) => Taking
    case Waiting(_) => Taking
    case Locked(_) => Taking
    case Acquired(_) => Taking
    case Dropping(_, _) => Phase.Sweeping
    case Sweeping(_, _, _) => Phase.Sweeping
    case InstallWait => Installing
    case Created(_) => Installing
    case Switched(_) => Installing
    case Counted(_) => Installing
    case Scraping(_, _, _) => Installing
    case _ => Giving
  }

  /** A step of thread `t` balances the references it adds and drops. */
  predicate Balanced(s: State, t: nat, s': State, v: nat)
    requires t < |s.threads| && t < |s'.threads|
  {
    RefsOf(s', v) - RefsOf(s, v) ==
      Bit(v == s'.current) - Bit(v == s.current) + Owns(s'.threads[t], v) - Owns(s.threads[t], v)
          + s'.extra[v] - s.extra[v]
  }

  lemma CallBalanced(s: State, t: nat, a: Action, v: nat)
    requires Enabled(s, t, a) && Safe(s, t, a) && !a.Step?
    ensures Balanced(s, t, After(s, t, a), v)
  {
  }

  lemma TakingBalanced(s: State, t: nat, v: nat)
    requires Enabled(s, t, Step) && Safe(s, t, Step) && PhaseOf(s.threads[t].pc) == Taking && !Scrapes(s, t, Step)
    ensures Balanced(s, t, After(s, t, Step), v)
  {
  }

  lemma GivingBalanced(s: State, t: nat, v: nat)
    requires Enabled(s, t, Step) && Safe(s, t, Step) && PhaseOf(s.threads[t].pc) == Giving && !Scrapes(s, t, Step)
    ensures Balanced(s, t, After(s, t, Step), v)
  {
  }

  lemma InstallingBalanced(s: State, t: nat, v: nat)
    requires Enabled(s, t, Step) && Safe(s, t, Step) && PhaseOf(s.threads[t].pc) == Installing && !Scrapes(s, t, Step)
    ensures Balanced(s, t, After(s, t, Step), v)
  {
  }

  lemma FirstOfPending(pending: seq<nat>, v: nat)
    requires pending != []
    ensures multiset(pending)[v] == Bit(pending[0] == v) + multiset(pending[1..])[v]
  {
    assert pending == [pending[0]] + pending[1..];
  }

  lemma SweepingBalanced(s: State, t: nat, v: nat)
    requires Enabled(s, t, Step) && Safe(s, t, Step) && PhaseOf(s.threads[t].pc) == Phase.Sweeping
    ensures Balanced(s, t, After(s, t, Step), v)
  {
    hide Balanced, After, Safe;
    if s.threads[t].pc.Dropping? {
      DroppingBalanced(s, t, v);
    } else {
      CleaningBalanced(s, t, v);
    }
  }

  lemma DroppingBalanced(s: State, t: nat, v: nat)
    requires Enabled(s, t, Step) && Safe(s, t, Step) && s.threads[t].pc.Dropping?
    ensures Balanced(s, t, After(s, t, Step), v)
  {
    var pc := s.threads[t].pc;
    if pc.pending != [] {
      FirstOfPending(pc.pending, v);
    }
  }

  lemma CleaningBalanced(s: State, t: nat, v: nat)
    requires Enabled(s, t, Step) && Safe(s, t, Step)
    requires PhaseOf(s.threads[t].pc) == Phase.Sweeping && !s.threads[t].pc.Dropping?
    ensures Balanced(s, t, After(s, t, Step), v)
  {
  }

  lemma CountsKept(s: State, t: nat, a: Action, v: nat)
    requires CountOk(s, v) && Enabled(s, t, a) && Safe(s, t, a) && !Scrapes(s, t, a)
    ensures CountOk(After(s, t, a), v)
  {
    hide Owned, Owns;
    var s' := After(s, t, a);
    OwnThreadOnly(s, t, a);
    OwnedUpdate(s.threads, t, s'.threads[t], v);
    assert Balanced(s, t, s', v) by {
      if !a.Step? {
        CallBalanced(s, t, a, v);
      } else {
        match PhaseOf(s.threads[t].pc)
        case Taking => TakingBalanced(s, t, v);
        case Giving => GivingBalanced(s, t, v);
        case Installing => InstallingBalanced(s, t, v);
        case Sweeping => SweepingBalanced(s, t, v);
      }
    }
    hide After;
  }

  /** A step settles a debt when it cleans up, and incurs one when it drops the last reference. */
  predicate Settled(s: State, t: nat, s': State, v: nat)
    requires t < |s.threads| && t < |s'.threads|
  {
    CleanedOf(s', v) + Owes(s'.threads[t], v) + Bit(v < |s.versions| && s.versions[v].refs == 0) ==
      CleanedOf(s, v) + Owes(s.threads[t], v) + Bit(v < |s'.versions| && s'.versions[v].refs == 0)
  }

  lemma CallSettled(s: State, t: nat, a: Action, v: nat)
    requires Enabled(s, t, a) && Safe(s, t, a) && !a.Step? && CountOk(s, v)
    ensures Settled(s, t, After(s, t, a), v)
  {
    OwnedUpdate(s.threads, t, s.threads[t], v);
    hide Owned;
  }

  lemma TakingSettled(s: State, t: nat, v: nat)
    requires Enabled(s, t, Step) && Safe(s, t, Step) && PhaseOf(s.threads[t].pc) == Taking && !Scrapes(s, t, Step)
    requires CountOk(s, v) && CleanOk(s, v)
    ensures Settled(s, t, After(s, t, Step), v)
  {
    OwnedUpdate(s.threads, t, s.threads[t], v);
    OwedUpdate(s.threads, t, s.threads[t], v);
    hide Owned, Owed;
  }

  lemma GivingSettled(s: State, t: nat, v: nat)
    requires Enabled(s, t, Step) && Safe(s, t, Step) && PhaseOf(s.threads[t].pc) == Giving && !Scrapes(s, t, Step)
    ensures Settled(s, t, After(s, t, Step), v)
  {
  }

  lemma InstallingSettled(s: State, t: nat, v: nat)
    requires Enabled(s, t, Step) && Safe(s, t, Step) && PhaseOf(s.threads[t].pc) == Installing && !Scrapes(s, t, Step)
    requires CountOk(s, v) && CleanOk(s, v)
    ensures Settled(s, t, After(s, t, Step), v)
  {
    OwnedUpdate(s.threads, t, s.threads[t], v);
    OwedUpdate(s.threads, t, s.threads[t], v);
    hide Owned, Owed;
  }

  lemma SweepingSettled(s: State, t: nat, v: nat)
    requires Enabled(s, t, Step) && Safe(s, t, Step) && PhaseOf(s.threads[t].pc) == Phase.Sweeping
    ensures Settled(s, t, After(s, t, Step), v)
  {
  }

  lemma CleansKept(s: State, t: nat, a: Action, v: nat)
    requires CountOk(s, v) && CleanOk(s, v) && Enabled(s, t, a) && Safe(s, t, a) && !Scrapes(s, t, a)
    ensures CleanOk(After(s, t, a), v)
  {
    hide Owned, Owed, Owes;
    var s' := After(s, t, a);
    OwnThreadOnly(s, t, a);
    OwedUpdate(s.threads, t, s'.threads[t], v);
    assert Settled(s, t, s', v) by {
      if !a.Step? {
        CallSettled(s, t, a, v);
      } else {
        match PhaseOf(s.threads[t].pc)
        case Taking => TakingSettled(s, t, v);
        case Giving => GivingSettled(s, t, v);
        case Installing => InstallingSettled(s, t, v);
        case Sweeping => SweepingSettled(s, t, v);
      }
    }
    hide After;
  }

  /** A scraping step moves the reference of a slot to the installer. */
  /** The scrape of one slot: it becomes obsolete, and its reference goes to the list. */
  lemma ScrapeStep(s: State, t: nat)
    requires Enabled(s, t, Step) && Safe(s, t, Step) && Scrapes(s, t, Step)
    ensures var pc, s' := s.threads[t].pc, After(s, t, Step);
            var slot := s.threads[pc.next].slot;
            && s' == s.(threads := s'.threads)
            && s'.threads == SetSlot(s, pc.next, Obsolete).threads[t := s'.threads[t]]
            && s'.threads[t].slot == SetSlot(s, pc.next, Obsolete).threads[t].slot
            && s'.threads[t].pc
               == Scraping(pc.old_, pc.next + 1, if slot.Cached? then pc.pending + [slot.v] else pc.pending)
  {
  }

  lemma ScrapeKeepsCounts(s: State, t: nat, v: nat)
    requires Enabled(s, t, Step) && Safe(s, t, Step) && Scrapes(s, t, Step) && CountOk(s, v)
    ensures CountOk(After(s, t, Step), v)
  {
    ScrapeStep(s, t);
    hide After, Safe, Enabled, Owned;
    var pc := s.threads[t].pc;
    var mid := SetSlot(s, pc.next, Obsolete);
    var s' := After(s, t, Step);
    OwnedUpdate(s.threads, pc.next, mid.threads[pc.next], v);
    OwnedUpdate(mid.threads, t, s'.threads[t], v);
    PendingGrows(pc.pending, s.threads[pc.next].slot, v);
  }

  lemma PendingGrows(pending: seq<nat>, slot: Slot, v: nat)
    ensures slot.Cached? ==> multiset(pending + [slot.v])[v] == multiset(pending)[v] + Bit(slot.v == v)
  {
  }

  lemma ScrapeKeepsCleans(s: State, t: nat, v: nat)
    requires Enabled(s, t, Step) && Safe(s, t, Step) && Scrapes(s, t, Step) && CleanOk(s, v)
    ensures CleanOk(After(s, t, Step), v)
  {
    var next := s.threads[t].pc.next;
    var mid := SetSlot(s, next, Obsolete);
    var s' := After(s, t, Step);
    OwedUpdate(s.threads, next, mid.threads[next], v);
    OwedUpdate(mid.threads, t, s'.threads[t], v);
    hide Owed;
  }

  /** Another thread changes only by having its slot scraped. */
  lemma OtherThread(s: State, t: nat, a: Action, u: nat)
    requires Enabled(s, t, a) && Safe(s, t, a) && u < |s.threads| && u != t
    ensures var s' := After(s, t, a);
            && |s'.threads| == |s.threads|
            && s'.threads[u]
                == (if Scrapes(s, t, a) && s.threads[t].pc.next == u then s.threads[u].(slot := Obsolete)
                else s.threads[u])
  {
  }

  predicate IsInstaller(pc: Pc) {
    PhaseOf(pc).Installing? || PhaseOf(pc).Sweeping?
  }

  /** The mutex is taken when free and given back by its holder. */
  predicate LockMoved(s: State, t: nat, s': State)
    requires t < |s.threads|
  {
    && |s'.threads| == |s.threads| && LockOk(s', t)
    && (s'.lock == s.lock || (s.lock == Free && s'.lock == Held(t)) || (s.lock == Held(t) && s'.lock == Free))
  }

  lemma CallMovesLock(s: State, t: nat, a: Action)
    requires Enabled(s, t, a) && Safe(s, t, a) && !a.Step? && LockOk(s, t)
    ensures LockMoved(s, t, After(s, t, a))
  {
  }

  lemma ReaderMovesLock(s: State, t: nat)
    requires Enabled(s, t, Step) && Safe(s, t, Step) && !IsInstaller(s.threads[t].pc) && LockOk(s, t)
    ensures LockMoved(s, t, After(s, t, Step))
  {
  }

  lemma InstallerMovesLock(s: State, t: nat)
    requires Enabled(s, t, Step) && Safe(s, t, Step) && IsInstaller(s.threads[t].pc) && LockOk(s, t)
    ensures LockMoved(s, t, After(s, t, Step))
  {
  }

  lemma LockMoves(s: State, t: nat, a: Action)
    requires Enabled(s, t, a) && Safe(s, t, a) && LockOk(s, t)
    ensures LockMoved(s, t, After(s, t, a))
  {
    hide LockMoved, After;
    if !a.Step? {
      CallMovesLock(s, t, a);
    } else if IsInstaller(s.threads[t].pc) {
      InstallerMovesLock(s, t);
    } else {
      ReaderMovesLock(s, t);
    }
  }

  lemma CallKeepsSlot(s: State, t: nat, a: Action)
    requires Enabled(s, t, a) && Safe(s, t, a) && SlotOk(s.threads[t]) && !a.Step?
    ensures var s' := After(s, t, a); |s'.threads| == |s.threads| && SlotOk(s'.threads[t])
  {
  }

  lemma ReaderKeepsSlot(s: State, t: nat)
    requires Enabled(s, t, Step) && Safe(s, t, Step) && SlotOk(s.threads[t]) && !IsInstaller(s.threads[t].pc)
    ensures var s' := After(s, t, Step); |s'.threads| == |s.threads| && SlotOk(s'.threads[t])
  {
  }

  lemma InstallerKeepsSlot(s: State, t: nat)
    requires Enabled(s, t, Step) && Safe(s, t, Step) && SlotOk(s.threads[t]) && IsInstaller(s.threads[t].pc)
    ensures var s' := After(s, t, Step); |s'.threads| == |s.threads| && SlotOk(s'.threads[t])
  {
  }

  lemma OwnSlot(s: State, t: nat, a: Action)
    requires Enabled(s, t, a) && Safe(s, t, a) && SlotOk(s.threads[t])
    ensures var s' := After(s, t, a); |s'.threads| == |s.threads| && SlotOk(s'.threads[t])
  {
    hide After, Safe, SlotOk;
    if !a.Step? {
      CallKeepsSlot(s, t, a);
    } else if IsInstaller(s.threads[t].pc) {
      InstallerKeepsSlot(s, t);
    } else {
      ReaderKeepsSlot(s, t);
    }
  }

  /** What slots may cache changes only where a slot is scraped. */
  lemma ExpectedKept(s: State, t: nat, a: Action, u: nat)
    requires Enabled(s, t, a) && Safe(s, t, a) && u < |s.threads| && LockOk(s, t)
             && !(Scrapes(s, t, a) && s.threads[t].pc.next == u)
    ensures Expected(After(s, t, a), u) == Expected(s, u)
  {
    hide After, Safe, Expected;
    if !a.Step? {
      CallExpected(s, t, a, u);
    } else if PhaseOf(s.threads[t].pc) == Installing {
      InstallerExpected(s, t, u);
    } else {
      ReaderExpected(s, t, u);
    }
  }

  lemma CallExpected(s: State, t: nat, a: Action, u: nat)
    requires Enabled(s, t, a) && Safe(s, t, a) && u < |s.threads| && LockOk(s, t) && !a.Step?
    ensures Expected(After(s, t, a), u) == Expected(s, u)
  {
  }

  lemma InstallerExpected(s: State, t: nat, u: nat)
    requires Enabled(s, t, Step) && Safe(s, t, Step) && u < |s.threads| && LockOk(s, t)
    requires PhaseOf(s.threads[t].pc) == Installing && !(Scrapes(s, t, Step) && s.threads[t].pc.next == u)
    ensures Expected(After(s, t, Step), u) == Expected(s, u)
  {
  }

  lemma ReaderExpected(s: State, t: nat, u: nat)
    requires Enabled(s, t, Step) && Safe(s, t, Step) && u < |s.threads| && LockOk(s, t)
    requires PhaseOf(s.threads[t].pc) != Installing
    ensures Expected(After(s, t, Step), u) == Expected(s, u)
  {
  }

  /** A thread puts into its slot what it took from there, or what was current under the mutex. */
  lemma OwnFresh(s: State, t: nat, a: Action)
    requires Enabled(s, t, a) && Safe(s, t, a) && SlotOk(s.threads[t]) && LockOk(s, t)
    ensures var s' := After(s, t, a);
            && |s'.threads| == |s.threads|
            && var slot := SlotVersion(s'.threads[t]);
               slot.Cached? ==>
                 || slot == SlotVersion(s.threads[t])
                 || (s.threads[t].pc.Locked? && slot.v == Expected(s, t))
    ensures Scrapes(s, t, a) && s.threads[t].pc.next == t ==> !SlotVersion(After(s, t, a).threads[t]).Cached?
  {
  }

  lemma CallKeepsNumbers(s: State, t: nat, a: Action)
    requires Enabled(s, t, a) && Safe(s, t, a) && LockOk(s, t) && NumbersOk(s) && !a.Step?
    ensures NumbersOk(After(s, t, a))
  {
  }

  lemma TakingKeepsNumbers(s: State, t: nat)
    requires Enabled(s, t, Step) && Safe(s, t, Step) && LockOk(s, t) && NumbersOk(s) && PhaseOf(s.threads[t].pc).Taking?
    ensures NumbersOk(After(s, t, Step))
  {
  }

  lemma GivingKeepsNumbers(s: State, t: nat)
    requires Enabled(s, t, Step) && Safe(s, t, Step) && LockOk(s, t) && NumbersOk(s) && PhaseOf(s.threads[t].pc).Giving?
    ensures NumbersOk(After(s, t, Step))
  {
  }

  lemma InstallerKeepsNumbers(s: State, t: nat)
    requires Enabled(s, t, Step) && Safe(s, t, Step) && LockOk(s, t) && NumbersOk(s) && IsInstaller(s.threads[t].pc)
    ensures NumbersOk(After(s, t, Step))
  {
  }

  lemma NumbersKept(s: State, t: nat, a: Action)
    requires Enabled(s, t, a) && Safe(s, t, a) && LockOk(s, t) && NumbersOk(s)
    ensures NumbersOk(After(s, t, a))
  {
    hide NumbersOk, After;
    if !a.Step? {
      CallKeepsNumbers(s, t, a);
    } else {
      match PhaseOf(s.threads[t].pc)
      case Taking => TakingKeepsNumbers(s, t);
      case Giving => GivingKeepsNumbers(s, t);
      case Installing => InstallerKeepsNumbers(s, t);
      case Sweeping => InstallerKeepsNumbers(s, t);
    }
  }
}
