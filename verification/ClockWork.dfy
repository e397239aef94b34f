/**
  What the calls of the clock cache that take the mutex achieve, over whole runs and with all other
  threads taking and dropping references meanwhile: erasing, clearing, inserting, and changing the
  capacity. Each is said of the state in which the mutex is given back, compared with the one in
  which it was taken.
*/
module ClockWork {
  import opened Basics
  import opened ClockCache
  import opened ClockSafety
  import opened ClockGuard
  import opened ClockRuns
  import opened ClockCalls

  // ---------------------------------------------------------------- since the mutex was taken

  /** The instant since which the mutex is with whom it is now. */
  function LockedAt(states: seq<State>, i: nat): (m: nat)
    requires i < |states|
    ensures m <= i && states[m].lock == states[i].lock
  {
    if i == 0 || states[i - 1].lock != states[i].lock then i else LockedAt(states, i - 1)
  }

  predicate NotCached(s: State, h: nat) {
    h < |s.handles| && !s.handles[h].flags.inCache
  }

  /** All handles but `e` stand for the entries they stood for. */
  predicate OthersSame(s0: State, s: State, e: int) {
    |s.handles| == |s0.handles| && forall h :: 0 <= h < |s.handles| && h != e ==> SameEntry(s0.handles[h], s.handles[h])
  }

  // ---------------------------------------------------------------- erasing

  /** The holder of the mutex is erasing `key`. */
  predicate EraseWork(key: int, s0: State, s: State, pc: Pc) {
    var e: int := if key in s0.table then s0.table[key] else -1;
    match pc
    case Erasing(k) => k == key && s.table == s0.table && OthersSame(s0, s, -1)
    case EraseUnset(h) => h == e && s.table == s0.table - {key} && OthersSame(s0, s, e)
    case Binning(h) => h == e && s.table == s0.table - {key} && OthersSame(s0, s, e) && NotCached(s, h)
    case Unlocking =>
      s.table == s0.table - {key} && OthersSame(s0, s, e) && (key in s0.table ==> NotCached(s, s0.table[key]))
    case _ => false
  }

  /** The holder of the mutex is erasing everything. */
  predicate ClearWork(s0: State, s: State, pc: Pc) {
    |s.handles| == |s0.handles| &&
    match pc
    case Clearing => true
    case ClearLoop(i) => s.table == map[] && i <= |s.handles| && forall h: nat :: h < i ==> NotCached(s, h)
    case ClearBin(i) => s.table == map[] && i < |s.handles| && forall h: nat :: h <= i ==> NotCached(s, h)
    case Unlocking => s.table == map[] && forall h: nat :: h < |s.handles| ==> NotCached(s, h)
    case _ => false
  }

  /** The holder of the mutex recycles a handle whose last reference was dropped. */
  predicate BinWork(s0: State, s: State, pc: Pc) {
    s.table == s0.table &&
    match pc
    case Binning(h) => s.bin == s0.bin
    case Unlocking => s.bin != [] && s.bin[..|s.bin| - 1] == s0.bin
    case _ => false
  }

  // ---------------------------------------------------------------- evicting

  /** What a visit of the clock hand makes of the flags. */
  function Spared(f: Flags): Flags {
    if f == Flags(true, false, 0) then UNUSED else f.(used := false)
  }

  predicate OverCapacity(s: State, job: Job) { s.usage + Need(job) > s.capacity }

  /** With step `k` the hand visits handle `h`, because there is not enough room. */
  predicate Visits(states: seq<State>, moves: seq<Move>, k: nat, t: nat, job: Job, h: nat, second: bool) {
    && k < |moves| && k + 1 < |states| && moves[k] == Move(t, Step) && t < |states[k].threads|
    && states[k].threads[t].pc == EvictLoop(job, h, second) && OverCapacity(states[k], job)
    && h < |states[k].handles| && h < |states[k + 1].handles|
    && states[k + 1].handles[h].flags == Spared(states[k].handles[h].flags)
  }

  ghost predicate Tried(states: seq<State>, moves: seq<Move>, m: nat, i: nat, t: nat, job: Job, h: nat, second: bool) {
    exists k: nat :: m <= k < i && Visits(states, moves, k, t, job, h, second)
  }

  /** Handle `h` was evicted since instant `m`: it was cached, unreferenced and unused when the hand came. */
  ghost predicate Ousted(states: seq<State>, moves: seq<Move>, m: nat, i: nat, t: nat, job: Job, h: nat) {
    exists k: nat, second :: m <= k < i && Visits(states, moves, k, t, job, h, second)
                             && states[k].handles[h].flags == Flags(true, false, 0)
  }

  /** In the circle of `n` places, the hand went from `head` to `at` and passed `h`. */
  predicate Between(head: nat, at: nat, h: nat) {
    if head <= at then head <= h < at else h >= head || h < at
  }

  /** Which handles the hand has visited. */
  ghost predicate Laps(states: seq<State>, moves: seq<Move>, m: nat, i: nat, t: nat, job: Job, head: nat, at: nat,
                       second: bool, n: nat) {
    forall h: nat :: h < n ==>
      && (second || Between(head, at, h) ==> Tried(states, moves, m, i, t, job, h, false))
      && (second && Between(head, at, h) ==> Tried(states, moves, m, i, t, job, h, true))
  }

  /** With step `k` the hand stops, since there is enough room. */
  predicate Stops(states: seq<State>, moves: seq<Move>, k: nat, t: nat, job: Job) {
    && k < |moves| && k < |states| && moves[k] == Move(t, Step) && t < |states[k].threads|
    && states[k].threads[t].pc.EvictLoop? && !OverCapacity(states[k], job)
  }

  ghost predicate NeverStopped(states: seq<State>, moves: seq<Move>, m: nat, i: nat, t: nat, job: Job) {
    forall k: nat :: m <= k < i ==> !Stops(states, moves, k, t, job)
  }

  /** The hand is where it stopped, and if it did not stop, where it was. */
  ghost predicate HandOk(states: seq<State>, moves: seq<Move>, m: nat, i: nat, t: nat, job: Job)
    requires m < |states| && i < |states|
  {
    && (forall k: nat :: m <= k < i && Stops(states, moves, k, t, job) ==>
          states[i].head == states[k].threads[t].pc.at)
    && (NeverStopped(states, moves, m, i, t, job) ==> states[i].head == states[m].head)
  }

  /** Eviction has given up rightly: the cache is empty and too small, or every handle was visited twice
      while there was not enough room. */
  ghost predicate GaveUp(states: seq<State>, moves: seq<Move>, m: nat, i: nat, t: nat, job: Job)
    requires m < |states|
  {
    || (states[m].usage == 0 && OverCapacity(states[m], job))
    || forall h: nat :: h < |states[m].handles| ==>
         Tried(states, moves, m, i, t, job, h, false) && Tried(states, moves, m, i, t, job, h, true)
  }

  /** Except for the keys to skip, the table has lost only entries that were evicted. */
  ghost predicate Kept(states: seq<State>, moves: seq<Move>, m: nat, i: nat, t: nat, job: Job, skip: set<int>)
    requires m < |states| && i < |states|
  {
    forall key :: key !in skip ==>
      && (key in states[i].table ==> key in states[m].table && states[i].table[key] == states[m].table[key])
      && (key in states[m].table && key !in states[i].table ==>
            Ousted(states, moves, m, i, t, job, states[m].table[key]))
  }

  // ---------------------------------------------------------------- inserting

  /** The handle for a new entry comes from the bin, or is new if the bin is empty. */
  predicate Picks(s: State, h: nat) {
    if s.bin == [] then h == |s.handles| else h == s.bin[|s.bin| - 1]
  }

  ghost predicate Picked(states: seq<State>, m: nat, i: nat, h: nat)
    requires i < |states|
  {
    exists k: nat :: m <= k < i && Picks(states[k], h)
  }

  ghost predicate StrictAt(states: seq<State>, m: nat, i: nat, strict: bool)
    requires i < |states|
  {
    exists k: nat :: m <= k <= i && states[k].strict == strict
  }

  /** The entry may be inserted: it fits, or it does not but somebody holds it and the cache is not strict. */
  ghost predicate Admitted(states: seq<State>, moves: seq<Move>, m: nat, i: nat, t: nat, job: Job, need: nat)
    requires m < |states| && i < |states|
  {
    || states[i].usage + need <= states[i].capacity
    || (job.Insertion? && job.hold && StrictAt(states, m, i, false) && GaveUp(states, moves, m, i, t, job))
  }

  ghost predicate Inserting(states: seq<State>, moves: seq<Move>, m: nat, i: nat, t: nat, job: Job, h: nat,
                            skip: set<int>)
    requires m < |states| && i < |states|
  {
    && job.Insertion? && Admitted(states, moves, m, i, t, job, job.charge) && Picked(states, m, i, h)
    && Kept(states, moves, m, i, t, job, skip)
  }

  /** The new entry is in the table, and its holder has a reference if one was asked for. */
  ghost predicate Entered(states: seq<State>, moves: seq<Move>, m: nat, i: nat, t: nat, job: Job, h: nat,
                          held: multiset<nat>)
    requires m < |states| && i < |states| && t < |states[i].threads|
  {
    var s := states[i];
    && job.Insertion? && job.key in s.table && s.table[job.key] == h && EntryOf(s, job, h)
    && Picked(states, m, i, h) && Kept(states, moves, m, i, t, job, {job.key})
    && Admitted(states, moves, m, i, t, job, 0)
    && s.threads[t].held == if job.hold then held + multiset{h} else held
  }

  /** Nothing was inserted. A change of the capacity is done; an insertion was refused, since eviction
      gave up and the cache is strict or nobody would hold the entry. */
  ghost predicate NotEntered(states: seq<State>, moves: seq<Move>, m: nat, i: nat, t: nat, job: Job,
                             held: multiset<nat>)
    requires m < |states| && i < |states| && t < |states[i].threads|
  {
    && Kept(states, moves, m, i, t, job, {}) && states[i].threads[t].held == held
    && if job.Resize? then
         states[i].usage <= states[i].capacity || GaveUp(states, moves, m, i, t, job)
       else
         GaveUp(states, moves, m, i, t, job) && (!job.hold || StrictAt(states, m, i, true))
  }

  /** Where the holder of the mutex is while it evicts. */
  ghost predicate EvictPoint(states: seq<State>, moves: seq<Move>, m: nat, i: nat, t: nat, job: Job, pc: Pc)
    requires m <= i < |states| && PhaseOf(pc) == OnEviction
  {
    var s0, s := states[m], states[i];
    && pc.job == job && Kept(states, moves, m, i, t, job, {})
    && match pc
       case EvictStart(_) => s.usage == s0.usage && |s.handles| == |s0.handles|
       case EvictLoop(_, at, second) =>
         |s.handles| == |s0.handles| && Laps(states, moves, m, i, t, job, s.head, at, second, |s.handles|)
       case EvictErase(_, at, second, h) =>
         && |s.handles| == |s0.handles| && Laps(states, moves, m, i, t, job, s.head, at, second, |s.handles|)
         && h == at && Tried(states, moves, m, i, t, job, at, second) && Ousted(states, moves, m, i, t, job, at)
       case EvictBin(_, at, second, h) =>
         && |s.handles| == |s0.handles| && Laps(states, moves, m, i, t, job, s.head, at, second, |s.handles|)
         && h == at && Tried(states, moves, m, i, t, job, at, second)
       case Decide(_, ok) => if ok then !OverCapacity(s, job) else GaveUp(states, moves, m, i, t, job)
       case _ => false
  }

  /** The key whose entry an insertion has taken out of the table, or is putting there. */
  function Skipped(pc: Pc, job: Job): set<int>
    requires job.Insertion?
  {
    if pc.Filling? || pc.Publishing? || pc.Replacing? then {} else {job.key}
  }

  /** Where it is while it inserts. */
  ghost predicate InsertPoint(states: seq<State>, moves: seq<Move>, m: nat, i: nat, t: nat, job: Job, pc: Pc)
    requires m <= i < |states| && PhaseOf(pc) == OnInsertion
  {
    && pc.job == job && job.Insertion? && Inserting(states, moves, m, i, t, job, pc.h, Skipped(pc, job))
    && (pc.Counting? ==> job.key in states[i].table && states[i].table[job.key] == pc.h)
  }

  /** What it has done when it gives the mutex back. */
  ghost predicate JobDone(states: seq<State>, moves: seq<Move>, m: nat, i: nat, t: nat, job: Job, held: multiset<nat>)
    requires m <= i < |states| && t < |states[i].threads|
  {
    || NotEntered(states, moves, m, i, t, job, held)
    || exists h :: Entered(states, moves, m, i, t, job, h, held)
  }

  /** The capacity and the hand, in all phases of a job. */
  ghost predicate JobFrame(states: seq<State>, moves: seq<Move>, m: nat, i: nat, t: nat, job: Job, pc: Pc)
    requires m <= i < |states|
  {
    && states[i].capacity == states[m].capacity && (job.Resize? ==> states[i].capacity == job.capacity)
    && HandOk(states, moves, m, i, t, job)
    && (PhaseOf(pc) == OnEviction && !pc.Decide? ==> NeverStopped(states, moves, m, i, t, job))
  }

  /** Where the holder of the mutex is with a job. */
  ghost predicate JobWork(states: seq<State>, moves: seq<Move>, m: nat, i: nat, t: nat, job: Job, held: multiset<nat>)
    requires m <= i < |states| && t < |states[i].threads|
  {
    var th := states[i].threads[t];
    && JobFrame(states, moves, m, i, t, job, th.pc)
    && match PhaseOf(th.pc)
       case OnEviction => th.held == held && EvictPoint(states, moves, m, i, t, job, th.pc)
       case OnInsertion => th.held == held && InsertPoint(states, moves, m, i, t, job, th.pc)
       case _ => th.pc.Unlocking? && JobDone(states, moves, m, i, t, job, held)
  }

  function JobOf(a: Action): Job
    requires a.Insert? || a.SetCapacity?
  {
    if a.Insert? then Insertion(a.key, a.charge, a.hold) else Resize(a.capacity)
  }

  /** What a call waits for before it takes the mutex. */
  predicate Awaits(a: Action, pc: Pc) {
    match a
    case Erase(key) => pc == EraseWait(key)
    case EraseUnRefEntries => pc == ClearWait
    case Insert(_, _, _) => pc == JobWait(JobOf(a))
    case SetCapacity(_) => pc == JobWait(JobOf(a))
    case _ => pc.BinWait?
  }

  predicate NeedsMutex(a: Action) { a.Erase? || a.EraseUnRefEntries? || a.Insert? || a.SetCapacity? }

  /** Where the holder of the mutex is with its call `a`, made at instant `c`. */
  ghost predicate Work(states: seq<State>, moves: seq<Move>, c: nat, m: nat, i: nat, t: nat, a: Action)
    requires c < m <= i < |states| && t < |states[i].threads| && t < |states[c].threads|
  {
    var th, held := states[i].threads[t], states[c].threads[t].held;
    match a
    case Erase(key) => EraseWork(key, states[m], states[i], th.pc) && th.held == held
    case EraseUnRefEntries => ClearWork(states[m], states[i], th.pc) && th.held == held
    case Insert(_, _, _) => JobWork(states, moves, m, i, t, JobOf(a), held)
    case SetCapacity(_) => JobWork(states, moves, m, i, t, JobOf(a), held)
    case _ => BinWork(states[m], states[i], th.pc)
  }

  /** Where a thread is with its call, if it has the mutex or waits for it. */
  ghost predicate MutexCallOk(states: seq<State>, moves: seq<Move>, i: nat, t: nat)
    requires i < |states| == |moves| + 1
  {
    t < |states[i].threads| &&
    var c, th := CallAt(moves, i, t), states[i].threads[t];
    if th.pc.Idle? then true
    else
      && c >= 0 && t < |states[c].threads|
      && if InMutex(th.pc) then
           c < LockedAt(states, i) && Work(states, moves, c, LockedAt(states, i), i, t, moves[c].action)
         else if NeedsMutex(moves[c].action) then
           Awaits(moves[c].action, th.pc) && th.held == states[c].threads[t].held
         else Quick(th.pc)
  }

  /** On references, or about to recycle a handle. */
  predicate Quick(pc: Pc) {
    pc.RefLoad? || pc.RefCas? || pc.Checking? || pc.Marking? || pc.Dropping? || pc.BinWait?
  }

  // ---------------------------------------------------------------- evidence stays

  lemma TriedLater(states: seq<State>, moves: seq<Move>, m: nat, i: nat, j: nat, t: nat, job: Job, h: nat, second: bool)
    requires i <= j && Tried(states, moves, m, i, t, job, h, second)
    ensures Tried(states, moves, m, j, t, job, h, second)
  {
    hide Visits;
  }

  lemma OustedLater(states: seq<State>, moves: seq<Move>, m: nat, i: nat, j: nat, t: nat, job: Job, h: nat)
    requires i <= j && Ousted(states, moves, m, i, t, job, h)
    ensures Ousted(states, moves, m, j, t, job, h)
  {
    hide Visits;
  }

  lemma LapsLater(states: seq<State>, moves: seq<Move>, m: nat, i: nat, j: nat, t: nat, job: Job, head: nat, at: nat,
                  second: bool, n: nat)
    requires i <= j && Laps(states, moves, m, i, t, job, head, at, second, n)
    ensures Laps(states, moves, m, j, t, job, head, at, second, n)
  {
    hide Tried, Between;
    forall h: nat, lap | Tried(states, moves, m, i, t, job, h, lap)
      ensures Tried(states, moves, m, j, t, job, h, lap)
    {
      TriedLater(states, moves, m, i, j, t, job, h, lap);
    }
  }

  lemma GaveUpLater(states: seq<State>, moves: seq<Move>, m: nat, i: nat, j: nat, t: nat, job: Job)
    requires m < |states| && i <= j && GaveUp(states, moves, m, i, t, job)
    ensures GaveUp(states, moves, m, j, t, job)
  {
    hide Tried, OverCapacity;
    forall h: nat, lap | Tried(states, moves, m, i, t, job, h, lap)
      ensures Tried(states, moves, m, j, t, job, h, lap)
    {
      TriedLater(states, moves, m, i, j, t, job, h, lap);
    }
  }

  /** Any step but one with which the hand stops. */
  lemma HandLater(states: seq<State>, moves: seq<Move>, m: nat, i: nat, t: nat, job: Job)
    requires m < |states| && i + 1 < |states| && HandOk(states, moves, m, i, t, job)
    requires !Stops(states, moves, i, t, job) && states[i + 1].head == states[i].head
    ensures HandOk(states, moves, m, i + 1, t, job)
    ensures NeverStopped(states, moves, m, i, t, job) ==> NeverStopped(states, moves, m, i + 1, t, job)
  {
    hide Stops;
    if NeverStopped(states, moves, m, i + 1, t, job) {
      assert NeverStopped(states, moves, m, i, t, job);
    }
  }

  lemma HandStops(states: seq<State>, moves: seq<Move>, m: nat, i: nat, t: nat, job: Job)
    requires m <= i && i + 1 < |states| && NeverStopped(states, moves, m, i, t, job) && Stops(states, moves, i, t, job)
    requires states[i + 1].head == states[i].threads[t].pc.at
    ensures HandOk(states, moves, m, i + 1, t, job)
  {
    assert !NeverStopped(states, moves, m, i + 1, t, job);
  }

  /** A step that leaves the table alone. */
  lemma KeptLater(states: seq<State>, moves: seq<Move>, m: nat, i: nat, t: nat, job: Job, skip: set<int>)
    requires m < |states| && i + 1 < |states| && Kept(states, moves, m, i, t, job, skip)
    requires states[i + 1].table == states[i].table
    ensures Kept(states, moves, m, i + 1, t, job, skip)
  {
    hide Ousted;
    forall h: nat | Ousted(states, moves, m, i, t, job, h)
      ensures Ousted(states, moves, m, i + 1, t, job, h)
    {
      OustedLater(states, moves, m, i, i + 1, t, job, h);
    }
  }

  /** A step that changes the table at one key, which may be skipped from now on. */
  lemma KeptBut(states: seq<State>, moves: seq<Move>, m: nat, i: nat, t: nat, job: Job, skip: set<int>, key: int)
    requires m < |states| && i + 1 < |states| && Kept(states, moves, m, i, t, job, skip)
    requires forall k :: k != key ==> (k in states[i + 1].table <==> k in states[i].table)
    requires forall k :: k != key && k in states[i].table ==> states[i + 1].table[k] == states[i].table[k]
    ensures Kept(states, moves, m, i + 1, t, job, skip + {key})
  {
    hide Ousted;
    forall h: nat | Ousted(states, moves, m, i, t, job, h)
      ensures Ousted(states, moves, m, i + 1, t, job, h)
    {
      OustedLater(states, moves, m, i, i + 1, t, job, h);
    }
  }

  lemma PickedLater(states: seq<State>, m: nat, i: nat, h: nat)
    requires i + 1 < |states| && Picked(states, m, i, h)
    ensures Picked(states, m, i + 1, h)
  {
    hide Picks;
  }

  lemma StrictLater(states: seq<State>, m: nat, i: nat, strict: bool)
    requires i + 1 < |states| && StrictAt(states, m, i, strict)
    ensures StrictAt(states, m, i + 1, strict)
  {
  }

  lemma AdmittedLater(states: seq<State>, moves: seq<Move>, m: nat, i: nat, t: nat, job: Job, need: nat, need': nat)
    requires m < |states| && i + 1 < |states| && Admitted(states, moves, m, i, t, job, need)
    requires states[i + 1].usage + need' <= states[i].usage + need && states[i + 1].capacity == states[i].capacity
    ensures Admitted(states, moves, m, i + 1, t, job, need')
  {
    hide GaveUp, StrictAt;
    if GaveUp(states, moves, m, i, t, job) {
      GaveUpLater(states, moves, m, i, i + 1, t, job);
    }
    if StrictAt(states, m, i, false) {
      StrictLater(states, m, i, false);
    }
  }

  lemma InsertingLater(states: seq<State>, moves: seq<Move>, m: nat, i: nat, t: nat, job: Job, h: nat, skip: set<int>)
    requires m < |states| && i + 1 < |states| && Inserting(states, moves, m, i, t, job, h, skip)
    requires states[i + 1].table == states[i].table && states[i + 1].usage <= states[i].usage
    requires states[i + 1].capacity == states[i].capacity
    ensures Inserting(states, moves, m, i + 1, t, job, h, skip)
  {
    hide Admitted, Picked, Kept;
    AdmittedLater(states, moves, m, i, t, job, job.charge, job.charge);
    PickedLater(states, m, i, h);
    KeptLater(states, moves, m, i, t, job, skip);
  }

  lemma InsertingBut(states: seq<State>, moves: seq<Move>, m: nat, i: nat, t: nat, job: Job, h: nat, skip: set<int>)
    requires m < |states| && i + 1 < |states| && Inserting(states, moves, m, i, t, job, h, skip)
    requires forall k :: k != job.key ==> (k in states[i + 1].table <==> k in states[i].table)
    requires forall k :: k != job.key && k in states[i].table ==> states[i + 1].table[k] == states[i].table[k]
    requires states[i + 1].usage <= states[i].usage && states[i + 1].capacity == states[i].capacity
    ensures Inserting(states, moves, m, i + 1, t, job, h, skip + {job.key})
  {
    hide Admitted, Picked, Kept;
    AdmittedLater(states, moves, m, i, t, job, job.charge, job.charge);
    PickedLater(states, m, i, h);
    KeptBut(states, moves, m, i, t, job, skip, job.key);
  }

  // ---------------------------------------------------------------- steps of other threads

  lemma CapacityKept(s: State, t: nat, a: Action)
    requires Enabled(s, t, a) && Safe(s, t, a) && s.lock != Free && !InMutex(s.threads[t].pc)
    ensures Result(s, t, a).s.capacity == s.capacity
  {
  }

  /** While a thread has the mutex, the others change at most reference counts, usage bits and strictness. */
  lemma OutsiderStep(states: seq<State>, moves: seq<Move>, i: nat, t: nat)
    requires i < |moves| && OwnStep(states, moves, i, moves[i].tid) && Inv(states[i])
    requires t < |states[i].threads| && t != moves[i].tid && InMutex(states[i].threads[t].pc)
    ensures Framed(states[i], states[i + 1]) && states[i + 1].capacity == states[i].capacity
    ensures states[i + 1].lock == states[i].lock == Locked(t)
  {
    var s, u, a := states[i], moves[i].tid, moves[i].action;
    assert LockOk(s, t) && LockOk(s, u);
    hide Inv, Advance, Call, InMutex;
    OutsiderFrames(s, u, a);
    LockAfter(s, u, a);
    CapacityKept(s, u, a);
    ThreadsFrame(Result(s, u, a).s, states[i + 1]);
  }

  lemma EraseFramed(key: int, s0: State, s: State, s': State, pc: Pc)
    requires EraseWork(key, s0, s, pc) && Framed(s, s')
    ensures EraseWork(key, s0, s', pc)
  {
  }

  lemma ClearFramed(s0: State, s: State, s': State, pc: Pc)
    requires ClearWork(s0, s, pc) && Framed(s, s')
    ensures ClearWork(s0, s', pc)
  {
    assert forall h: nat :: NotCached(s, h) ==> NotCached(s', h);
    hide NotCached;
  }

  lemma BinFramed(s0: State, s: State, s': State, pc: Pc)
    requires BinWork(s0, s, pc) && Framed(s, s')
    ensures BinWork(s0, s', pc)
  {
  }

  lemma JobFramed(states: seq<State>, moves: seq<Move>, m: nat, i: nat, t: nat, job: Job, held: multiset<nat>)
    requires m <= i && i + 1 < |states| && t < |states[i].threads| && JobWork(states, moves, m, i, t, job, held)
    requires t < |states[i + 1].threads| && states[i + 1].threads[t] == states[i].threads[t]
    requires Framed(states[i], states[i + 1]) && states[i + 1].capacity == states[i].capacity
    requires i < |moves| && moves[i].tid != t
    ensures JobWork(states, moves, m, i + 1, t, job, held)
  {
    var pc := states[i].threads[t].pc;
    FrameLater(states, moves, m, i, t, job, pc, pc);
    hide EvictPoint, InsertPoint, JobDone, Framed, JobFrame;
    match PhaseOf(pc)
    case OnEviction => EvictionFramed(states, moves, m, i, t, job, pc);
    case OnInsertion => InsertionFramed(states, moves, m, i, t, job, pc);
    case _ => UnlockingFramed(states, moves, m, i, t, job, held);
  }

  lemma FrameLater(states: seq<State>, moves: seq<Move>, m: nat, i: nat, t: nat, job: Job, pc: Pc, pc': Pc)
    requires m <= i && i + 1 < |states| && JobFrame(states, moves, m, i, t, job, pc)
    requires PhaseOf(pc') == OnEviction && !pc'.Decide? ==> PhaseOf(pc) == OnEviction && !pc.Decide?
    requires !Stops(states, moves, i, t, job) && states[i + 1].head == states[i].head
    requires states[i + 1].capacity == states[i].capacity
    ensures JobFrame(states, moves, m, i + 1, t, job, pc')
  {
    hide HandOk, NeverStopped, Stops;
    HandLater(states, moves, m, i, t, job);
  }

  lemma EvictionFramed(states: seq<State>, moves: seq<Move>, m: nat, i: nat, t: nat, job: Job, pc: Pc)
    requires m <= i && i + 1 < |states| && PhaseOf(pc) == OnEviction && EvictPoint(states, moves, m, i, t, job, pc)
    requires Framed(states[i], states[i + 1]) && states[i + 1].capacity == states[i].capacity
    ensures EvictPoint(states, moves, m, i + 1, t, job, pc)
  {
    assert |states[i + 1].handles| == |states[i].handles|;
    hide Kept, Laps, Tried, Ousted, GaveUp;
    KeptLater(states, moves, m, i, t, job, {});
    if pc.EvictLoop? || pc.EvictErase? || pc.EvictBin? {
      LapsLater(states, moves, m, i, i + 1, t, job, states[i].head, pc.at, pc.second, |states[i].handles|);
    }
    if pc.EvictErase? || pc.EvictBin? {
      TriedLater(states, moves, m, i, i + 1, t, job, pc.at, pc.second);
    }
    if pc.EvictErase? {
      OustedLater(states, moves, m, i, i + 1, t, job, pc.at);
    }
    if pc.Decide? && !pc.success {
      GaveUpLater(states, moves, m, i, i + 1, t, job);
    }
  }

  lemma InsertionFramed(states: seq<State>, moves: seq<Move>, m: nat, i: nat, t: nat, job: Job, pc: Pc)
    requires m <= i && i + 1 < |states| && PhaseOf(pc) == OnInsertion && InsertPoint(states, moves, m, i, t, job, pc)
    requires Framed(states[i], states[i + 1]) && states[i + 1].capacity == states[i].capacity
    ensures InsertPoint(states, moves, m, i + 1, t, job, pc)
  {
    hide Inserting;
    InsertingLater(states, moves, m, i, t, job, pc.h, Skipped(pc, job));
  }

  lemma UnlockingFramed(states: seq<State>, moves: seq<Move>, m: nat, i: nat, t: nat, job: Job, held: multiset<nat>)
    requires m <= i && i + 1 < |states| && t < |states[i].threads| && JobDone(states, moves, m, i, t, job, held)
    requires t < |states[i + 1].threads| && states[i + 1].threads[t] == states[i].threads[t]
    requires Framed(states[i], states[i + 1]) && states[i + 1].capacity == states[i].capacity
    ensures JobDone(states, moves, m, i + 1, t, job, held)
  {
    hide NotEntered, Entered, Framed;
    if NotEntered(states, moves, m, i, t, job, held) {
      NotEnteredLater(states, moves, m, i, t, job, held);
    } else {
      var h :| Entered(states, moves, m, i, t, job, h, held);
      EnteredLater(states, moves, m, i, t, job, h, held);
    }
  }

  lemma NotEnteredLater(states: seq<State>, moves: seq<Move>, m: nat, i: nat, t: nat, job: Job, held: multiset<nat>)
    requires m <= i && i + 1 < |states| && t < |states[i].threads| && NotEntered(states, moves, m, i, t, job, held)
    requires t < |states[i + 1].threads| && states[i + 1].threads[t] == states[i].threads[t]
    requires Framed(states[i], states[i + 1]) && states[i + 1].capacity == states[i].capacity
    ensures NotEntered(states, moves, m, i + 1, t, job, held)
  {
    hide Kept, GaveUp, StrictAt;
    KeptLater(states, moves, m, i, t, job, {});
    if GaveUp(states, moves, m, i, t, job) {
      GaveUpLater(states, moves, m, i, i + 1, t, job);
    }
    if StrictAt(states, m, i, true) {
      StrictLater(states, m, i, true);
    }
  }

  lemma EnteredLater(states: seq<State>, moves: seq<Move>, m: nat, i: nat, t: nat, job: Job, h: nat,
                     held: multiset<nat>)
    requires m <= i && i + 1 < |states| && t < |states[i].threads| && Entered(states, moves, m, i, t, job, h, held)
    requires t < |states[i + 1].threads| && states[i + 1].threads[t] == states[i].threads[t]
    requires Framed(states[i], states[i + 1]) && states[i + 1].capacity == states[i].capacity
    ensures Entered(states, moves, m, i + 1, t, job, h, held)
  {
    hide Kept, Admitted, Picked;
    KeptLater(states, moves, m, i, t, job, {job.key});
    PickedLater(states, m, i, h);
    AdmittedLater(states, moves, m, i, t, job, 0, 0);
  }

  lemma WorkFramed(states: seq<State>, moves: seq<Move>, c: nat, m: nat, i: nat, t: nat, a: Action)
    requires c < m <= i && i + 1 < |states| && t < |states[i].threads| && t < |states[c].threads|
    requires Work(states, moves, c, m, i, t, a)
    requires t < |states[i + 1].threads| && states[i + 1].threads[t] == states[i].threads[t]
    requires Framed(states[i], states[i + 1]) && states[i + 1].capacity == states[i].capacity
    requires i < |moves| && moves[i].tid != t
    ensures Work(states, moves, c, m, i + 1, t, a)
  {
    hide EraseWork, ClearWork, JobWork, BinWork, Framed;
    var pc := states[i].threads[t].pc;
    match a
    case Erase(key) => EraseFramed(key, states[m], states[i], states[i + 1], pc);
    case EraseUnRefEntries => ClearFramed(states[m], states[i], states[i + 1], pc);
    case Insert(_, _, _) => JobFramed(states, moves, m, i, t, JobOf(a), states[c].threads[t].held);
    case SetCapacity(_) => JobFramed(states, moves, m, i, t, JobOf(a), states[c].threads[t].held);
    case _ => BinFramed(states[m], states[i], states[i + 1], pc);
  }

  // ---------------------------------------------------------------- own steps

  lemma EraseOwn(key: int, s0: State, s: State, t: nat)
    requires Enabled(s, t, Step) && Safe(s, t, Step) && InMutex(s.threads[t].pc)
    requires EraseWork(key, s0, s, s.threads[t].pc)
    ensures var o := Advance(s, t);
            o.th.held == s.threads[t].held && (InMutex(o.th.pc) ==> EraseWork(key, s0, o.s, o.th.pc))
  {
    hide EvictStep, InsertStep;
  }

  lemma ClearOwn(s0: State, s: State, t: nat)
    requires Enabled(s, t, Step) && Safe(s, t, Step) && InMutex(s.threads[t].pc)
    requires ClearWork(s0, s, s.threads[t].pc)
    ensures var o := Advance(s, t);
            o.th.held == s.threads[t].held && (InMutex(o.th.pc) ==> ClearWork(s0, o.s, o.th.pc))
  {
    hide EvictStep, InsertStep;
    var pc, s' := s.threads[t].pc, Advance(s, t).s;
    if pc.ClearLoop? || pc.ClearBin? {
      forall h: nat | NotCached(s, h)
        ensures NotCached(s', h)
      {
      }
      if pc.ClearLoop? && pc.i < |s.handles| {
        assert NotCached(s', pc.i);
      }
      hide NotCached;
    }
  }

  lemma BinOwn(s0: State, s: State, t: nat)
    requires Enabled(s, t, Step) && Safe(s, t, Step) && InMutex(s.threads[t].pc)
    requires BinWork(s0, s, s.threads[t].pc)
    ensures InMutex(Advance(s, t).th.pc) ==> BinWork(s0, Advance(s, t).s, Advance(s, t).th.pc)
  {
    hide EvictStep, InsertStep, EraseStep;
  }

  /** A visit leaves a trace. */
  lemma NowTried(states: seq<State>, moves: seq<Move>, m: nat, i: nat, t: nat, job: Job, h: nat, second: bool)
    requires m <= i && Visits(states, moves, i, t, job, h, second)
    ensures Tried(states, moves, m, i + 1, t, job, h, second)
    ensures states[i].handles[h].flags == Flags(true, false, 0) ==> Ousted(states, moves, m, i + 1, t, job, h)
  {
    hide Visits;
  }

  lemma CircleNext(n: nat, head: nat, at: nat, h: nat)
    requires head < n && at < n && h < n
    ensures var next := if at + 1 >= n then 0 else at + 1;
            if next == head then Between(head, at, h) || h == at
            else Between(head, next, h) <==> Between(head, at, h) || h == at
    ensures !Between(head, head, h)
  {
  }

  /** The hand moves on. */
  lemma LapsOn(states: seq<State>, moves: seq<Move>, m: nat, i: nat, t: nat, job: Job, s: State, at: nat, second: bool)
    requires m < |states| && |s.handles| == |states[m].handles| && s.head < |s.handles| && at < |s.handles|
    requires Laps(states, moves, m, i, t, job, s.head, at, second, |s.handles|)
    requires Tried(states, moves, m, i, t, job, at, second)
    ensures match Onward(s, job, at, second)
            case EvictLoop(j, at', second') =>
              j == job && Laps(states, moves, m, i, t, job, s.head, at', second', |s.handles|)
            case Decide(j, ok) => j == job && !ok && GaveUp(states, moves, m, i, t, job)
            case _ => false
  {
    hide Tried, Between, OverCapacity;
    forall h: nat | h < |s.handles|
      ensures var next := if at + 1 >= |s.handles| then 0 else at + 1;
              if next == s.head then Between(s.head, at, h) || h == at
              else Between(s.head, next, h) <==> Between(s.head, at, h) || h == at
      ensures !Between(s.head, s.head, h)
    {
      CircleNext(|s.handles|, s.head, at, h);
    }
  }

  /** The state in which the mutex is taken for a job. */
  lemma JobStarts(states: seq<State>, moves: seq<Move>, i: nat, t: nat, job: Job)
    requires OwnStep(states, moves, i, t) && moves[i].action == Step && states[i].threads[t].pc == JobWait(job)
    ensures t < |states[i + 1].threads|
            && JobWork(states, moves, i + 1, i + 1, t, job, states[i].threads[t].held)
  {
    hide QuickStep, InsertStep, EraseStep, Laps, Tried, Ousted, GaveUp, InsertPoint, JobDone;
  }

  lemma StartGoesOn(states: seq<State>, moves: seq<Move>, m: nat, i: nat, t: nat, job: Job, held: multiset<nat>)
    requires OwnStep(states, moves, i, t) && moves[i].action == Step && Inv(states[i]) && m <= i
    requires JobWork(states, moves, m, i, t, job, held) && states[i].threads[t].pc.EvictStart?
    ensures t < |states[i + 1].threads| && JobWork(states, moves, m, i + 1, t, job, held)
  {
    assert HeadOk(states[i]);
    var s := states[i];
    FrameLater(states, moves, m, i, t, job, s.threads[t].pc, states[i + 1].threads[t].pc);
    hide Inv, QuickStep, InsertStep, EraseStep, Kept, Tried, InsertPoint, JobDone, JobFrame;
    KeptLater(states, moves, m, i, t, job, {});
    forall h: nat | h < |s.handles|
      ensures !Between(s.head, s.head, h)
    {
    }
  }

  /** What a step at the clock hand does. */
  lemma VisitShape(s: State, t: nat)
    requires Enabled(s, t, Step) && Safe(s, t, Step) && s.threads[t].pc.EvictLoop?
    ensures var th, s' := s.threads[t], After(s, t, Step);
            var EvictLoop(job, at, second) := th.pc;
            if !OverCapacity(s, job) then
              s' == s.(head := at, threads := s.threads[t := th.(pc := Decide(job, true))])
            else
              && at < |s.handles| == |s'.handles| && s'.handles[at].flags == Spared(s.handles[at].flags)
              && s' == s.(handles := s'.handles, threads := s'.threads)
              && s'.threads == s.threads[t := th.(pc := if s.handles[at].flags == Flags(true, false, 0)
                                                        then EvictErase(job, at, second, at)
                                                        else Onward(s, job, at, second))]
  {
    hide QuickStep, InsertStep, EraseStep, Onward;
  }

  /** A visit of the hand, seen from the next instant. */
  lemma VisitPoint(states: seq<State>, moves: seq<Move>, m: nat, i: nat, t: nat, job: Job, at: nat, second: bool)
    requires m <= i && i + 1 < |states| && HeadOk(states[i]) && at < |states[i].handles|
    requires EvictPoint(states, moves, m, i, t, job, EvictLoop(job, at, second))
    requires states[i + 1].table == states[i].table && |states[i + 1].handles| == |states[i].handles|
    requires states[i + 1].head == states[i].head && Visits(states, moves, i, t, job, at, second)
    ensures var pc := Onward(states[i], job, at, second);
            PhaseOf(pc) == OnEviction && EvictPoint(states, moves, m, i + 1, t, job, pc)
    ensures states[i].handles[at].flags == Flags(true, false, 0) ==>
              EvictPoint(states, moves, m, i + 1, t, job, EvictErase(job, at, second, at))
  {
    hide Kept, Laps, Tried, Ousted, GaveUp, Onward, Visits, Stops;
    KeptLater(states, moves, m, i, t, job, {});
    InVisit(states, moves, i, t, job, at, second);
    NowTried(states, moves, m, i, t, job, at, second);
    LapsLater(states, moves, m, i, i + 1, t, job, states[i].head, at, second, |states[i].handles|);
    LapsOn(states, moves, m, i + 1, t, job, states[i], at, second);
  }

  lemma InVisit(states: seq<State>, moves: seq<Move>, i: nat, t: nat, job: Job, at: nat, second: bool)
    requires Visits(states, moves, i, t, job, at, second)
    ensures i < |states| && at < |states[i].handles|
  {
  }

  lemma VisitGoesOn(states: seq<State>, moves: seq<Move>, m: nat, i: nat, t: nat, job: Job, held: multiset<nat>)
    requires OwnStep(states, moves, i, t) && moves[i].action == Step && Inv(states[i]) && m <= i
    requires JobWork(states, moves, m, i, t, job, held) && states[i].threads[t].pc.EvictLoop?
    ensures t < |states[i + 1].threads| && JobWork(states, moves, m, i + 1, t, job, held)
  {
    var s, pc := states[i], states[i].threads[t].pc;
    assert HeadOk(s) && pc.job == job;
    VisitShape(s, t);
    if OverCapacity(s, job) {
      assert Visits(states, moves, i, t, job, pc.at, pc.second);
      VisitPoint(states, moves, m, i, t, job, pc.at, pc.second);
      FrameLater(states, moves, m, i, t, job, pc, states[i + 1].threads[t].pc);
    } else {
      RoomPoint(states, moves, m, i, t, job, pc);
    }
    hide Inv, Safe, Advance, EvictPoint, InsertPoint, JobDone, JobFrame, Onward, Spared;
  }

  /** The hand stops. */
  lemma RoomPoint(states: seq<State>, moves: seq<Move>, m: nat, i: nat, t: nat, job: Job, pc: Pc)
    requires m <= i && i + 1 < |states| && pc.EvictLoop? && EvictPoint(states, moves, m, i, t, job, pc)
    requires JobFrame(states, moves, m, i, t, job, pc) && Stops(states, moves, i, t, job)
    requires pc == states[i].threads[t].pc
    requires states[i + 1] == states[i].(head := pc.at, threads := states[i + 1].threads)
    ensures EvictPoint(states, moves, m, i + 1, t, job, Decide(job, true))
    ensures JobFrame(states, moves, m, i + 1, t, job, Decide(job, true))
  {
    hide Kept, Laps, Tried, Ousted, GaveUp, HandOk, NeverStopped;
    KeptLater(states, moves, m, i, t, job, {});
    HandStops(states, moves, m, i, t, job);
  }

  lemma OustGoesOn(states: seq<State>, moves: seq<Move>, m: nat, i: nat, t: nat, job: Job, held: multiset<nat>)
    requires OwnStep(states, moves, i, t) && moves[i].action == Step && Inv(states[i]) && m <= i
    requires JobWork(states, moves, m, i, t, job, held) && states[i].threads[t].pc.EvictErase?
    ensures t < |states[i + 1].threads| && JobWork(states, moves, m, i + 1, t, job, held)
  {
    hide Inv, Safe, Advance, Kept, Laps, Tried, Ousted, GaveUp, InsertPoint, JobDone, JobFrame;
    var s, pc := states[i], states[i].threads[t].pc;
    OustedKey(s, t);
    FrameLater(states, moves, m, i, t, job, pc, states[i + 1].threads[t].pc);
    LapsLater(states, moves, m, i, i + 1, t, job, s.head, pc.at, pc.second, |s.handles|);
    TriedLater(states, moves, m, i, i + 1, t, job, pc.at, pc.second);
    OustedLater(states, moves, m, i, i + 1, t, job, pc.at);
    KeptWithout(states, moves, m, i, t, job, s.handles[pc.h].key);
  }

  /** The step that takes an evicted entry out of the table. */
  lemma OustedKey(s: State, t: nat)
    requires Inv(s) && Enabled(s, t, Step) && Safe(s, t, Step) && s.threads[t].pc.EvictErase?
    ensures var pc := s.threads[t].pc;
            && pc.h < |s.handles|
            && var key := s.handles[pc.h].key;
               && key in s.table && s.table[key] == pc.h
               && After(s, t, Step) == s.(table := s.table - {key},
                    threads := s.threads[t := s.threads[t].(pc := EvictBin(pc.job, pc.at, pc.second, pc.h))])
  {
    HolderFacts(s, t);
    hide Inv, QuickStep, InsertStep, EraseStep, Guarded, BinOk;
  }

  /** The table loses the key of a handle that was evicted. */
  lemma KeptWithout(states: seq<State>, moves: seq<Move>, m: nat, i: nat, t: nat, job: Job, key: int)
    requires m < |states| && i + 1 < |states| && Kept(states, moves, m, i, t, job, {})
    requires key in states[i].table && Ousted(states, moves, m, i + 1, t, job, states[i].table[key])
    requires states[i + 1].table == states[i].table - {key}
    ensures Kept(states, moves, m, i + 1, t, job, {})
  {
    hide Ousted;
    forall h: nat | Ousted(states, moves, m, i, t, job, h)
      ensures Ousted(states, moves, m, i + 1, t, job, h)
    {
      OustedLater(states, moves, m, i, i + 1, t, job, h);
    }
  }

  /** The step that recycles it. */
  lemma BinnedNow(s: State, t: nat)
    requires Enabled(s, t, Step) && Safe(s, t, Step) && s.threads[t].pc.EvictBin?
    ensures var pc := s.threads[t].pc;
            After(s, t, Step) == Recycle(s, pc.h).(threads :=
                s.threads[t := s.threads[t].(pc := Onward(s, pc.job, pc.at, pc.second))])
  {
    hide QuickStep, InsertStep, EraseStep;
  }

  lemma BinGoesOn(states: seq<State>, moves: seq<Move>, m: nat, i: nat, t: nat, job: Job, held: multiset<nat>)
    requires OwnStep(states, moves, i, t) && moves[i].action == Step && Inv(states[i]) && m <= i
    requires JobWork(states, moves, m, i, t, job, held) && states[i].threads[t].pc.EvictBin?
    ensures t < |states[i + 1].threads| && JobWork(states, moves, m, i + 1, t, job, held)
  {
    var s, pc := states[i], states[i].threads[t].pc;
    assert HeadOk(s) && LocalOk(s, pc);
    BinnedNow(s, t);
    hide Inv, Safe, Advance, Kept, Laps, Tried, Ousted, GaveUp, InsertPoint, JobDone, JobFrame, Onward;
    FrameLater(states, moves, m, i, t, job, pc, states[i + 1].threads[t].pc);
    KeptLater(states, moves, m, i, t, job, {});
    LapsLater(states, moves, m, i, i + 1, t, job, s.head, pc.at, pc.second, |s.handles|);
    TriedLater(states, moves, m, i, i + 1, t, job, pc.at, pc.second);
    LapsOn(states, moves, m, i + 1, t, job, s, pc.at, pc.second);
  }

  /** What the decision does. */
  lemma DecideShape(s: State, t: nat)
    requires Enabled(s, t, Step) && Safe(s, t, Step) && s.threads[t].pc.Decide?
    ensures var th, s' := s.threads[t], After(s, t, Step);
            var Decide(job, ok) := th.pc;
            var refused := job.Resize? || (!ok && (s.strict || !job.hold));
            && s'.table == s.table && s'.usage == s.usage && s'.capacity == s.capacity && s'.head == s.head
            && s'.threads == s.threads[t := th.(pc := s'.threads[t].pc)]
            && (if refused then s'.threads[t].pc.Unlocking?
                else s'.threads[t].pc.Filling? && s'.threads[t].pc.job == job && Picks(s, s'.threads[t].pc.h))
  {
    hide QuickStep, InsertStep, EraseStep;
  }

  lemma DecideGoesOn(states: seq<State>, moves: seq<Move>, m: nat, i: nat, t: nat, job: Job, held: multiset<nat>)
    requires OwnStep(states, moves, i, t) && moves[i].action == Step && m <= i
    requires JobWork(states, moves, m, i, t, job, held) && states[i].threads[t].pc.Decide?
    ensures t < |states[i + 1].threads| && JobWork(states, moves, m, i + 1, t, job, held)
  {
    var s, pc := states[i], states[i].threads[t].pc;
    DecideShape(s, t);
    var pc' := states[i + 1].threads[t].pc;
    FrameLater(states, moves, m, i, t, job, pc, pc');
    hide Safe, Advance, Kept, GaveUp, JobFrame, Picks;
    KeptLater(states, moves, m, i, t, job, {});
    if !pc.success {
      GaveUpLater(states, moves, m, i, i + 1, t, job);
    }
    assert StrictAt(states, m, i + 1, s.strict);
    hide StrictAt;
    if pc'.Filling? {
      assert Picked(states, m, i + 1, pc'.h);
      assert Admitted(states, moves, m, i + 1, t, job, job.charge);
    } else {
      assert NotEntered(states, moves, m, i + 1, t, job, held);
    }
  }

  /** The next control point of an insertion. */
  predicate InsertNext(pc: Pc, pc': Pc) {
    match pc
    case Filling(job, h) => pc' == Publishing(job, h)
    case Publishing(job, h) => pc' == Replacing(job, h)
    case Replacing(job, h) => pc' == Entering(job, h) || (pc'.Unsetting? && pc'.job == job && pc'.h == h)
    case Unsetting(job, h, e) => pc' == Entering(job, h) || pc' == UnsetBin(job, h, e)
    case UnsetBin(job, h, _) => pc' == Entering(job, h)
    case Entering(job, h) => pc' == Counting(job, h)
    case _ => false
  }

  /** What a step of an insertion does, before the entry is counted. */
  lemma InsertShape(s: State, t: nat)
    requires Enabled(s, t, Step) && Safe(s, t, Step)
    requires PhaseOf(s.threads[t].pc) == OnInsertion && !s.threads[t].pc.Counting?
    ensures var th, s' := s.threads[t], After(s, t, Step);
            && s'.usage <= s.usage && s'.capacity == s.capacity && s'.head == s.head
            && s'.threads == s.threads[t := th.(pc := s'.threads[t].pc)] && InsertNext(th.pc, s'.threads[t].pc)
            && (th.pc.Replacing? && th.pc.job.Insertion? ==> s'.table == s.table - {th.pc.job.key})
            && (th.pc.Entering? && th.pc.job.Insertion? ==> s'.table == s.table[th.pc.job.key := th.pc.h])
            && (!th.pc.Replacing? && !th.pc.Entering? ==> s'.table == s.table)
  {
    hide QuickStep, EvictStep, EraseStep;
  }

  lemma InsertionGoesOn(states: seq<State>, moves: seq<Move>, m: nat, i: nat, t: nat, job: Job, held: multiset<nat>)
    requires OwnStep(states, moves, i, t) && moves[i].action == Step && m <= i
    requires JobWork(states, moves, m, i, t, job, held)
    requires PhaseOf(states[i].threads[t].pc) == OnInsertion && !states[i].threads[t].pc.Counting?
    ensures t < |states[i + 1].threads| && JobWork(states, moves, m, i + 1, t, job, held)
  {
    var s, pc, pc' := states[i], states[i].threads[t].pc, states[i + 1].threads[t].pc;
    InsertShape(s, t);
    FrameLater(states, moves, m, i, t, job, pc, pc');
    hide Safe, Advance, Inserting, EvictPoint, JobDone, JobFrame;
    assert {} + {job.key} == {job.key} && {job.key} + {job.key} == {job.key};
    if pc.Replacing? || pc.Entering? {
      InsertingBut(states, moves, m, i, t, job, pc.h, Skipped(pc, job));
    } else {
      InsertingLater(states, moves, m, i, t, job, pc.h, Skipped(pc, job));
    }
  }

  lemma CountingGoesOn(states: seq<State>, moves: seq<Move>, m: nat, i: nat, t: nat, job: Job, held: multiset<nat>)
    requires OwnStep(states, moves, i, t) && moves[i].action == Step && m <= i && Inv(states[i])
    requires JobWork(states, moves, m, i, t, job, held) && states[i].threads[t].pc.Counting?
    ensures t < |states[i + 1].threads| && JobWork(states, moves, m, i + 1, t, job, held)
  {
    var s, pc := states[i], states[i].threads[t].pc;
    assert LocalOk(s, pc);
    FrameLater(states, moves, m, i, t, job, pc, states[i + 1].threads[t].pc);
    hide Inv, QuickStep, EvictStep, EraseStep, Kept, Admitted, Picked, JobFrame, EvictPoint, NotEntered;
    KeptLater(states, moves, m, i, t, job, {job.key});
    PickedLater(states, m, i, pc.h);
    AdmittedLater(states, moves, m, i, t, job, job.charge, 0);
    assert Entered(states, moves, m, i + 1, t, job, pc.h, held);
  }

  /** A step of the holder of the mutex with a job, unless it gives the mutex back. */
  lemma JobGoesOn(states: seq<State>, moves: seq<Move>, m: nat, i: nat, t: nat, job: Job, held: multiset<nat>)
    requires OwnStep(states, moves, i, t) && moves[i].action == Step && m <= i && Inv(states[i])
    requires JobWork(states, moves, m, i, t, job, held) && !states[i].threads[t].pc.Unlocking?
    ensures t < |states[i + 1].threads| && JobWork(states, moves, m, i + 1, t, job, held)
  {
    var pc := states[i].threads[t].pc;
    assert pc.EvictStart? || pc.EvictLoop? || pc.EvictErase? || pc.EvictBin? || pc.Decide?
           || PhaseOf(pc) == OnInsertion;
    hide OwnStep, Inv, JobWork;
    if pc.EvictStart? {
      StartGoesOn(states, moves, m, i, t, job, held);
    } else if pc.EvictLoop? {
      VisitGoesOn(states, moves, m, i, t, job, held);
    } else if pc.EvictErase? {
      OustGoesOn(states, moves, m, i, t, job, held);
    } else if pc.EvictBin? {
      BinGoesOn(states, moves, m, i, t, job, held);
    } else if pc.Decide? {
      DecideGoesOn(states, moves, m, i, t, job, held);
    } else if pc.Counting? {
      CountingGoesOn(states, moves, m, i, t, job, held);
    } else {
      InsertionGoesOn(states, moves, m, i, t, job, held);
    }
  }

  /** The holder of the mutex makes a step and keeps the mutex. */
  lemma WorkGoesOn(states: seq<State>, moves: seq<Move>, c: nat, m: nat, i: nat, t: nat, a: Action)
    requires OwnStep(states, moves, i, t) && moves[i].action == Step && Inv(states[i])
    requires InMutex(states[i].threads[t].pc)
    requires c < m <= i && t < |states[c].threads| && Work(states, moves, c, m, i, t, a)
    requires t < |states[i + 1].threads| && InMutex(states[i + 1].threads[t].pc)
    ensures Work(states, moves, c, m, i + 1, t, a)
  {
    hide Inv, Advance, EraseWork, ClearWork, JobWork, BinWork;
    var s, pc, o := states[i], states[i].threads[t].pc, Advance(states[i], t);
    match a
    case Erase(key) =>
      EraseOwn(key, states[m], s, t);
      EraseThreads(key, states[m], o.s, states[i + 1], o.th.pc);
    case EraseUnRefEntries =>
      ClearOwn(states[m], s, t);
      ClearThreads(states[m], o.s, states[i + 1], o.th.pc);
    case Insert(_, _, _) =>
      NotUnlocking(s, t, states[i + 1]);
      JobGoesOn(states, moves, m, i, t, JobOf(a), states[c].threads[t].held);
    case SetCapacity(_) =>
      NotUnlocking(s, t, states[i + 1]);
      JobGoesOn(states, moves, m, i, t, JobOf(a), states[c].threads[t].held);
    case _ =>
      BinOwn(states[m], s, t);
      BinThreads(states[m], o.s, states[i + 1], o.th.pc);
  }

  lemma EraseThreads(key: int, s0: State, s: State, s': State, pc: Pc)
    requires EraseWork(key, s0, s, pc) && s' == s.(threads := s'.threads)
    ensures EraseWork(key, s0, s', pc)
  {
  }

  lemma ClearThreads(s0: State, s: State, s': State, pc: Pc)
    requires ClearWork(s0, s, pc) && s' == s.(threads := s'.threads)
    ensures ClearWork(s0, s', pc)
  {
    assert forall h: nat :: NotCached(s, h) ==> NotCached(s', h);
    hide NotCached;
  }

  lemma BinThreads(s0: State, s: State, s': State, pc: Pc)
    requires BinWork(s0, s, pc) && s' == s.(threads := s'.threads)
    ensures BinWork(s0, s', pc)
  {
  }

  /** Whoever unlocks gives the mutex back. */
  lemma NotUnlocking(s: State, t: nat, s': State)
    requires Enabled(s, t, Step) && Safe(s, t, Step) && s' == After(s, t, Step) && InMutex(s'.threads[t].pc)
    ensures !s.threads[t].pc.Unlocking?
  {
    hide EvictStep, InsertStep, EraseStep;
  }

  /** The mutex is taken. */
  lemma WorkStarts(states: seq<State>, moves: seq<Move>, c: nat, i: nat, t: nat, a: Action)
    requires OwnStep(states, moves, i, t) && moves[i].action == Step && Waits(states[i].threads[t].pc)
    requires c < i && t < |states[c].threads|
    requires if NeedsMutex(a) then Awaits(a, states[i].threads[t].pc)
                                   && states[i].threads[t].held == states[c].threads[t].held
             else states[i].threads[t].pc.BinWait?
    ensures t < |states[i + 1].threads| && Work(states, moves, c, i + 1, i + 1, t, a)
  {
    var pc := states[i].threads[t].pc;
    if pc.JobWait? {
      JobStarts(states, moves, i, t, pc.job);
      hide JobWork, OwnStep;
    } else {
      hide EvictStep, InsertStep, JobWork;
    }
  }

  lemma QuickStays(s: State, t: nat, a: Action)
    requires Enabled(s, t, a) && Safe(s, t, a) && Quick(s.threads[t].pc) && !s.threads[t].pc.BinWait?
    ensures var pc := Result(s, t, a).th.pc; pc.Idle? || (Quick(pc) && !InMutex(pc))
  {
    hide EvictStep, InsertStep, EraseStep;
  }

  /** A call that begins waits for the mutex if it needs it. */
  lemma CallAwaits(s: State, t: nat, a: Action)
    requires Enabled(s, t, a) && Safe(s, t, a) && !a.Step? && !a.Spurious?
    ensures var th := Call(s, t, a).th;
            && !InMutex(th.pc)
            && (if NeedsMutex(a) then Awaits(a, th.pc) && th.held == s.threads[t].held else th.pc.Idle? || Quick(th.pc))
  {
  }

  lemma OwnMutexStep(states: seq<State>, moves: seq<Move>, i: nat, t: nat)
    requires OwnStep(states, moves, i, t) && Inv(states[i]) && Inv(states[i + 1]) && !IsCall(moves[i], t)
    requires MutexCallOk(states, moves, i, t) && t < |states[i + 1].threads|
    ensures MutexCallOk(states, moves, i + 1, t)
  {
    var s, a, c := states[i], moves[i].action, CallAt(moves, i, t);
    var pc, pc' := s.threads[t].pc, states[i + 1].threads[t].pc;
    assert LockOk(s, t) && LockOk(states[i + 1], t);
    NotIdle(s, t, a);
    assert a.Step? || pc.RefCas?;
    LockAfter(s, t, a);
    hide Inv, Safe, Work, Advance, Call;
    if InMutex(pc) {
      if InMutex(pc') {
        WorkGoesOn(states, moves, c, LockedAt(states, i), i, t, moves[c].action);
      } else {
        LeavesIdle(s, t);
      }
    } else if Waits(pc) {
      WorkStarts(states, moves, c, i, t, moves[c].action);
      TakesMutex(s, t);
    } else {
      QuickStays(s, t, a);
      hide OwnStep;
    }
  }

  lemma LeavesIdle(s: State, t: nat)
    requires Enabled(s, t, Step) && Safe(s, t, Step) && InMutex(s.threads[t].pc) && !InMutex(Advance(s, t).th.pc)
    ensures Advance(s, t).th.pc.Idle? && s.threads[t].pc.Unlocking?
  {
  }

  lemma TakesMutex(s: State, t: nat)
    requires Enabled(s, t, Step) && Safe(s, t, Step) && Waits(s.threads[t].pc)
    ensures s.lock == Free && Advance(s, t).s.lock == Locked(t) && InMutex(Advance(s, t).th.pc)
  {
  }

  lemma StepMutexCall(states: seq<State>, moves: seq<Move>, i: nat, t: nat)
    requires IsRun(states, moves) && i < |moves| && MutexCallOk(states, moves, i, t)
    ensures MutexCallOk(states, moves, i + 1, t)
  {
    RunOwnStep(states, moves, i);
    var c := CallAt(moves, i, t);
    hide IsRun, Inv, Work;
    if IsCall(moves[i], t) {
      CallAwaits(states[i], t, moves[i].action);
    } else if moves[i].tid == t {
      OwnMutexStep(states, moves, i, t);
    } else if InMutex(states[i].threads[t].pc) {
      OutsiderStep(states, moves, i, t);
      WorkFramed(states, moves, c, LockedAt(states, i), i, t, moves[c].action);
    }
  }

  lemma {:induction false} MutexCallsHold(states: seq<State>, moves: seq<Move>, i: nat, t: nat)
    requires IsRun(states, moves) && i < |states| && t < |states[0].threads|
    ensures MutexCallOk(states, moves, i, t)
  {
    if i == 0 {
      assert states[0].threads[t].pc.Idle?;
    } else {
      hide MutexCallOk, Next, Init;
      MutexCallsHold(states, moves, i - 1, t);
      StepMutexCall(states, moves, i - 1, t);
    }
  }

  // ---------------------------------------------------------------- main results

  /** With step `i` thread `t` gives the mutex back, at the end of its call `a`, and nothing else changes. */
  ghost predicate Ends(states: seq<State>, moves: seq<Move>, i: nat, t: nat, a: Action) {
    && i < |moves| && |states| == |moves| + 1 && moves[i] == Move(t, Step) && Calls(moves, i, t, a)
    && t < |states[i].threads| && states[i].threads[t].pc.Unlocking?
    && states[i + 1] == states[i].(lock := Free, threads := states[i].threads[t := states[i].threads[t].(pc := Idle)])
  }

  lemma UnlockingEnds(states: seq<State>, moves: seq<Move>, i: nat, t: nat, a: Action)
    requires IsRun(states, moves) && i < |moves| && moves[i] == Move(t, Step) && Calls(moves, i, t, a)
    requires t < |states[i].threads| && states[i].threads[t].pc.Unlocking?
    ensures Ends(states, moves, i, t, a) && Inv(states[i]) && Inv(states[i + 1]) && t < |states[0].threads|
  {
    RunOwnStep(states, moves, i);
    SameThreads(states, moves, i);
    hide IsRun, Inv, EvictStep, InsertStep, EraseStep;
  }

  /** A call that needs the mutex and is over ended by giving the mutex back: the results below are about
      every such call. */
  lemma {:induction false} CallEnds(states: seq<State>, moves: seq<Move>, i: nat, t: nat, a: Action) returns (e: nat)
    requires IsRun(states, moves) && i < |states| && t < |states[0].threads| && Calls(moves, i, t, a) && NeedsMutex(a)
    requires t < |states[i].threads| && states[i].threads[t].pc.Idle?
    ensures e < i && CallAt(moves, e, t) == CallAt(moves, i, t) && Ends(states, moves, e, t, a)
  {
    e := i - 1;
    RunOwnStep(states, moves, e);
    MutexCallsHold(states, moves, e, t);
    hide IsRun, Inv, Ends, Work;
    if IsCall(moves[e], t) {
      CallAwaits(states[e], t, a);
    } else if moves[e].tid == t {
      OwnEnd(states, moves, e, t);
      UnlockingEnds(states, moves, e, t, a);
    } else {
      e := CallEnds(states, moves, e, t, a);
    }
  }

  /** A call that needs the mutex becomes idle only by giving it back. */
  lemma OwnEnd(states: seq<State>, moves: seq<Move>, i: nat, t: nat)
    requires OwnStep(states, moves, i, t) && Inv(states[i]) && !IsCall(moves[i], t) && MutexCallOk(states, moves, i, t)
    requires NeedsMutex(moves[CallAt(moves, i + 1, t)].action) && states[i + 1].threads[t].pc.Idle?
    ensures moves[i].action == Step && states[i].threads[t].pc.Unlocking?
  {
    NotIdle(states[i], t, moves[i].action);
    assert LockOk(states[i], t);
    hide Inv, Work, Safe, Advance, Call;
    StepsOnly(states[i], t, moves[i].action);
    if InMutex(states[i].threads[t].pc) {
      LeavesIdle(states[i], t);
    } else {
      TakesMutex(states[i], t);
    }
  }

  lemma StepsOnly(s: State, t: nat, a: Action)
    requires Enabled(s, t, a) && !s.threads[t].pc.RefCas? && !s.threads[t].pc.Idle?
    ensures a == Step
  {
  }

  /** A handle that has left the cache is in the bin, or still referenced, or somebody who dropped the last
      reference is waiting to put it there. */
  predicate OnItsWay(s: State, e: nat) {
    e in s.bin || RefsOf(s, e) > 0 || exists u: nat :: u < |s.threads| && s.threads[u].pc == BinWait(e)
  }

  lemma {:induction false} SomeKeeper(threads: seq<Thread>, h: nat) returns (u: nat)
    requires AllKeep(threads, h) > 0
    ensures u < |threads| && Keeps(threads[u], h) > 0
  {
    hide Keeps;
    var n := |threads| - 1;
    if Keeps(threads[n], h) > 0 {
      u := n;
    } else {
      u := SomeKeeper(threads[..n], h);
    }
  }

  lemma LeavesCache(s: State, e: nat)
    requires Inv(s) && s.lock == Free && NotCached(s, e)
    ensures OnItsWay(s, e)
  {
    assert BinOk(s, e) && RefsOk(s, e);
    hide AllHold, AllKeep;
    if RefsOf(s, e) == 0 && e !in s.bin {
      var u := SomeKeeper(s.threads, e);
      assert LockOk(s, u);
      assert s.threads[u].pc == BinWait(e);
    }
  }

  /** Main result about erasing: the key is out of the table, its handle is not cached any more and on its way
      to the bin, and every other handle and key is as when the mutex was taken. */
  lemma EraseOutcome(states: seq<State>, moves: seq<Move>, i: nat, t: nat, key: int)
    requires IsRun(states, moves) && i < |moves| && moves[i] == Move(t, Step) && Calls(moves, i, t, Erase(key))
    requires t < |states[i].threads| && states[i].threads[t].pc.Unlocking?
    ensures Ends(states, moves, i, t, Erase(key))
    ensures var m, c, s := LockedAt(states, i), CallAt(moves, i, t), states[i + 1];
            && c < m && t < |states[c].threads| && s.threads[t].held == states[c].threads[t].held
            && s.table == states[m].table - {key}
            && OthersSame(states[m], s, if key in states[m].table then states[m].table[key] else -1)
            && (key in states[m].table ==> NotCached(s, states[m].table[key]) && OnItsWay(s, states[m].table[key]))
  {
    UnlockingEnds(states, moves, i, t, Erase(key));
    MutexCallsHold(states, moves, i, t);
    hide IsRun, Inv, OnItsWay;
    var m := LockedAt(states, i);
    if key in states[m].table {
      LeavesCache(states[i + 1], states[m].table[key]);
    }
  }

  /** Main result about erasing everything: the table is empty, no handle is cached, and all are on their way
      to the bin. */
  lemma ClearOutcome(states: seq<State>, moves: seq<Move>, i: nat, t: nat)
    requires IsRun(states, moves) && i < |moves| && moves[i] == Move(t, Step) && Calls(moves, i, t, EraseUnRefEntries)
    requires t < |states[i].threads| && states[i].threads[t].pc.Unlocking?
    ensures Ends(states, moves, i, t, EraseUnRefEntries)
    ensures var c, s := CallAt(moves, i, t), states[i + 1];
            && t < |states[c].threads| && s.threads[t].held == states[c].threads[t].held && s.table == map[]
            && |s.handles| == |states[LockedAt(states, i)].handles|
            && forall h: nat :: h < |s.handles| ==> NotCached(s, h) && OnItsWay(s, h)
  {
    UnlockingEnds(states, moves, i, t, EraseUnRefEntries);
    MutexCallsHold(states, moves, i, t);
    var s := states[i + 1];
    assert forall h: nat :: NotCached(states[i], h) ==> NotCached(s, h);
    hide IsRun, Inv, OnItsWay, NotCached;
    forall h: nat | h < |s.handles|
      ensures NotCached(s, h) && OnItsWay(s, h)
    {
      assert NotCached(states[i], h);
      LeavesCache(s, h);
    }
  }

  /** Main result about inserting: the key leads to a handle from the bin, or a new one, with the key and the
      charge, referenced once more if somebody is to hold it; or nothing was inserted, which happens only
      if eviction gave up after two visits to every handle and the cache is strict or nobody would hold
      the entry. What else is gone from the table was evicted: cached, unreferenced and unused when the
      hand came by, at a time when there was not enough room. An entry for which eviction gave up
      gets in only if somebody holds it and the cache is not strict; any other leaves the usage
      within the capacity. */
  lemma InsertOutcome(states: seq<State>, moves: seq<Move>, i: nat, t: nat, key: int, charge: nat, hold: bool)
    requires IsRun(states, moves) && i < |moves| && moves[i] == Move(t, Step)
    requires Calls(moves, i, t, Insert(key, charge, hold))
    requires t < |states[i].threads| && states[i].threads[t].pc.Unlocking?
    ensures Ends(states, moves, i, t, Insert(key, charge, hold))
    ensures var m, c, job := LockedAt(states, i), CallAt(moves, i, t), Insertion(key, charge, hold);
            && c < m && t < |states[c].threads| && states[i].capacity == states[m].capacity
            && HandOk(states, moves, m, i, t, job)
            && (|| NotEntered(states, moves, m, i, t, job, states[c].threads[t].held)
                || exists h :: Entered(states, moves, m, i, t, job, h, states[c].threads[t].held))
  {
    UnlockingEnds(states, moves, i, t, Insert(key, charge, hold));
    MutexCallsHold(states, moves, i, t);
    hide IsRun, Inv, NotEntered, Entered, HandOk;
  }

  /** Main result about the capacity: it is the new one, and the usage is within it unless every handle was
      visited twice; nothing is gone from the table but what was evicted. */
  lemma CapacityOutcome(states: seq<State>, moves: seq<Move>, i: nat, t: nat, capacity: nat)
    requires IsRun(states, moves) && i < |moves| && moves[i] == Move(t, Step)
    requires Calls(moves, i, t, SetCapacity(capacity))
    requires t < |states[i].threads| && states[i].threads[t].pc.Unlocking?
    ensures Ends(states, moves, i, t, SetCapacity(capacity))
    ensures var m, c, job := LockedAt(states, i), CallAt(moves, i, t), Resize(capacity);
            && c < m && t < |states[c].threads| && states[i].capacity == capacity
            && HandOk(states, moves, m, i, t, job)
            && Kept(states, moves, m, i, t, job, {}) && states[i].threads[t].held == states[c].threads[t].held
            && (states[i].usage <= capacity || GaveUp(states, moves, m, i, t, job))
  {
    UnlockingEnds(states, moves, i, t, SetCapacity(capacity));
    MutexCallsHold(states, moves, i, t);
    hide IsRun, Inv, Kept, GaveUp, HandOk;
  }

  /** The handle gets its in-cache bit between the two states. */
  predicate Arrives(s: State, s': State, h: nat) {
    && h < |s'.handles| && s'.handles[h].flags.inCache
    && (h < |s.handles| ==> !s.handles[h].flags.inCache)
  }

  lemma NoneArrives(s: State, t: nat, a: Action, h: nat)
    requires Enabled(s, t, a) && Safe(s, t, a) && (a.Step? ==> PhaseOf(s.threads[t].pc) != OnInsertion)
    ensures !Arrives(s, After(s, t, a), h)
  {
  }

  lemma PublishedArrives(s: State, t: nat, h: nat)
    requires Enabled(s, t, Step) && Safe(s, t, Step) && LocalOk(s, s.threads[t].pc)
    requires PhaseOf(s.threads[t].pc) == OnInsertion && Arrives(s, After(s, t, Step), h)
    ensures PublishedAs(s.threads[t].pc, h, After(s, t, Step).handles[h])
  {
    hide QuickStep, EvictStep, EraseStep;
  }

  /** Handle `h` is published for a job, as it should be. */
  predicate PublishedAs(pc: Pc, h: nat, e: Handle) {
    && pc.Publishing? && pc.h == h && pc.job.Insertion? && e.key == pc.job.key && e.charge == pc.job.charge
    && e.flags == Flags(true, false, Bit(pc.job.hold))
  }

  /** A handle gets its in-cache bit only when it is published. */
  lemma OnlyPublishing(s: State, t: nat, a: Action, h: nat)
    requires Enabled(s, t, a) && Safe(s, t, a) && LocalOk(s, s.threads[t].pc) && Arrives(s, After(s, t, a), h)
    ensures a == Step && PublishedAs(s.threads[t].pc, h, After(s, t, a).handles[h])
  {
    hide Safe, After, LocalOk, PublishedAs;
    if !(a.Step? && PhaseOf(s.threads[t].pc) == OnInsertion) {
      NoneArrives(s, t, a, h);
    } else {
      PublishedArrives(s, t, h);
    }
  }

  /** An entry comes into the cache only for an insertion that asked for it, with its key and charge, not marked
      as used, and with a reference exactly if the caller wants to hold it. */
  lemma EntersUnused(states: seq<State>, moves: seq<Move>, i: nat, h: nat)
    requires IsRun(states, moves) && i < |moves|
    requires h < |states[i + 1].handles| && states[i + 1].handles[h].flags.inCache
    requires h < |states[i].handles| ==> !states[i].handles[h].flags.inCache
    ensures var e := states[i + 1].handles[h];
            exists hold :: Calls(moves, i, moves[i].tid, Insert(e.key, e.charge, hold))
                           && e.flags == Flags(true, false, Bit(hold))
  {
    var t := moves[i].tid;
    RunOwnStep(states, moves, i);
    SameThreads(states, moves, i);
    assert LocalOk(states[i], states[i].threads[t].pc);
    OnlyPublishing(states[i], t, moves[i].action, h);
    MutexCallsHold(states, moves, i, t);
    var job := states[i].threads[t].pc.job;
    assert Calls(moves, i, t, Insert(job.key, job.charge, job.hold)) by {
      hide IsRun, Inv, OwnStep, Inserting, JobFrame;
    }
    hide IsRun, Inv, OwnStep, Inserting, JobFrame, Calls;
  }
}
