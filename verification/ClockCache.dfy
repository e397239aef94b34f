/**
  The clock cache shard as a machine of atomic steps. Reference counts are taken and dropped
  without the mutex; eviction, insertion and erasure hold it but race with those on the
  atomic flags of each handle. Handles are reused: a handle goes to the recycle bin when its
  entry is gone and comes back from there for another entry.
*/
module ClockCache {
  import opened Basics

  /** The flags of a handle, packed into one atomic integer by the source. */
  datatype Flags = Flags(inCache: bool, used: bool, refs: int)

  const UNUSED: Flags := Flags(false, false, 0)

  /** `lives` counts the entries a handle has stood for, `recycled` how often it was recycled. */
  datatype Handle = Handle(flags: Flags, key: int, charge: nat, lives: nat, recycled: nat)

  /** A job that starts by evicting: an insertion, or a change of the capacity. */
  datatype Job = Insertion(key: int, charge: nat, hold: bool) | Resize(capacity: nat)

  function Need(job: Job): nat { if job.Insertion? then job.charge else 0 }

  /** Why a reference is taken: for a lookup of a key, or for a handle already referenced. */
  datatype Reason = ForKey(key: int) | ForHolder

  datatype Pc =
    | Idle
      // without the mutex
    | RefLoad(h: nat, reason: Reason)
    | RefCas(h: nat, seen: Flags, reason: Reason)
    | Checking(h: nat, key: int)
    | Marking(h: nat)
    | Dropping(h: nat)
    | BinWait(h: nat)
      // with the mutex: recycle the handle whose last reference was dropped, or one just erased
    | Binning(h: nat)
    | Unlocking
      // evicting for a job
    | JobWait(job: Job)
    | EvictStart(job: Job)
    | EvictLoop(job: Job, at: nat, second: bool)
    | EvictErase(job: Job, at: nat, second: bool, h: nat)
    | EvictBin(job: Job, at: nat, second: bool, h: nat)
    | Decide(job: Job, success: bool)
      // inserting
    | Filling(job: Job, h: nat)
    | Publishing(job: Job, h: nat)
    | Replacing(job: Job, h: nat)
    | Unsetting(job: Job, h: nat, e: nat)
    | UnsetBin(job: Job, h: nat, e: nat)
    | Entering(job: Job, h: nat)
    | Counting(job: Job, h: nat)
      // erasing one entry, or all
    | EraseWait(key: int)
    | Erasing(key: int)
    | EraseUnset(e: nat)
    | ClearWait
    | Clearing
    | ClearLoop(i: nat)
    | ClearBin(i: nat)

  /** The kinds of work: on references, evicting, inserting, erasing. */
  datatype Phase = OnRefs | OnEviction | OnInsertion | OnErasure

  function PhaseOf(pc: Pc): Phase {
    match pc
    case JobWait(_) => OnEviction
    case EvictStart(_) => OnEviction
    case EvictLoop(_, _, _) => OnEviction
    case EvictErase(_, _, _, _) => OnEviction
    case EvictBin(_, _, _, _) => OnEviction
    case Decide(_, _) => OnEviction
    case Filling(_, _) => OnInsertion
    case Publishing(_, _) => OnInsertion
    case Replacing(_, _) => OnInsertion
    case Unsetting(_, _, _) => OnInsertion
    case UnsetBin(_, _, _) => OnInsertion
    case Entering(_, _) => OnInsertion
    case Counting(_, _) => OnInsertion
    case EraseWait(_) => OnErasure
    case Erasing(_) => OnErasure
    case EraseUnset(_) => OnErasure
    case ClearWait => OnErasure
    case Clearing => OnErasure
    case ClearLoop(_) => OnErasure
    case ClearBin(_) => OnErasure
    case _ => OnRefs
  }

  /** `held` are the references the thread's callers have, with multiplicity. */
  datatype Thread = Thread(held: multiset<nat>, pc: Pc)

  datatype Lock = Free | Locked(tid: nat)

  datatype State = State(handles: seq<Handle>, table: map<int, nat>, bin: seq<nat>, usage: int, capacity: nat,
                         strict: bool,
                         head: nat, lock: Lock, threads: seq<Thread>)

  datatype Action = Lookup(key: int) | Ref(h: nat) | Release(h: nat) | Insert(key: int, charge: nat, hold: bool)
                  | SetCapacity(capacity: nat) | SetStrict(strict: bool) | Erase(key: int) | EraseUnRefEntries
                  | Spurious | Step

  // ---------------------------------------------------------------- steps

  /** What a step of a thread leaves behind: the shared state, and the thread itself. */
  datatype Outcome = Outcome(s: State, th: Thread)

  function To(s: State, th: Thread, pc: Pc): Outcome {
    Outcome(s, th.(pc := pc))
  }

  function SetFlags(s: State, h: nat, flags: Flags): State
    requires h < |s.handles|
  {
    s.(handles := s.handles[h := s.handles[h].(flags := flags)])
  }

  function FlagsOf(s: State, h: nat): Flags
    requires h < |s.handles|
  {
    s.handles[h].flags
  }

  /** Into the bin, and out of the usage. */
  function Recycle(s: State, h: nat): State
    requires h < |s.handles|
  {
    s.(handles := s.handles[h := s.handles[h].(recycled := s.handles[h].recycled + 1)], bin := s.bin + [h],
       usage := s.usage - s.handles[h].charge)
  }

  predicate Recyclable(s: State, h: nat) {
    h < |s.handles| && !FlagsOf(s, h).inCache && FlagsOf(s, h).refs == 0
  }

  /** Clears the in-cache bit; a handle that was in the cache and is not referenced is to be recycled. */
  function Unset(s: State, th: Thread, h: nat, last: Pc, other: Pc): Outcome
    requires h < |s.handles|
  {
    var f := FlagsOf(s, h);
    To(SetFlags(s, h, f.(inCache := false)), th, if f.inCache && f.refs == 0 then last else other)
  }

  predicate Waits(pc: Pc) {
    pc.BinWait? || pc.JobWait? || pc.EraseWait? || pc.ClearWait?
  }

  predicate Enabled(s: State, t: nat, a: Action) {
    t < |s.threads| &&
    var th := s.threads[t];
    match a
    case Lookup(_) => th.pc.Idle?
    case Ref(h) => th.pc.Idle? && h in th.held
    case Release(h) => th.pc.Idle? && h in th.held
    case Insert(_, _, _) => th.pc.Idle?
    case SetCapacity(_) => th.pc.Idle?
    case SetStrict(_) => th.pc.Idle?
    case Erase(_) => th.pc.Idle?
    case EraseUnRefEntries => th.pc.Idle?
    case Spurious => th.pc.RefCas?
    case Step => !th.pc.Idle? && (Waits(th.pc) ==> s.lock == Free)
  }

  /** No assertion of the source fails, and a key is read only from a handle that is referenced. */
  predicate Safe(s: State, t: nat, a: Action)
    requires Enabled(s, t, a)
  {
    var pc := s.threads[t].pc;
    match a
    case Spurious => pc.h < |s.handles|
    case Step =>
      (match PhaseOf(pc)
       case OnRefs => SafeQuick(s, pc)
       case OnEviction => SafeEvicting(s, pc)
       case OnInsertion => SafeInserting(s, pc)
       case OnErasure => SafeErasing(s, pc))
    case _ => true
  }

  predicate SafeQuick(s: State, pc: Pc) {
    match pc
    case RefLoad(h, _) => h < |s.handles|
    case RefCas(h, _, _) => h < |s.handles|
    case Checking(h, _) => h < |s.handles| && FlagsOf(s, h).refs > 0
    case Marking(h) => h < |s.handles| && FlagsOf(s, h).refs > 0
    case Dropping(h) => h < |s.handles| && FlagsOf(s, h).refs > 0
    case Binning(h) => Recyclable(s, h)
    case _ => true
  }

  predicate SafeEvicting(s: State, pc: Pc) {
    match pc
    case EvictLoop(job, at, _) => s.usage + Need(job) > s.capacity ==> at < |s.handles|
    case EvictErase(_, _, _, h) => h < |s.handles| && s.handles[h].key in s.table
    case EvictBin(_, _, _, h) => Recyclable(s, h)
    case _ => true
  }

  predicate SafeInserting(s: State, pc: Pc) {
    match pc
    case Filling(job, h) => job.Insertion? && h < |s.handles|
    case Publishing(job, h) => job.Insertion? && h < |s.handles|
    case Replacing(job, _) => job.Insertion?
    case Unsetting(_, _, e) => e < |s.handles|
    case UnsetBin(_, _, e) => Recyclable(s, e)
    case Entering(job, _) => job.Insertion?
    case Counting(job, _) => job.Insertion?
    case _ => true
  }

  predicate SafeErasing(s: State, pc: Pc) {
    match pc
    case EraseUnset(e) => e < |s.handles|
    case ClearBin(i) => Recyclable(s, i)
    case _ => true
  }

  function After(s: State, t: nat, a: Action): State
    requires Enabled(s, t, a) && Safe(s, t, a)
  {
    var o := if a.Step? then Advance(s, t) else Call(s, t, a);
    o.s.(threads := s.threads[t := o.th])
  }

  /** The start of an operation. */
  function Call(s: State, t: nat, a: Action): Outcome
    requires Enabled(s, t, a) && Safe(s, t, a) && !a.Step?
  {
    var th := s.threads[t];
    match a
    case Lookup(key) => if key in s.table then To(s, th, RefLoad(s.table[key], ForKey(key))) else Outcome(s, th)
    case Ref(h) => To(s, th, RefLoad(h, ForHolder))
    case Release(h) => Outcome(s, Thread(th.held - multiset{h}, Marking(h)))
    case Insert(key, charge, hold) => To(s, th, JobWait(Insertion(key, charge, hold)))
    case SetCapacity(capacity) => To(s, th, JobWait(Resize(capacity)))
    case SetStrict(strict) => Outcome(s.(strict := strict), th)
    case Erase(key) => To(s, th, EraseWait(key))
    case EraseUnRefEntries => To(s, th, ClearWait)
    case Spurious => To(s, th, AfterLoad(th.pc.h, FlagsOf(s, th.pc.h), th.pc.reason))
  }

  function Advance(s: State, t: nat): Outcome
    requires Enabled(s, t, Step) && Safe(s, t, Step)
  {
    var th := s.threads[t];
    match PhaseOf(th.pc)
    case OnRefs => QuickStep(s, t, th)
    case OnEviction => EvictStep(s, t, th)
    case OnInsertion => InsertStep(s, th)
    case OnErasure => EraseStep(s, t, th)
  }

  /** A value of the flags without the in-cache bit ends the attempt to take a reference. */
  function AfterLoad(h: nat, seen: Flags, reason: Reason): Pc {
    if seen.inCache then RefCas(h, seen, reason) else Idle
  }

  function QuickStep(s: State, t: nat, th: Thread): Outcome
    requires PhaseOf(th.pc) == OnRefs && SafeQuick(s, th.pc)
  {
    match th.pc
    case RefLoad(h, reason) => To(s, th, AfterLoad(h, FlagsOf(s, h), reason))
    case RefCas(h, seen, reason) =>
      if FlagsOf(s, h) != seen then To(s, th, AfterLoad(h, FlagsOf(s, h), reason))
      else
        var s1 := SetFlags(s, h, seen.(refs := seen.refs + 1));
        (match reason
         case ForKey(key) => To(s1, th, Checking(h, key))
         case ForHolder => Outcome(s1, Thread(th.held + multiset{h}, Idle)))
    case Checking(h, key) =>
      if s.handles[h].key != key then To(s, th, Dropping(h))
      else Outcome(s, Thread(th.held + multiset{h}, Idle))
    case Marking(h) => To(SetFlags(s, h, FlagsOf(s, h).(used := true)), th, Dropping(h))
    case Dropping(h) =>
      var f := FlagsOf(s, h);
      To(SetFlags(s, h, f.(refs := f.refs - 1)), th, if f.refs == 1 && !f.inCache then BinWait(h) else Idle)
    case BinWait(h) => To(s.(lock := Locked(t)), th, Binning(h))
    case Binning(h) => To(Recycle(s, h), th, Unlocking)
    case Unlocking => To(s.(lock := Free), th, Idle)
    case _ => Outcome(s, th)
  }

  function EvictStep(s: State, t: nat, th: Thread): Outcome
    requires PhaseOf(th.pc) == OnEviction && SafeEvicting(s, th.pc)
  {
    match th.pc
    case JobWait(job) =>
      To(s.(lock := Locked(t), capacity := if job.Resize? then job.capacity else s.capacity), th, EvictStart(job))
    case EvictStart(job) =>
      if s.usage == 0 then To(s, th, Decide(job, Need(job) <= s.capacity)) else To(s, th, EvictLoop(job, s.head, false))
    case EvictLoop(job, at, second) =>
      if s.usage + Need(job) <= s.capacity then To(s.(head := at), th, Decide(job, true))
      else if FlagsOf(s, at) == Flags(true, false, 0)
      then To(SetFlags(s, at, UNUSED), th, EvictErase(job, at, second, at))
      else To(SetFlags(s, at, FlagsOf(s, at).(used := false)), th, Onward(s, job, at, second))
    case EvictErase(job, at, second, h) =>
      To(s.(table := s.table - {s.handles[h].key}), th, EvictBin(job, at, second, h))
    case EvictBin(job, at, second, h) => To(Recycle(s, h), th, Onward(s, job, at, second))
    case Decide(job, success) =>
      if job.Resize? || (!success && (s.strict || !job.hold)) then To(s, th, Unlocking)
      else if s.bin != [] then To(s.(bin := s.bin[..|s.bin| - 1]), th, Filling(job, s.bin[|s.bin| - 1]))
      else To(s.(handles := s.handles + [Handle(UNUSED, 0, 0, 0, 0)]), th, Filling(job, |s.handles|))
    case _ => Outcome(s, th)
  }

  function InsertStep(s: State, th: Thread): Outcome
    requires PhaseOf(th.pc) == OnInsertion && SafeInserting(s, th.pc)
  {
    match th.pc
    case Filling(job, h) =>
      To(s.(handles := s.handles[h := s.handles[h].(key := job.key, charge := job.charge)]), th, Publishing(job, h))
    case Publishing(job, h) =>
      To(s.(handles := s.handles[h :=
          s.handles[h].(flags := Flags(true, false, Bit(job.hold)), lives := s.handles[h].lives + 1)]),
         th, Replacing(job, h))
    case Replacing(job, h) =>
      if job.key in s.table
      then To(s.(table := s.table - {job.key}), th, Unsetting(job, h, s.table[job.key]))
          else To(s, th, Entering(job, h))
    case Unsetting(job, h, e) => Unset(s, th, e, UnsetBin(job, h, e), Entering(job, h))
    case UnsetBin(job, h, e) => To(Recycle(s, e), th, Entering(job, h))
    case Entering(job, h) => To(s.(table := s.table[job.key := h]), th, Counting(job, h))
    case Counting(job, h) =>
      Outcome(s.(usage := s.usage + job.charge), Thread(if job.hold then th.held + multiset{h} else th.held, Unlocking))
    case _ => Outcome(s, th)
  }

  function EraseStep(s: State, t: nat, th: Thread): Outcome
    requires PhaseOf(th.pc) == OnErasure && SafeErasing(s, th.pc)
  {
    match th.pc
    case EraseWait(key) => To(s.(lock := Locked(t)), th, Erasing(key))
    case Erasing(key) =>
      if key in s.table then To(s.(table := s.table - {key}), th, EraseUnset(s.table[key])) else To(s, th, Unlocking)
    case EraseUnset(e) => Unset(s, th, e, Binning(e), Unlocking)
    case ClearWait => To(s.(lock := Locked(t)), th, Clearing)
    case Clearing => To(s.(table := map[]), th, ClearLoop(0))
    case ClearLoop(i) =>
      if i < |s.handles| then Unset(s, th, i, ClearBin(i), ClearLoop(i + 1)) else To(s, th, Unlocking)
    case ClearBin(i) => To(Recycle(s, i), th, ClearLoop(i + 1))
    case _ => Outcome(s, th)
  }

  /** The next position of the clock hand; back at the head for the second time, eviction gives up. */
  function Onward(s: State, job: Job, at: nat, second: bool): Pc {
    var next := if at + 1 >= |s.handles| then 0 else at + 1;
    if next == s.head then (if second then Decide(job, false) else EvictLoop(job, next, true))
    else EvictLoop(job, next, second)
  }

  ghost predicate Next(s: State, t: nat, a: Action, s': State) {
    Enabled(s, t, a) && (Safe(s, t, a) ==> s' == After(s, t, a))
  }

  predicate Init(s: State) {
    && s.handles == [] && s.table == map[] && s.bin == [] && s.usage == 0 && s.head == 0 && s.lock == Free
    && forall t :: 0 <= t < |s.threads| ==> s.threads[t] == Thread(multiset{}, Idle)
  }

  datatype Move = Move(tid: nat, action: Action)

  ghost predicate IsRun(states: seq<State>, moves: seq<Move>) {
    && |states| == |moves| + 1 && Init(states[0])
    && forall i :: 0 <= i < |moves| ==> Next(states[i], moves[i].tid, moves[i].action, states[i + 1])
  }
}
