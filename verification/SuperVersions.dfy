/**
  The protocol by which reader threads share super versions: a reference count in each super
  version, one slot per thread that caches a reference, and an installer that replaces the
  current version and scrapes the slots. Readers take and return their slot with a swap and a
  compare-and-swap and need the mutex only when they find their slot scraped.

  Every atomic access and every critical action is one step; any thread may take the next one.
*/
module SuperVersions {
  import opened Basics

  /** `cleaned` counts how often the version was cleaned up. */
  datatype Version = Version(refs: int, number: nat, cleaned: nat)

  /** A thread-local slot: scraped or never filled, lent to its thread, or caching a reference. */
  datatype Slot = Obsolete | InUse | Cached(v: nat)

  datatype Pc =
    | Idle
      // taking a version: swapped the slot, found it stale, waits for the mutex, has it
    | Swapped(got: Slot)
    | Stale(v: nat)
    | Waiting(owed: Slot)
    | Locked(owed: Slot)
    | Acquired(v: nat)
    | Holding(v: nat)
      // taking a reference that outlives the slot: second reference taken, slot lost
    | Sharing(v: nat)
    | SharedStale(v: nat)
      // giving up a reference: about to drop it, dropped the last one, has the mutex
    | Releasing(v: nat)
    | Doomed(v: nat)
    | Cleaning(v: nat)
    | Unlocking
      // installing a new version, always with the mutex but for the first
    | InstallWait
    | Created(new_: nat)
    | Switched(old_: nat)
    | Counted(old_: nat)
    | Scraping(old_: nat, next: nat, pending: seq<nat>)
    | Dropping(old_: nat, pending: seq<nat>)
    | Sweeping(old_: nat, pending: seq<nat>, v: nat)

  datatype Thread = Thread(slot: Slot, pc: Pc)

  datatype Lock = Free | Held(tid: nat)

  /** `extra` holds the references handed out independently of the slots. */
  datatype State = State(versions: seq<Version>, current: nat, number: nat, lock: Lock, threads: seq<Thread>,
                         extra: multiset<nat>)

  datatype Action = Get | Share | Release(v: nat) | Exit | Install | Step

  // ---------------------------------------------------------------- steps

  function To(s: State, t: nat, pc: Pc): State
    requires t < |s.threads|
  {
    s.(threads := s.threads[t := s.threads[t].(pc := pc)])
  }

  function SetSlot(s: State, t: nat, slot: Slot): State
    requires t < |s.threads|
  {
    s.(threads := s.threads[t := s.threads[t].(slot := slot)])
  }

  predicate Usable(s: State, v: nat) {
    v < |s.versions| && s.versions[v].cleaned == 0
  }

  function AddRefs(s: State, v: nat, delta: int): State
    requires v < |s.versions|
  {
    s.(versions := s.versions[v := s.versions[v].(refs := s.versions[v].refs + delta)])
  }

  function CleanUp(s: State, v: nat): State
    requires v < |s.versions|
  {
    s.(versions := s.versions[v := s.versions[v].(cleaned := s.versions[v].cleaned + 1)])
  }

  /** Drops a reference and goes on depending on whether it was the last one. */
  function Unref(s: State, t: nat, v: nat, last: Pc, other: Pc): State
    requires t < |s.threads| && v < |s.versions|
  {
    To(AddRefs(s, v, -1), t, if s.versions[v].refs == 1 then last else other)
  }

  /** Whether the thread can take the step now; waiting for the mutex blocks. */
  predicate Enabled(s: State, t: nat, a: Action) {
    t < |s.threads| &&
    var pc := s.threads[t].pc;
    match a
    case Get => pc.Idle?
    case Share => pc.Holding?
    case Release(v) => pc.Idle? && v in s.extra
    case Exit => pc.Idle? && s.threads[t].slot.Cached?
    case Install => pc.Idle?
    case Step => !pc.Idle? && (pc.Waiting? || pc.Doomed? || pc.InstallWait? ==> s.lock == Free)
  }

  /** The step touches only versions that were not cleaned up, and none of its assertions fails. */
  predicate Safe(s: State, t: nat, a: Action)
    requires Enabled(s, t, a)
  {
    var th := s.threads[t];
    match a
    case Get => th.slot != InUse
    case Share => Usable(s, th.pc.v)
    case Release(v) => true
    case Exit => true
    case Install => true
    case Step =>
      match th.pc
      case Swapped(got) => got.Cached? ==> Usable(s, got.v)
      case Stale(v) => Usable(s, v) && s.versions[v].refs > 0
      case Locked(owed) => if owed.Cached? then Usable(s, owed.v) && s.versions[owed.v].refs == 0
          else Usable(s, s.current)
      case Holding(v) => !th.slot.Cached?
      case Sharing(v) => !th.slot.Cached?
      case SharedStale(v) => Usable(s, v) && s.versions[v].refs > 1
      case Releasing(v) => Usable(s, v) && s.versions[v].refs > 0
      case Cleaning(v) => Usable(s, v) && s.versions[v].refs == 0
      case Created(n) => Usable(s, n)
      case Counted(_) => Usable(s, s.current)
      case Dropping(old_, pending) =>
        var v := if pending == [] then old_ else pending[0];
        Usable(s, v) && s.versions[v].refs > 0
      case Sweeping(_, _, v) => Usable(s, v) && s.versions[v].refs == 0
      case _ => true
  }

  function After(s: State, t: nat, a: Action): State
    requires Enabled(s, t, a) && Safe(s, t, a)
  {
    var th := s.threads[t];
    match a
    case Get => s.(threads := s.threads[t := Thread(InUse, Swapped(th.slot))])
    case Share => To(AddRefs(s, th.pc.v, 1), t, Sharing(th.pc.v))
    case Release(v) => To(s.(extra := s.extra - multiset{v}), t, Releasing(v))
    case Exit => s.(threads := s.threads[t := Thread(Obsolete, Releasing(th.slot.v))])
    case Install => To(s, t, InstallWait)
    case Step => Advance(s, t)
  }

  function Advance(s: State, t: nat): State
    requires Enabled(s, t, Step) && Safe(s, t, Step)
  {
    var th := s.threads[t];
    match th.pc
    case Idle => s
    case Swapped(got) =>
      if !got.Cached? then To(s, t, Waiting(Obsolete))
      else if s.versions[got.v].number != s.number then To(s, t, Stale(got.v))
      else To(s, t, Holding(got.v))
    case Stale(v) => Unref(s, t, v, Waiting(Cached(v)), Waiting(Obsolete))
    case Waiting(owed) => To(s.(lock := Held(t)), t, Locked(owed))
    case Locked(owed) =>
      if owed.Cached? then To(CleanUp(s, owed.v), t, Locked(Obsolete))
      else To(AddRefs(s, s.current, 1), t, Acquired(s.current))
    case Acquired(v) => To(s.(lock := Free), t, Holding(v))
    case Holding(v) =>
      if th.slot.InUse? then s.(threads := s.threads[t := Thread(Cached(v), Idle)]) else To(s, t, Releasing(v))
    case Sharing(v) =>
      if th.slot.InUse?
      then s.(threads := s.threads[t := Thread(Cached(v), Idle)], extra := s.extra + multiset{v})
      else To(s, t, SharedStale(v))
    case SharedStale(v) => To(AddRefs(s, v, -1).(extra := s.extra + multiset{v}), t, Idle)
    case Releasing(v) => Unref(s, t, v, Doomed(v), Idle)
    case Doomed(v) => To(s.(lock := Held(t)), t, Cleaning(v))
    case Cleaning(v) => To(CleanUp(s, v), t, Unlocking)
    case Unlocking => To(s.(lock := Free), t, Idle)
    case InstallWait => To(s.(lock := Held(t), versions := s.versions + [Version(1, 0, 0)]), t, Created(|s.versions|))
    case Created(n) => To(s.(current := n), t, Switched(s.current))
    case Switched(old_) => To(s.(number := s.number + 1), t, Counted(old_))
    case Counted(old_) =>
      To(s.(versions := s.versions[s.current := s.versions[s.current].(number := s.number)]), t, Scraping(old_, 0, []))
    case Scraping(old_, next, pending) =>
      if next < |s.threads|
      then var slot := s.threads[next].slot;
           To(SetSlot(s, next, Obsolete), t,
               Scraping(old_, next + 1, if slot.Cached? then pending + [slot.v] else pending))
      else To(s, t, Dropping(old_, pending))
    case Dropping(old_, pending) =>
      if pending == [] then Unref(s, t, old_, Cleaning(old_), Unlocking)
      else Unref(s, t, pending[0], Sweeping(old_, pending[1..], pending[0]), Dropping(old_, pending[1..]))
    case Sweeping(old_, pending, v) => To(CleanUp(s, v), t, Dropping(old_, pending))
  }

  /** A step that touches a version after its cleanup, or fails an assertion, may do anything. */
  ghost predicate Next(s: State, t: nat, a: Action, s': State) {
    Enabled(s, t, a) && (Safe(s, t, a) ==> s' == After(s, t, a))
  }

  /** The first version is installed, and no thread has used it yet. */
  predicate Init(s: State) {
    && s.versions == [Version(1, 1, 0)] && s.current == 0 && s.number == 1 && s.lock == Free && s.extra == multiset{}
    && forall t :: 0 <= t < |s.threads| ==> s.threads[t] == Thread(Obsolete, Idle)
  }

  datatype Move = Move(tid: nat, action: Action)

  ghost predicate IsRun(states: seq<State>, moves: seq<Move>) {
    && |states| == |moves| + 1 && Init(states[0])
    && forall i :: 0 <= i < |moves| ==> Next(states[i], moves[i].tid, moves[i].action, states[i + 1])
  }

  // ---------------------------------------------------------------- who has a reference

  /** References to `v` owned by a thread outside its slot. */
  function HeldBy(pc: Pc, v: nat): nat {
    match pc
    case Swapped(got) => Bit(got == Cached(v))
    case Stale(w) => Bit(w == v)
    case Acquired(w) => Bit(w == v)
    case Holding(w) => Bit(w == v)
    case Sharing(w) => 2 * Bit(w == v)
    case SharedStale(w) => 2 * Bit(w == v)
    case Releasing(w) => Bit(w == v)
    case Created(w) => Bit(w == v)
    case Switched(w) => Bit(w == v)
    case Counted(w) => Bit(w == v)
    case Scraping(w, _, pending) => Bit(w == v) + multiset(pending)[v]
    case Dropping(w, pending) => Bit(w == v) + multiset(pending)[v]
    case Sweeping(w, pending, _) => Bit(w == v) + multiset(pending)[v]
    case _ => 0
  }

  function Owns(th: Thread, v: nat): nat {
    Bit(th.slot == Cached(v)) + HeldBy(th.pc, v)
  }

  /** Whether a thread dropped the last reference to `v` and has yet to clean it up. */
  function Owes(th: Thread, v: nat): nat {
    match th.pc
    case Waiting(owed) => Bit(owed == Cached(v))
    case Locked(owed) => Bit(owed == Cached(v))
    case Doomed(w) => Bit(w == v)
    case Cleaning(w) => Bit(w == v)
    case Sweeping(_, _, w) => Bit(w == v)
    case _ => 0
  }

  function Owned(threads: seq<Thread>, v: nat): nat {
    if threads == [] then 0 else Owned(threads[..|threads| - 1], v) + Owns(threads[|threads| - 1], v)
  }

  function Owed(threads: seq<Thread>, v: nat): nat {
    if threads == [] then 0 else Owed(threads[..|threads| - 1], v) + Owes(threads[|threads| - 1], v)
  }

  lemma {:induction false} OwnedUpdate(threads: seq<Thread>, t: nat, th: Thread, v: nat)
    requires t < |threads|
    ensures Owned(threads[t := th], v) == Owned(threads, v) - Owns(threads[t], v) + Owns(th, v)
    ensures Owned(threads, v) >= Owns(threads[t], v)
  {
    hide Owns;
    var n := |threads| - 1;
    if t < n {
      OwnedUpdate(threads[..n], t, th, v);
      assert threads[t := th][..n] == threads[..n][t := th];
    } else {
      assert threads[t := th][..n] == threads[..n];
    }
  }

  lemma {:induction false} OwedUpdate(threads: seq<Thread>, t: nat, th: Thread, v: nat)
    requires t < |threads|
    ensures Owed(threads[t := th], v) == Owed(threads, v) - Owes(threads[t], v) + Owes(th, v)
    ensures Owed(threads, v) >= Owes(threads[t], v)
  {
    hide Owes;
    var n := |threads| - 1;
    if t < n {
      OwedUpdate(threads[..n], t, th, v);
      assert threads[t := th][..n] == threads[..n][t := th];
    } else {
      assert threads[t := th][..n] == threads[..n];
    }
  }
}
