/**
  What the calls of the clock cache that need no mutex achieve, over whole runs: a lookup, another
  reference to a handle, and giving a reference back.
*/
module ClockCalls {
  import opened ClockCache
  import opened ClockSafety
  import opened ClockRuns

  // ---------------------------------------------------------------- calls

  predicate IsCall(m: Move, t: nat) {
    m.tid == t && !m.action.Step? && !m.action.Spurious?
  }

  /** The step with which the last call of thread `t` before instant `i` was made, or -1. */
  function CallAt(moves: seq<Move>, i: nat, t: nat): (c: int)
    requires i <= |moves|
    ensures -1 <= c < i && (c >= 0 ==> IsCall(moves[c], t))
  {
    if i == 0 then -1
    else if IsCall(moves[i - 1], t) then i - 1
    else CallAt(moves, i - 1, t)
  }

  /** The last call of the thread is `a`. */
  predicate Calls(moves: seq<Move>, i: nat, t: nat, a: Action)
    requires i <= |moves|
  {
    CallAt(moves, i, t) >= 0 && moves[CallAt(moves, i, t)].action == a
  }

  lemma {:induction false} LookupIsCall(moves: seq<Move>, i: nat, t: nat)
    requires i <= |moves| && CallAt(moves, i, t) >= 0 && moves[CallAt(moves, i, t)].action.Lookup?
    ensures LookupStart(moves, i, t) == CallAt(moves, i, t)
  {
    if !IsCall(moves[i - 1], t) {
      LookupIsCall(moves, i - 1, t);
    }
  }

  // ---------------------------------------------------------------- outcomes

  /** At the state `s` the table leads to no cached handle for the key, by way of handle `h`. */
  predicate Misses(s: State, key: int, h: nat) {
    h < |s.handles| ==> !s.handles[h].flags.inCache || s.handles[h].key != key
  }

  /** The key was not in the table when the lookup began, or the handle the table led to was, at some
      instant of the lookup, not cached or cached for another key. */
  ghost predicate Missed(states: seq<State>, c: nat, i: nat, key: int)
    requires c <= i < |states|
  {
    key !in states[c].table || exists k :: c <= k <= i && Misses(states[k], key, states[c].table[key])
  }

  /** The handle the table led to was cached for the key at some instant of the lookup, and still
      stands for the entry it stood for then. */
  ghost predicate Found(states: seq<State>, c: nat, i: nat, h: nat, key: int)
    requires c <= i < |states|
  {
    && key in states[c].table && states[c].table[key] == h
    && exists j :: c < j <= i && CachedDuring(states, c + 1, j, j, h, key) && h < |states[j].handles|
                   && states[j].handles[h].key == key && states[j].handles[h].flags.refs > 0
  }

  /** Where a lookup is, and what it knows. */
  ghost predicate LookupWork(states: seq<State>, c: nat, i: nat, t: nat, key: int)
    requires c < i < |states| && t < |states[c].threads| && t < |states[i].threads|
  {
    var th, held := states[i].threads[t], states[c].threads[t].held;
    var led := key in states[c].table;
    match th.pc
    case RefLoad(h, reason) => led && h == states[c].table[key] && reason == ForKey(key) && th.held == held
    case RefCas(h, _, reason) => led && h == states[c].table[key] && reason == ForKey(key) && th.held == held
    case Checking(h, k) => led && h == states[c].table[key] && k == key && th.held == held
    case Dropping(h) => Missed(states, c, i, key) && th.held == held
    case BinWait(h) => Missed(states, c, i, key) && th.held == held
    case Binning(h) => Missed(states, c, i, key) && th.held == held
    case Unlocking => Missed(states, c, i, key) && th.held == held
    case Idle =>
      || (th.held == held && Missed(states, c, i, key))
      || (exists h :: th.held == held + multiset{h} && Found(states, c, i, h, key))
    case _ => false
  }

  /** At some instant of the call the handle was not cached. */
  ghost predicate WasUncached(states: seq<State>, c: nat, i: nat, h: nat)
    requires c <= i < |states|
  {
    exists k :: c <= k <= i && h < |states[k].handles| && !states[k].handles[h].flags.inCache
  }

  /** At some instant of the call the handle was cached. */
  ghost predicate WasInCache(states: seq<State>, c: nat, i: nat, h: nat)
    requires c <= i < |states|
  {
    exists k :: c <= k <= i && h < |states[k].handles| && states[k].handles[h].flags.inCache
  }

  ghost predicate RefWork(states: seq<State>, c: nat, i: nat, t: nat, h: nat)
    requires c < i < |states| && t < |states[c].threads| && t < |states[i].threads|
  {
    var th, held := states[i].threads[t], states[c].threads[t].held;
    match th.pc
    case RefLoad(g, reason) => g == h && reason == ForHolder && th.held == held
    case RefCas(g, _, reason) => g == h && reason == ForHolder && th.held == held
    case Idle =>
      || (th.held == held && WasUncached(states, c, i, h))
      || (th.held == held + multiset{h} && WasInCache(states, c, i, h))
    case _ => false
  }

  /** At some instant of the call the usage bit of the handle was set while it was referenced. */
  ghost predicate WasMarked(states: seq<State>, c: nat, i: nat, h: nat)
    requires c <= i < |states|
  {
    exists k :: c <= k <= i && h < |states[k].handles| && states[k].handles[h].flags.used
                && states[k].handles[h].flags.refs > 0
  }

  ghost predicate ReleaseWork(states: seq<State>, c: nat, i: nat, t: nat, h: nat)
    requires c < i < |states| && t < |states[c].threads| && t < |states[i].threads|
  {
    var th, held := states[i].threads[t], states[c].threads[t].held;
    && th.held == held - multiset{h}
    && match th.pc
       case Marking(g) => g == h
       case Dropping(g) => g == h && WasMarked(states, c, i, h)
       case BinWait(g) => g == h && WasMarked(states, c, i, h)
       case Binning(g) => g == h && WasMarked(states, c, i, h)
       case Unlocking => WasMarked(states, c, i, h)
       case Idle => WasMarked(states, c, i, h)
       case _ => false
  }

  /** Where a thread is with its last call, if this is one of the three. */
  ghost predicate RefCallOk(states: seq<State>, moves: seq<Move>, i: nat, t: nat)
    requires i < |states| == |moves| + 1
  {
    var c := CallAt(moves, i, t);
    c >= 0 ==>
      && t < |states[c].threads| && t < |states[i].threads|
      && match moves[c].action
         case Lookup(key) => LookupWork(states, c, i, t, key)
         case Ref(h) => RefWork(states, c, i, t, h)
         case Release(h) => ReleaseWork(states, c, i, t, h)
         case _ => true
  }

  // ---------------------------------------------------------------- evidence stays

  lemma MissedLater(states: seq<State>, c: nat, i: nat, j: nat, key: int)
    requires c <= i <= j < |states| && Missed(states, c, i, key)
    ensures Missed(states, c, j, key)
  {
    hide Misses;
  }

  lemma FoundLater(states: seq<State>, c: nat, i: nat, j: nat, h: nat, key: int)
    requires c <= i <= j < |states| && Found(states, c, i, h, key)
    ensures Found(states, c, j, h, key)
  {
    hide CachedDuring;
  }

  /** While the thread itself does nothing, its lookup stays where it is. */
  lemma LookupWaits(states: seq<State>, c: nat, i: nat, t: nat, key: int)
    requires c < i && i + 1 < |states| && t < |states[c].threads| && t < |states[i].threads|
    requires t < |states[i + 1].threads| && states[i + 1].threads[t] == states[i].threads[t]
    requires LookupWork(states, c, i, t, key)
    ensures LookupWork(states, c, i + 1, t, key)
  {
    hide Missed, Found;
    if Missed(states, c, i, key) {
      MissedLater(states, c, i, i + 1, key);
    }
    var th := states[i].threads[t];
    if h :| th.held == states[c].threads[t].held + multiset{h} && Found(states, c, i, h, key) {
      FoundLater(states, c, i, i + 1, h, key);
    }
  }

  lemma RefWaits(states: seq<State>, c: nat, i: nat, t: nat, h: nat)
    requires c < i && i + 1 < |states| && t < |states[c].threads| && t < |states[i].threads|
    requires t < |states[i + 1].threads| && states[i + 1].threads[t] == states[i].threads[t]
    requires RefWork(states, c, i, t, h)
    ensures RefWork(states, c, i + 1, t, h)
  {
  }

  lemma ReleaseWaits(states: seq<State>, c: nat, i: nat, t: nat, h: nat)
    requires c < i && i + 1 < |states| && t < |states[c].threads| && t < |states[i].threads|
    requires t < |states[i + 1].threads| && states[i + 1].threads[t] == states[i].threads[t]
    requires ReleaseWork(states, c, i, t, h)
    ensures ReleaseWork(states, c, i + 1, t, h)
  {
  }

  // ---------------------------------------------------------------- own steps

  /** The two states around a step of thread `t`. */
  ghost predicate OwnStep(states: seq<State>, moves: seq<Move>, i: nat, t: nat) {
    && i < |moves| && |states| == |moves| + 1 && moves[i].tid == t
    && Enabled(states[i], t, moves[i].action) && Safe(states[i], t, moves[i].action)
    && states[i + 1] == After(states[i], t, moves[i].action)
  }

  lemma RunOwnStep(states: seq<State>, moves: seq<Move>, i: nat)
    requires IsRun(states, moves) && i < |moves|
    ensures OwnStep(states, moves, i, moves[i].tid) && |states[i + 1].threads| == |states[i].threads|
    ensures Inv(states[i]) && Inv(states[i + 1])
    ensures forall t :: 0 <= t < |states[i].threads| && t != moves[i].tid ==>
                          states[i + 1].threads[t] == states[i].threads[t]
  {
    hide Inv, Safe, Advance, Call;
    RunInv(states, moves, i);
    RunInv(states, moves, i + 1);
    assert Next(states[i], moves[i].tid, moves[i].action, states[i + 1]);
  }

  /** An attempt to take a reference ends at a value without the in-cache bit. */
  lemma LoadSeen(s: State, h: nat, reason: Reason)
    requires h < |s.handles|
    ensures var pc := AfterLoad(h, FlagsOf(s, h), reason);
            if s.handles[h].flags.inCache then pc == RefCas(h, s.handles[h].flags, reason) else pc == Idle
  {
  }

  lemma NowMissed(states: seq<State>, c: nat, i: nat, key: int)
    requires c <= i && i + 1 < |states| && key in states[c].table && Misses(states[i], key, states[c].table[key])
    ensures Missed(states, c, i + 1, key)
  {
  }

  lemma LookupLoads(states: seq<State>, moves: seq<Move>, c: nat, i: nat, t: nat, key: int)
    requires OwnStep(states, moves, i, t) && !IsCall(moves[i], t) && LocalOk(states[i], states[i].threads[t].pc)
    requires c < i && t < |states[c].threads| && LookupWork(states, c, i, t, key)
    requires states[i].threads[t].pc.RefLoad? || states[i].threads[t].pc.RefCas?
    ensures LookupWork(states, c, i + 1, t, key)
  {
    hide Missed, Found, EvictStep, InsertStep, EraseStep;
    var pc := states[i].threads[t].pc;
    if Misses(states[i], key, pc.h) {
      NowMissed(states, c, i, key);
    }
  }

  lemma LookupChecks(states: seq<State>, moves: seq<Move>, c: nat, i: nat, t: nat, key: int)
    requires IsRun(states, moves) && OwnStep(states, moves, i, t) && !IsCall(moves[i], t)
    requires c == CallAt(moves, i, t) && moves[c].action == Lookup(key)
    requires c < i && t < |states[c].threads| && LookupWork(states, c, i, t, key)
    requires states[i].threads[t].pc.Checking?
    ensures LookupWork(states, c, i + 1, t, key)
  {
    var h := states[i].threads[t].pc.h;
    LookupFindsKey(states, moves, i);
    LookupIsCall(moves, i, t);
    if states[i].handles[h].key == key {
      HereFound(states, c, i, h, key);
    } else {
      NowMissed(states, c, i, key);
    }
    hide IsRun, Missed, Found, EvictStep, InsertStep, EraseStep;
  }

  lemma HereFound(states: seq<State>, c: nat, i: nat, h: nat, key: int)
    requires c < i && i + 1 < |states| && key in states[c].table && states[c].table[key] == h
    requires CachedDuring(states, c + 1, i, i + 1, h, key) && h < |states[i + 1].handles|
    requires states[i + 1].handles[h].key == key && states[i + 1].handles[h].flags.refs > 0
    ensures Found(states, c, i + 1, h, key)
  {
    assert CachedDuring(states, c + 1, i + 1, i + 1, h, key) by {
      var k :| c + 1 <= k < i && WasCached(states, k, i + 1, h, key);
    }
  }

  lemma LookupLeaves(states: seq<State>, moves: seq<Move>, c: nat, i: nat, t: nat, key: int)
    requires OwnStep(states, moves, i, t) && !IsCall(moves[i], t)
    requires c < i && t < |states[c].threads| && LookupWork(states, c, i, t, key)
    requires var pc := states[i].threads[t].pc; pc.Dropping? || pc.BinWait? || pc.Binning? || pc.Unlocking?
    ensures LookupWork(states, c, i + 1, t, key)
  {
    hide Missed, Found, EvictStep, InsertStep, EraseStep;
    MissedLater(states, c, i, i + 1, key);
  }

  lemma LookupGoesOn(states: seq<State>, moves: seq<Move>, c: nat, i: nat, t: nat, key: int)
    requires IsRun(states, moves) && i < |moves| && moves[i].tid == t && !IsCall(moves[i], t)
    requires c == CallAt(moves, i, t) && moves[c].action == Lookup(key)
    requires c < i && t < |states[c].threads| && t < |states[i].threads| && LookupWork(states, c, i, t, key)
    ensures t < |states[i + 1].threads| && LookupWork(states, c, i + 1, t, key)
  {
    RunOwnStep(states, moves, i);
    assert LocalOk(states[i], states[i].threads[t].pc);
    NotIdle(states[i], t, moves[i].action);
    var pc := states[i].threads[t].pc;
    assert !pc.Marking? && PhaseOf(pc) == OnRefs;
    hide IsRun, LookupWork, OwnStep, Inv;
    if pc.RefLoad? || pc.RefCas? {
      LookupLoads(states, moves, c, i, t, key);
    } else if pc.Checking? {
      LookupChecks(states, moves, c, i, t, key);
    } else {
      LookupLeaves(states, moves, c, i, t, key);
    }
  }

  lemma NotIdle(s: State, t: nat, a: Action)
    requires Enabled(s, t, a) && (a.Step? || a.Spurious?)
    ensures !s.threads[t].pc.Idle?
  {
  }

  lemma RefGoesOn(states: seq<State>, moves: seq<Move>, c: nat, i: nat, t: nat, h: nat)
    requires OwnStep(states, moves, i, t) && !IsCall(moves[i], t) && LocalOk(states[i], states[i].threads[t].pc)
    requires c < i && t < |states[c].threads| && RefWork(states, c, i, t, h)
    ensures RefWork(states, c, i + 1, t, h)
  {
    hide EvictStep, InsertStep, EraseStep;
    NotIdle(states[i], t, moves[i].action);
    assert c <= i <= i + 1;
  }

  lemma ReleaseGoesOn(states: seq<State>, moves: seq<Move>, c: nat, i: nat, t: nat, h: nat)
    requires OwnStep(states, moves, i, t) && !IsCall(moves[i], t)
    requires c < i && t < |states[c].threads| && ReleaseWork(states, c, i, t, h)
    ensures ReleaseWork(states, c, i + 1, t, h)
  {
    hide EvictStep, InsertStep, EraseStep;
    NotIdle(states[i], t, moves[i].action);
    if states[i].threads[t].pc.Marking? {
      NowMarked(states, c, i, h);
    }
  }

  lemma NowMarked(states: seq<State>, c: nat, i: nat, h: nat)
    requires c <= i && i + 1 < |states| && h < |states[i + 1].handles| && states[i + 1].handles[h].flags.used
    requires states[i + 1].handles[h].flags.refs > 0
    ensures WasMarked(states, c, i + 1, h)
  {
  }

  /** The first instant of a call. */
  lemma CallStarts(states: seq<State>, moves: seq<Move>, i: nat, t: nat)
    requires OwnStep(states, moves, i, t) && IsCall(moves[i], t)
    ensures t < |states[i + 1].threads|
    ensures match moves[i].action
            case Lookup(key) => LookupWork(states, i, i + 1, t, key)
            case Ref(h) => RefWork(states, i, i + 1, t, h)
            case Release(h) => ReleaseWork(states, i, i + 1, t, h)
            case _ => true
  {
    hide Advance;
  }

  lemma StepRefCall(states: seq<State>, moves: seq<Move>, i: nat, t: nat)
    requires IsRun(states, moves) && i < |moves| && t < |states[i].threads| && RefCallOk(states, moves, i, t)
    ensures RefCallOk(states, moves, i + 1, t)
  {
    RunOwnStep(states, moves, i);
    var c := CallAt(moves, i, t);
    assert LocalOk(states[i], states[i].threads[t].pc);
    hide IsRun, OwnStep, Inv, LookupWork, RefWork, ReleaseWork, LocalOk;
    if IsCall(moves[i], t) {
      CallStarts(states, moves, i, t);
    } else if c >= 0 {
      match moves[c].action
      case Lookup(key) =>
        if moves[i].tid == t { LookupGoesOn(states, moves, c, i, t, key); }
        else { LookupWaits(states, c, i, t, key); }
      case Ref(h) =>
        if moves[i].tid == t { RefGoesOn(states, moves, c, i, t, h); } else { RefWaits(states, c, i, t, h); }
      case Release(h) =>
        if moves[i].tid == t { ReleaseGoesOn(states, moves, c, i, t, h); } else { ReleaseWaits(states, c, i, t, h); }
      case _ =>
    }
  }

  lemma {:induction false} RefCallsHold(states: seq<State>, moves: seq<Move>, i: nat, t: nat)
    requires IsRun(states, moves) && i < |states| && t < |states[0].threads|
    ensures t < |states[i].threads| && RefCallOk(states, moves, i, t)
  {
    hide RefCallOk;
    if i == 0 {
      NoCallYet(states, moves, t);
    } else {
      RefCallsHold(states, moves, i - 1, t);
      SameThreads(states, moves, i);
      StepRefCall(states, moves, i - 1, t);
    }
  }

  lemma NoCallYet(states: seq<State>, moves: seq<Move>, t: nat)
    requires IsRun(states, moves)
    ensures RefCallOk(states, moves, 0, t)
  {
  }

  // ---------------------------------------------------------------- main results

  /** Main result: a lookup that is over has handed out nothing, and then there was an instant of the
      lookup at which the key was not in the table or the handle it led to was not cached for it; or
      it has handed out one reference to this handle, which was cached for the key at an instant of
      the lookup and stood for the same entry when it was handed out. */
  lemma LookupOutcome(states: seq<State>, moves: seq<Move>, i: nat, t: nat, key: int)
    requires IsRun(states, moves) && i < |states| && t < |states[0].threads| && Calls(moves, i, t, Lookup(key))
    requires t < |states[i].threads| && states[i].threads[t].pc.Idle?
    ensures var c := CallAt(moves, i, t);
            && t < |states[c].threads|
            && var th, held := states[i].threads[t], states[c].threads[t].held;
               || (th.held == held && Missed(states, c, i, key))
               || (exists h :: th.held == held + multiset{h} && Found(states, c, i, h, key))
  {
    RefCallsHold(states, moves, i, t);
    hide IsRun, Missed, Found;
  }

  /** Another reference to a handle is taken exactly if the attempt meets the in-cache bit. */
  lemma RefOutcome(states: seq<State>, moves: seq<Move>, i: nat, t: nat, h: nat)
    requires IsRun(states, moves) && i < |states| && t < |states[0].threads| && Calls(moves, i, t, Ref(h))
    requires t < |states[i].threads| && states[i].threads[t].pc.Idle?
    ensures var c := CallAt(moves, i, t);
            && t < |states[c].threads|
            && var th, held := states[i].threads[t], states[c].threads[t].held;
               || (th.held == held && WasUncached(states, c, i, h))
               || (th.held == held + multiset{h} && WasInCache(states, c, i, h))
  {
    RefCallsHold(states, moves, i, t);
    hide IsRun, WasUncached, WasInCache;
  }

  /** A release that is over has given back exactly one reference, after marking the handle as used. */
  lemma ReleaseOutcome(states: seq<State>, moves: seq<Move>, i: nat, t: nat, h: nat)
    requires IsRun(states, moves) && i < |states| && t < |states[0].threads| && Calls(moves, i, t, Release(h))
    requires t < |states[i].threads| && states[i].threads[t].pc.Idle?
    ensures var c := CallAt(moves, i, t);
            && t < |states[c].threads| && states[i].threads[t].held == states[c].threads[t].held - multiset{h}
            && WasMarked(states, c, i, h)
  {
    RefCallsHold(states, moves, i, t);
    hide IsRun, WasMarked;
  }

  /** The strictness last asked for. */
  function LastStrict(moves: seq<Move>, i: nat, initial: bool): bool
    requires i <= |moves|
  {
    if i == 0 then initial
    else if moves[i - 1].action.SetStrict? then moves[i - 1].action.strict
    else LastStrict(moves, i - 1, initial)
  }

  lemma StrictKept(s: State, t: nat, a: Action)
    requires Enabled(s, t, a) && Safe(s, t, a)
    ensures After(s, t, a).strict == if a.SetStrict? then a.strict else s.strict
  {
  }

  /** The cache is as strict as it was last asked to be, by whichever thread. */
  lemma {:induction false} StrictAsAsked(states: seq<State>, moves: seq<Move>, i: nat)
    requires IsRun(states, moves) && i < |states|
    ensures i <= |moves| && states[i].strict == LastStrict(moves, i, states[0].strict)
  {
    if i > 0 {
      StrictAsAsked(states, moves, i - 1);
      RunOwnStep(states, moves, i - 1);
      hide IsRun, Inv, After, Safe;
      StrictKept(states[i - 1], moves[i - 1].tid, moves[i - 1].action);
    }
  }

  /** While nobody else is at work and the mutex is free, a lookup of a key in the table hands out the
      handle after three steps, with one reference more. */
  lemma SoloLookup(s: State, t: nat, key: int, h: nat)
    requires Inv(s) && s.lock == Free && Enabled(s, t, Lookup(key)) && key in s.table && h == s.table[key]
    ensures h < |s.handles| && s.handles[h].flags.inCache && s.handles[h].key == key
    ensures var s1 := After(s, t, Lookup(key));
            && Enabled(s1, t, Step) && Safe(s1, t, Step)
            && var s2 := After(s1, t, Step);
               && Enabled(s2, t, Step) && Safe(s2, t, Step)
               && var s3 := After(s2, t, Step);
                  && Enabled(s3, t, Step) && Safe(s3, t, Step)
                  && var s4 := After(s3, t, Step);
                     && s4.threads[t] == Thread(s.threads[t].held + multiset{h}, Idle)
                     && s4 == SetFlags(s, h, s.handles[h].flags.(refs := s.handles[h].flags.refs + 1)).(threads :=
                                s.threads[t := Thread(s.threads[t].held + multiset{h}, Idle)])
  {
    assert EntryOk(s, Idle, key) && RefsOk(s, h);
    hide Inv, AllHold, After, Enabled, Safe;
    var held, flags := s.threads[t].held, s.handles[h].flags;
    StepLookupCall(s, t, key);
    var s1 := After(s, t, Lookup(key));
    StepLoad(s1, t, key);
    var s2 := After(s1, t, Step);
    StepCas(s2, t, key);
    var s3 := After(s2, t, Step);
    StepCheck(s3, t, key);
  }

  function At(s: State, t: nat, th: Thread): State
    requires t < |s.threads|
  {
    s.(threads := s.threads[t := th])
  }

  lemma StepLookupCall(s: State, t: nat, key: int)
    requires Enabled(s, t, Lookup(key)) && key in s.table && s.table[key] < |s.handles|
    ensures t < |s.threads| && Safe(s, t, Lookup(key))
    ensures var s1 := At(s, t, Thread(s.threads[t].held, RefLoad(s.table[key], ForKey(key))));
            After(s, t, Lookup(key)) == s1 && Enabled(s1, t, Step) && Safe(s1, t, Step)
  {
    hide EvictStep, InsertStep, EraseStep;
  }

  lemma StepLoad(s: State, t: nat, key: int)
    requires Enabled(s, t, Step) && Safe(s, t, Step) && t < |s.threads| && s.threads[t].pc.RefLoad?
    requires var pc := s.threads[t].pc; pc.reason == ForKey(key) && pc.h < |s.handles| && FlagsOf(s, pc.h).inCache
    ensures var h := s.threads[t].pc.h;
            var s2 := At(s, t, Thread(s.threads[t].held, RefCas(h, FlagsOf(s, h), ForKey(key))));
            After(s, t, Step) == s2 && Enabled(s2, t, Step) && Safe(s2, t, Step)
  {
    hide EvictStep, InsertStep, EraseStep;
  }

  lemma StepCas(s: State, t: nat, key: int)
    requires Enabled(s, t, Step) && Safe(s, t, Step) && t < |s.threads| && s.threads[t].pc.RefCas?
    requires var pc := s.threads[t].pc;
             pc.reason == ForKey(key) && pc.h < |s.handles| && FlagsOf(s, pc.h) == pc.seen && pc.seen.refs >= 0
    ensures var RefCas(h, seen, _) := s.threads[t].pc;
            var s3 := At(SetFlags(s, h, seen.(refs := seen.refs + 1)), t, Thread(s.threads[t].held, Checking(h, key)));
            After(s, t, Step) == s3 && Enabled(s3, t, Step) && Safe(s3, t, Step)
  {
    hide EvictStep, InsertStep, EraseStep;
  }

  lemma StepCheck(s: State, t: nat, key: int)
    requires Enabled(s, t, Step) && Safe(s, t, Step) && t < |s.threads| && s.threads[t].pc.Checking?
    requires var pc := s.threads[t].pc; pc.key == key && pc.h < |s.handles| && s.handles[pc.h].key == key
    ensures After(s, t, Step) == At(s, t, Thread(s.threads[t].held + multiset{s.threads[t].pc.h}, Idle))
  {
    hide EvictStep, InsertStep, EraseStep;
  }
}
