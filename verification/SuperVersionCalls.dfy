/**
  What the calls on super versions achieve, over whole runs: taking a version and putting it back,
  taking a reference that outlives the slot, giving a reference up, and installing a version.
*/
module SuperVersionCalls {
  import opened SuperVersions
  import opened SuperVersionSafety
  import opened SuperVersionRuns

  // ---------------------------------------------------------------- calls

  predicate IsCall(m: Move, t: nat) {
    m.tid == t && !m.action.Step?
  }

  /** The step with which the last call of thread `t` before instant `i` was made, or -1. */
  function CallAt(moves: seq<Move>, i: nat, t: nat): (c: int)
    requires i <= |moves|
    ensures -1 <= c < i && (c >= 0 ==> IsCall(moves[c], t))
  {
    if i == 0 then -1
    else if IsCall(moves[i - 1], t) then i - 1
    else CallAt(moves, i - 1, t)
  }

  /** The last call of the thread is `a`. */
  predicate Calls(moves: seq<Move>, i: nat, t: nat, a: Action)
    requires i <= |moves|
  {
    CallAt(moves, i, t) >= 0 && moves[CallAt(moves, i, t)].action == a
  }

  /** The instant since which the mutex is with whom it is now. */
  function LockedAt(states: seq<State>, i: nat): (m: nat)
    requires i < |states|
    ensures m <= i && states[m].lock == states[i].lock
  {
    if i == 0 || states[i - 1].lock != states[i].lock then i else LockedAt(states, i - 1)
  }

  // ---------------------------------------------------------------- evidence

  predicate Numbered(s: State, v: nat) {
    v < |s.versions| && s.versions[v].number == s.number
  }

  /** At some instant from `c` to `i` the version carried the global number. */
  ghost predicate WasNumbered(states: seq<State>, c: nat, i: nat, v: nat)
    requires c <= i < |states|
  {
    exists k :: c <= k <= i && Numbered(states[k], v)
  }

  ghost predicate WasOutdated(states: seq<State>, c: nat, i: nat, v: nat)
    requires c <= i < |states|
  {
    exists k :: c <= k <= i && !Numbered(states[k], v)
  }

  ghost predicate WasCurrent(states: seq<State>, c: nat, i: nat, v: nat)
    requires c <= i < |states|
  {
    exists k :: c <= k <= i && states[k].current == v && Numbered(states[k], v)
  }

  predicate SlotIs(s: State, t: nat, slot: Slot) {
    t < |s.threads| && s.threads[t].slot == slot
  }

  /** At some instant after `c` the slot of `t` was in the given state. */
  ghost predicate SlotWas(states: seq<State>, c: nat, i: nat, t: nat, slot: Slot)
    requires c <= i < |states|
  {
    exists k :: c < k <= i && SlotIs(states[k], t, slot)
  }

  /** Between the two states a reference to `v` is dropped. */
  predicate OneLess(s: State, s': State, v: nat) {
    v < |s.versions| == |s'.versions| && s'.versions[v].refs == s.versions[v].refs - 1
  }

  predicate DropsAt(states: seq<State>, moves: seq<Move>, k: nat, t: nat, v: nat) {
    k < |moves| && k + 1 < |states| && moves[k] == Move(t, Step) && OneLess(states[k], states[k + 1], v)
  }

  /** Thread `t` dropped a reference to `v` with a step from `c` on. */
  ghost predicate Dropped(states: seq<State>, moves: seq<Move>, c: nat, i: nat, t: nat, v: nat) {
    exists k: nat :: c < k < i && DropsAt(states, moves, k, t, v)
  }

  predicate HandsOutAt(states: seq<State>, moves: seq<Move>, k: nat, t: nat, v: nat) {
    k < |moves| && k + 1 < |states| && moves[k] == Move(t, Step) && states[k + 1].extra == states[k].extra + multiset{v}
  }

  /** Thread `t` handed out a reference to `v` with a step from `c` on. */
  ghost predicate HandedOut(states: seq<State>, moves: seq<Move>, c: nat, i: nat, t: nat, v: nat) {
    exists k: nat :: c < k < i && HandsOutAt(states, moves, k, t, v)
  }

  // ---------------------------------------------------------------- taking a version

  /** The slot is of no use: nothing is cached in it, or at some instant of the call what is cached did not
      carry the global number. */
  ghost predicate Useless(states: seq<State>, c: nat, i: nat, slot: Slot)
    requires c <= i < |states|
  {
    slot.Cached? ==> WasOutdated(states, c, i, slot.v)
  }

  /** The version taken is the one cached in the slot, if it carried the global number at some instant of the call;
      if the slot was of no use, it is one that was current at some instant of the call. */
  ghost predicate Took(states: seq<State>, c: nat, i: nat, slot: Slot, v: nat)
    requires c <= i < |states|
  {
    || (slot == Cached(v) && WasNumbered(states, c, i, v))
    || (Useless(states, c, i, slot) && WasCurrent(states, c, i, v))
  }

  /** A version taken is back in the slot, or the slot was scraped meanwhile and the reference is dropped. */
  ghost predicate PutAway(states: seq<State>, moves: seq<Move>, c: nat, i: nat, t: nat, v: nat)
    requires c <= i < |states|
  {
    || SlotWas(states, c, i, t, Cached(v))
    || (SlotWas(states, c, i, t, Obsolete) && Dropped(states, moves, c, i, t, v))
  }

  ghost predicate TookAndPutAway(states: seq<State>, moves: seq<Move>, c: nat, i: nat, t: nat, slot: Slot, v: nat)
    requires c <= i < |states|
  {
    Took(states, c, i, slot, v) && PutAway(states, moves, c, i, t, v)
  }

  ghost predicate GetWork(states: seq<State>, moves: seq<Move>, c: nat, i: nat, t: nat)
    requires c < i < |states| && t < |states[c].threads| && t < |states[i].threads|
  {
    var slot := states[c].threads[t].slot;
    match states[i].threads[t].pc
    case Swapped(got) => got == slot
    case Stale(v) => slot == Cached(v) && Useless(states, c, i, slot)
    case Waiting(_) => Useless(states, c, i, slot)
    case Locked(_) => Useless(states, c, i, slot)
    case Acquired(v) => Took(states, c, i, slot, v)
    case Holding(v) => Took(states, c, i, slot, v)
    case Releasing(v) => Took(states, c, i, slot, v) && SlotWas(states, c, i, t, Obsolete)
    case Doomed(v) => TookAndPutAway(states, moves, c, i, t, slot, v)
    case Cleaning(v) => TookAndPutAway(states, moves, c, i, t, slot, v)
    case Unlocking => exists v :: TookAndPutAway(states, moves, c, i, t, slot, v)
    case Idle => exists v :: TookAndPutAway(states, moves, c, i, t, slot, v)
    case _ => false
  }

  ghost predicate ShareWork(states: seq<State>, moves: seq<Move>, c: nat, i: nat, t: nat)
    requires c < i < |states| && t < |states[c].threads| && t < |states[i].threads|
  {
    var pc := states[c].threads[t].pc;
    && pc.Holding?
    && match states[i].threads[t].pc
       case Sharing(v) => v == pc.v
       case SharedStale(v) => v == pc.v && SlotWas(states, c, i, t, Obsolete)
       case Idle => HandedOut(states, moves, c, i, t, pc.v) && PutAway(states, moves, c, i, t, pc.v)
       case _ => false
  }

  /** Giving up a reference to `v`. */
  ghost predicate GiveWork(states: seq<State>, moves: seq<Move>, c: nat, i: nat, t: nat, v: nat)
    requires c < i < |states| && t < |states[i].threads|
  {
    match states[i].threads[t].pc
    case Releasing(w) => w == v
    case Doomed(w) => w == v && Dropped(states, moves, c, i, t, v)
    case Cleaning(w) => w == v && Dropped(states, moves, c, i, t, v)
    case Unlocking => Dropped(states, moves, c, i, t, v)
    case Idle => Dropped(states, moves, c, i, t, v)
    case _ => false
  }

  // ---------------------------------------------------------------- installing

  /** From `s0`, when the mutex was taken and the new version made, to `s`. */
  predicate Replaced(s0: State, s: State) {
    && |s.versions| == |s0.versions| > 0 && s.current == |s0.versions| - 1 && s.number == s0.number + 1
    && s.versions[s.current].number == s.number
  }

  /** The slots up to `next` were scraped since `m`. */
  ghost predicate ScrapedUpTo(states: seq<State>, m: nat, i: nat, next: nat)
    requires m <= i < |states|
  {
    forall u: nat :: u < next ==> SlotWas(states, m, i, u, Obsolete)
  }

  ghost predicate InstallWork(states: seq<State>, moves: seq<Move>, m: nat, i: nat, t: nat)
    requires m <= i < |states| && t < |states[i].threads|
  {
    var s0, s := states[m], states[i];
    var made := |s0.versions| - 1;
    match s.threads[t].pc
    case Created(n) =>
      n == made && |s.versions| == |s0.versions| && s.current == s0.current && s.number == s0.number
    case Switched(old_) =>
      |s.versions| == |s0.versions| && s.current == made && old_ == s0.current && s.number == s0.number
    case Counted(old_) =>
      |s.versions| == |s0.versions| && s.current == made && old_ == s0.current && s.number == s0.number + 1
    case Scraping(old_, next, _) =>
      Replaced(s0, s) && old_ == s0.current && next <= |s.threads| && ScrapedUpTo(states, m, i, next)
    case Dropping(old_, _) => Replaced(s0, s) && old_ == s0.current && ScrapedUpTo(states, m, i, |s.threads|)
    case Sweeping(old_, _, _) => Replaced(s0, s) && old_ == s0.current && ScrapedUpTo(states, m, i, |s.threads|)
    case Cleaning(_) => InstallDone(states, moves, m, i, t)
    case Unlocking => InstallDone(states, moves, m, i, t)
    case _ => false
  }

  ghost predicate InstallDone(states: seq<State>, moves: seq<Move>, m: nat, i: nat, t: nat)
    requires m <= i < |states|
  {
    var s0, s := states[m], states[i];
    Replaced(s0, s) && ScrapedUpTo(states, m, i, |s.threads|) && Dropped(states, moves, m, i, t, s0.current)
  }

  /** With the mutex, taken at `m` for a call made before, thread `t` made a new version. */
  ghost predicate Made(states: seq<State>, c: nat, m: nat, t: nat) {
    && c < m - 1 && m < |states| && states[m].lock == Held(t)
    && |states[m].versions| == |states[m - 1].versions| + 1 && states[m].current == states[m - 1].current
    && states[m].number == states[m - 1].number
  }

  /** With step `e` thread `t` gives the mutex back, its install done. */
  ghost predicate InstalledAt(states: seq<State>, moves: seq<Move>, c: nat, e: nat, t: nat) {
    && e < |moves| && e + 1 < |states| && moves[e] == Move(t, Step)
    && Made(states, c, LockedAt(states, e), t) && InstallDone(states, moves, LockedAt(states, e), e, t)
    && t < |states[e].threads|
    && states[e + 1] == states[e].(lock := Free, threads := states[e].threads[t := states[e].threads[t].(pc := Idle)])
  }

  ghost predicate InstallOk(states: seq<State>, moves: seq<Move>, c: nat, i: nat, t: nat)
    requires c < i < |states| && t < |states[i].threads|
  {
    match states[i].threads[t].pc
    case InstallWait => true
    case Idle => exists e: nat :: e < i && InstalledAt(states, moves, c, e, t)
    case _ => Made(states, c, LockedAt(states, i), t) && InstallWork(states, moves, LockedAt(states, i), i, t)
  }

  /** Where a thread is with its last call. */
  ghost predicate CallOk(states: seq<State>, moves: seq<Move>, i: nat, t: nat)
    requires i < |states| == |moves| + 1
  {
    var c := CallAt(moves, i, t);
    && t < |states[i].threads|
    && (c < 0 ==> states[i].threads[t].pc.Idle?)
    && (c >= 0 ==>
          && t < |states[c].threads|
          && match moves[c].action
             case Get => GetWork(states, moves, c, i, t)
             case Share => ShareWork(states, moves, c, i, t)
             case Release(v) => GiveWork(states, moves, c, i, t, v)
             case Exit =>
               var slot := states[c].threads[t].slot;
               slot.Cached? && GiveWork(states, moves, c, i, t, slot.v)
             case Install => InstallOk(states, moves, c, i, t)
             case Step => false)
  }

  // ---------------------------------------------------------------- evidence stays

  lemma SlotWasLater(states: seq<State>, c: nat, i: nat, t: nat, slot: Slot)
    requires c <= i && i + 1 < |states| && SlotWas(states, c, i, t, slot)
    ensures SlotWas(states, c, i + 1, t, slot)
  {
  }

  lemma UselessLater(states: seq<State>, c: nat, i: nat, slot: Slot)
    requires c <= i && i + 1 < |states| && Useless(states, c, i, slot)
    ensures Useless(states, c, i + 1, slot)
  {
  }

  lemma TookLater(states: seq<State>, c: nat, i: nat, slot: Slot, v: nat)
    requires c <= i && i + 1 < |states| && Took(states, c, i, slot, v)
    ensures Took(states, c, i + 1, slot, v)
  {
  }

  lemma DroppedLater(states: seq<State>, moves: seq<Move>, c: nat, i: nat, t: nat, v: nat)
    requires Dropped(states, moves, c, i, t, v)
    ensures Dropped(states, moves, c, i + 1, t, v)
  {
  }

  lemma PutAwayLater(states: seq<State>, moves: seq<Move>, c: nat, i: nat, t: nat, v: nat)
    requires c <= i && i + 1 < |states| && PutAway(states, moves, c, i, t, v)
    ensures PutAway(states, moves, c, i + 1, t, v)
  {
  }

  lemma TookAndPutAwayLater(states: seq<State>, moves: seq<Move>, c: nat, i: nat, t: nat, slot: Slot, v: nat)
    requires c <= i && i + 1 < |states| && TookAndPutAway(states, moves, c, i, t, slot, v)
    ensures TookAndPutAway(states, moves, c, i + 1, t, slot, v)
  {
    TookLater(states, c, i, slot, v);
    PutAwayLater(states, moves, c, i, t, v);
  }

  /** While the thread itself does nothing, its call stays where it is. */
  lemma GetWaits(states: seq<State>, moves: seq<Move>, c: nat, i: nat, t: nat)
    requires c < i && i + 1 < |states| && t < |states[c].threads|
    requires t < |states[i].threads| && t < |states[i + 1].threads|
    requires states[i + 1].threads[t].pc == states[i].threads[t].pc && GetWork(states, moves, c, i, t)
    ensures GetWork(states, moves, c, i + 1, t)
  {
    hide Useless, Took, SlotWas, TookAndPutAway;
    var slot := states[c].threads[t].slot;
    if Useless(states, c, i, slot) {
      UselessLater(states, c, i, slot);
    }
    if SlotWas(states, c, i, t, Obsolete) {
      SlotWasLater(states, c, i, t, Obsolete);
    }
    forall v | Took(states, c, i, slot, v)
      ensures Took(states, c, i + 1, slot, v)
    {
      TookLater(states, c, i, slot, v);
    }
    forall v | TookAndPutAway(states, moves, c, i, t, slot, v)
      ensures TookAndPutAway(states, moves, c, i + 1, t, slot, v)
    {
      TookAndPutAwayLater(states, moves, c, i, t, slot, v);
    }
  }

  lemma ShareWaits(states: seq<State>, moves: seq<Move>, c: nat, i: nat, t: nat)
    requires c < i && i + 1 < |states| && t < |states[c].threads|
    requires t < |states[i].threads| && t < |states[i + 1].threads|
    requires states[i + 1].threads[t].pc == states[i].threads[t].pc && ShareWork(states, moves, c, i, t)
    ensures ShareWork(states, moves, c, i + 1, t)
  {
    hide PutAway, SlotWas;
    match states[i].threads[t].pc
    case SharedStale(v) => SlotWasLater(states, c, i, t, Obsolete);
    case Idle => PutAwayLater(states, moves, c, i, t, states[c].threads[t].pc.v);
    case _ =>
  }

  lemma GiveWaits(states: seq<State>, moves: seq<Move>, c: nat, i: nat, t: nat, v: nat)
    requires c < i && i + 1 < |states| && t < |states[i].threads| && t < |states[i + 1].threads|
    requires states[i + 1].threads[t].pc == states[i].threads[t].pc && GiveWork(states, moves, c, i, t, v)
    ensures GiveWork(states, moves, c, i + 1, t, v)
  {
    hide Dropped;
    if !states[i].threads[t].pc.Releasing? {
      DroppedLater(states, moves, c, i, t, v);
    }
  }

  lemma ScrapedLater(states: seq<State>, m: nat, i: nat, next: nat)
    requires m <= i && i + 1 < |states| && ScrapedUpTo(states, m, i, next)
    ensures ScrapedUpTo(states, m, i + 1, next)
  {
    hide SlotWas;
    var j := i + 1;
    forall u: nat | u < next
      ensures SlotWas(states, m, j, u, Obsolete)
    {
      SlotWasLater(states, m, i, u, Obsolete);
    }
  }

  /** Where the versions of an install are concerned, nothing has changed. */
  predicate SameVersions(s: State, s': State) {
    && |s'.versions| == |s.versions| && s'.current == s.current && s'.number == s.number && |s'.threads| == |s.threads|
    && (s.current < |s.versions| ==> s'.versions[s.current].number == s.versions[s.current].number)
  }

  lemma DoneLater(states: seq<State>, moves: seq<Move>, m: nat, i: nat, t: nat)
    requires m <= i && i + 1 < |states| && SameVersions(states[i], states[i + 1]) && InstallDone(states, moves, m, i, t)
    ensures InstallDone(states, moves, m, i + 1, t)
  {
    hide ScrapedUpTo, Dropped;
    ScrapedLater(states, m, i, |states[i].threads|);
    DroppedLater(states, moves, m, i, t, states[m].current);
  }

  lemma InstallWaits(states: seq<State>, moves: seq<Move>, m: nat, i: nat, t: nat)
    requires m <= i && i + 1 < |states| && SameVersions(states[i], states[i + 1]) && t < |states[i].threads|
    requires states[i + 1].threads[t].pc == states[i].threads[t].pc && InstallWork(states, moves, m, i, t)
    ensures InstallWork(states, moves, m, i + 1, t)
  {
    hide InstallDone, ScrapedUpTo;
    match states[i].threads[t].pc
    case Scraping(_, next, _) => ScrapedLater(states, m, i, next);
    case Dropping(_, _) => ScrapedLater(states, m, i, |states[i].threads|);
    case Sweeping(_, _, _) => ScrapedLater(states, m, i, |states[i].threads|);
    case Cleaning(_) => DoneLater(states, moves, m, i, t);
    case Unlocking => DoneLater(states, moves, m, i, t);
    case _ =>
  }

  // ---------------------------------------------------------------- own steps

  /** The two states around a step of thread `t`. */
  ghost predicate OwnStep(states: seq<State>, moves: seq<Move>, i: nat, t: nat) {
    && i < |moves| && |states| == |moves| + 1 && moves[i].tid == t
    && Enabled(states[i], t, moves[i].action) && Safe(states[i], t, moves[i].action)
    && states[i + 1] == After(states[i], t, moves[i].action) && |states[i + 1].threads| == |states[i].threads|
  }

  lemma RunOwnStep(states: seq<State>, moves: seq<Move>, i: nat)
    requires IsRun(states, moves) && i < |moves|
    ensures OwnStep(states, moves, i, moves[i].tid) && Inv(states[i]) && Inv(states[i + 1])
    ensures forall t :: 0 <= t < |states[i].threads| && t != moves[i].tid ==>
                          states[i + 1].threads[t].pc == states[i].threads[t].pc
  {
    hide Inv, Safe, After;
    RunInv(states, moves, i);
    assert Next(states[i], moves[i].tid, moves[i].action, states[i + 1]);
    StepKeepsInv(states[i], moves[i].tid, moves[i].action, states[i + 1]);
    forall t: nat | t < |states[i].threads| && t != moves[i].tid
      ensures states[i + 1].threads[t].pc == states[i].threads[t].pc
    {
      OtherThread(states[i], moves[i].tid, moves[i].action, t);
    }
  }

  lemma NowDropped(states: seq<State>, moves: seq<Move>, c: nat, i: nat, t: nat, v: nat)
    requires c < i && DropsAt(states, moves, i, t, v)
    ensures Dropped(states, moves, c, i + 1, t, v)
  {
  }

  lemma NowSlot(states: seq<State>, c: nat, i: nat, k: nat, t: nat, slot: Slot)
    requires c < k <= i < |states| && SlotIs(states[k], t, slot)
    ensures SlotWas(states, c, i, t, slot)
  {
  }

  /** The slot a thread took is compared with the global number. */
  lemma GetLooks(states: seq<State>, moves: seq<Move>, c: nat, i: nat, t: nat)
    requires OwnStep(states, moves, i, t) && moves[i].action == Step && states[i].threads[t].pc.Swapped?
    requires c < i && t < |states[c].threads| && GetWork(states, moves, c, i, t)
    ensures GetWork(states, moves, c, i + 1, t)
  {
    var slot := states[c].threads[t].slot;
    if slot.Cached? {
      assert c <= i <= i + 1;
      if Numbered(states[i], slot.v) {
        assert WasNumbered(states, c, i + 1, slot.v);
      } else {
        assert WasOutdated(states, c, i + 1, slot.v);
      }
    }
    hide WasNumbered, WasOutdated, WasCurrent, PutAway;
  }

  lemma GetTakes(states: seq<State>, moves: seq<Move>, c: nat, i: nat, t: nat)
    requires OwnStep(states, moves, i, t) && moves[i].action == Step && LockOk(states[i], t) && NumbersOk(states[i])
    requires var pc := states[i].threads[t].pc; pc.Stale? || pc.Waiting? || pc.Locked?
    requires c < i && t < |states[c].threads| && GetWork(states, moves, c, i, t)
    ensures GetWork(states, moves, c, i + 1, t)
  {
    var s, slot := states[i], states[c].threads[t].slot;
    UselessLater(states, c, i, slot);
    if s.threads[t].pc.Locked? {
      assert Numbered(s, s.current);
      assert WasCurrent(states, c, i + 1, s.current);
    }
    hide Useless, WasNumbered, WasCurrent, PutAway, NumbersOk;
  }

  lemma GetPutsAway(states: seq<State>, moves: seq<Move>, c: nat, i: nat, t: nat)
    requires OwnStep(states, moves, i, t) && moves[i].action == Step && SlotOk(states[i].threads[t])
    requires var pc := states[i].threads[t].pc; pc.Acquired? || pc.Holding? || pc.Releasing?
    requires c < i && t < |states[c].threads| && GetWork(states, moves, c, i, t)
    ensures GetWork(states, moves, c, i + 1, t)
  {
    var s, slot := states[i], states[c].threads[t].slot;
    var v := s.threads[t].pc.v;
    TookLater(states, c, i, slot, v);
    if s.threads[t].pc.Holding? {
      if s.threads[t].slot.InUse? {
        NowSlot(states, c, i + 1, i + 1, t, Cached(v));
      } else {
        NowSlot(states, c, i + 1, i, t, Obsolete);
      }
    } else if s.threads[t].pc.Releasing? {
      SlotWasLater(states, c, i, t, Obsolete);
      NowDropped(states, moves, c, i, t, v);
    }
    hide Took, SlotWas, Dropped;
    if !states[i + 1].threads[t].pc.Holding? && !states[i + 1].threads[t].pc.Releasing? {
      assert TookAndPutAway(states, moves, c, i + 1, t, slot, v);
    }
  }

  lemma GetCleans(states: seq<State>, moves: seq<Move>, c: nat, i: nat, t: nat)
    requires OwnStep(states, moves, i, t) && moves[i].action == Step
    requires var pc := states[i].threads[t].pc; pc.Doomed? || pc.Cleaning? || pc.Unlocking?
    requires c < i && t < |states[c].threads| && GetWork(states, moves, c, i, t)
    ensures GetWork(states, moves, c, i + 1, t)
  {
    hide TookAndPutAway;
    var slot := states[c].threads[t].slot;
    var v :| TookAndPutAway(states, moves, c, i, t, slot, v)
             && (!states[i].threads[t].pc.Unlocking? ==> v == states[i].threads[t].pc.v);
    TookAndPutAwayLater(states, moves, c, i, t, slot, v);
  }

  lemma GetGoesOn(states: seq<State>, moves: seq<Move>, c: nat, i: nat, t: nat)
    requires OwnStep(states, moves, i, t) && Inv(states[i]) && moves[i].action == Step
    requires c < i && t < |states[c].threads| && GetWork(states, moves, c, i, t)
    ensures GetWork(states, moves, c, i + 1, t)
  {
    assert LockOk(states[i], t) && SlotOk(states[i].threads[t]) && NumbersOk(states[i]);
    var pc := states[i].threads[t].pc;
    assert !pc.Idle? && GetPoint(pc);
    hide Inv, OwnStep, GetWork, LockOk, SlotOk, NumbersOk;
    if pc.Swapped? {
      GetLooks(states, moves, c, i, t);
    } else if pc.Stale? || pc.Waiting? || pc.Locked? {
      GetTakes(states, moves, c, i, t);
    } else if pc.Acquired? || pc.Holding? || pc.Releasing? {
      GetPutsAway(states, moves, c, i, t);
    } else {
      GetCleans(states, moves, c, i, t);
    }
  }

  predicate GetPoint(pc: Pc) {
    || pc.Idle? || pc.Swapped? || pc.Stale? || pc.Waiting? || pc.Locked? || pc.Acquired? || pc.Holding?
    || pc.Releasing? || pc.Doomed? || pc.Cleaning? || pc.Unlocking?
  }

  lemma ShareGoesOn(states: seq<State>, moves: seq<Move>, c: nat, i: nat, t: nat)
    requires OwnStep(states, moves, i, t) && SlotOk(states[i].threads[t]) && moves[i].action == Step
    requires c < i && t < |states[c].threads| && ShareWork(states, moves, c, i, t)
    ensures ShareWork(states, moves, c, i + 1, t)
  {
    var s, v := states[i], states[c].threads[t].pc.v;
    if s.threads[t].pc.Sharing? && s.threads[t].slot.InUse? {
      NowSlot(states, c, i + 1, i + 1, t, Cached(v));
      assert HandsOutAt(states, moves, i, t, v);
    } else if s.threads[t].pc.Sharing? {
      NowSlot(states, c, i + 1, i, t, Obsolete);
    } else {
      SlotWasLater(states, c, i, t, Obsolete);
      NowDropped(states, moves, c, i, t, v);
      assert HandsOutAt(states, moves, i, t, v);
    }
    hide SlotWas, Dropped;
  }

  lemma GiveGoesOn(states: seq<State>, moves: seq<Move>, c: nat, i: nat, t: nat, v: nat)
    requires OwnStep(states, moves, i, t) && moves[i].action == Step
    requires c < i && GiveWork(states, moves, c, i, t, v)
    ensures GiveWork(states, moves, c, i + 1, t, v)
  {
    if states[i].threads[t].pc.Releasing? {
      NowDropped(states, moves, c, i, t, v);
    } else {
      DroppedLater(states, moves, c, i, t, v);
    }
    hide Dropped;
  }

  // ---------------------------------------------------------------- steps of an install

  lemma InstallSwitches(states: seq<State>, moves: seq<Move>, m: nat, i: nat, t: nat)
    requires OwnStep(states, moves, i, t) && moves[i].action == Step && m <= i && InstallWork(states, moves, m, i, t)
    requires var pc := states[i].threads[t].pc; pc.Created? || pc.Switched? || pc.Counted?
    ensures InstallWork(states, moves, m, i + 1, t)
  {
    hide InstallDone, SlotWas;
  }

  lemma InstallScrapes(states: seq<State>, moves: seq<Move>, m: nat, i: nat, t: nat)
    requires OwnStep(states, moves, i, t) && moves[i].action == Step && m <= i && InstallWork(states, moves, m, i, t)
    requires states[i].threads[t].pc.Scraping?
    ensures InstallWork(states, moves, m, i + 1, t)
  {
    var next := states[i].threads[t].pc.next;
    ScrapedLater(states, m, i, next);
    if next < |states[i].threads| {
      NowSlot(states, m, i + 1, i + 1, next, Obsolete);
      OneMore(states, m, i + 1, next);
    }
    hide InstallDone, ScrapedUpTo;
  }

  lemma OneMore(states: seq<State>, m: nat, i: nat, next: nat)
    requires m <= i < |states| && ScrapedUpTo(states, m, i, next) && SlotWas(states, m, i, next, Obsolete)
    ensures ScrapedUpTo(states, m, i, next + 1)
  {
    hide SlotWas;
  }

  lemma InstallDrops(states: seq<State>, moves: seq<Move>, m: nat, i: nat, t: nat)
    requires OwnStep(states, moves, i, t) && moves[i].action == Step && m <= i && InstallWork(states, moves, m, i, t)
    requires var pc := states[i].threads[t].pc; pc.Dropping? || pc.Sweeping?
    ensures InstallWork(states, moves, m, i + 1, t)
  {
    var s := states[i];
    ScrapedLater(states, m, i, |s.threads|);
    if s.threads[t].pc.Dropping? && s.threads[t].pc.pending == [] {
      NowDropped(states, moves, m, i, t, states[m].current);
    }
    hide ScrapedUpTo, Dropped;
  }

  lemma InstallCleans(states: seq<State>, moves: seq<Move>, m: nat, i: nat, t: nat)
    requires OwnStep(states, moves, i, t) && moves[i].action == Step && m <= i && InstallWork(states, moves, m, i, t)
    requires states[i].threads[t].pc.Cleaning?
    ensures InstallWork(states, moves, m, i + 1, t)
  {
    DoneLater(states, moves, m, i, t);
    hide InstallDone;
  }

  lemma InstallGoesOn(states: seq<State>, moves: seq<Move>, m: nat, i: nat, t: nat)
    requires OwnStep(states, moves, i, t) && moves[i].action == Step && m <= i && InstallWork(states, moves, m, i, t)
    requires !states[i].threads[t].pc.Unlocking?
    ensures InstallWork(states, moves, m, i + 1, t)
  {
    var pc := states[i].threads[t].pc;
    assert InstallPoint(pc);
    hide OwnStep, InstallWork;
    if pc.Created? || pc.Switched? || pc.Counted? {
      InstallSwitches(states, moves, m, i, t);
    } else if pc.Scraping? {
      InstallScrapes(states, moves, m, i, t);
    } else if pc.Dropping? || pc.Sweeping? {
      InstallDrops(states, moves, m, i, t);
    } else {
      InstallCleans(states, moves, m, i, t);
    }
  }

  predicate InstallPoint(pc: Pc) {
    || pc.Created? || pc.Switched? || pc.Counted? || pc.Scraping? || pc.Dropping? || pc.Sweeping? || pc.Cleaning?
    || pc.Unlocking?
  }

  /** Who does not have the mutex leaves the versions of an install alone. */
  lemma OutsiderKeeps(s: State, u: nat, a: Action, t: nat)
    requires Enabled(s, u, a) && Safe(s, u, a) && LockOk(s, u) && s.lock == Held(t) && t != u
    ensures SameVersions(s, After(s, u, a)) && After(s, u, a).lock == s.lock
  {
  }

  lemma InstallStarts(states: seq<State>, moves: seq<Move>, c: nat, i: nat, t: nat)
    requires OwnStep(states, moves, i, t) && moves[i].action == Step && c < i && states[i].threads[t].pc.InstallWait?
    ensures InstallOk(states, moves, c, i + 1, t)
  {
  }

  lemma InstallEnds(states: seq<State>, moves: seq<Move>, c: nat, i: nat, t: nat)
    requires OwnStep(states, moves, i, t) && moves[i].action == Step && c < i && states[i].threads[t].pc.Unlocking?
    requires InstallOk(states, moves, c, i, t)
    ensures InstallOk(states, moves, c, i + 1, t)
  {
    assert InstalledAt(states, moves, c, i, t);
  }

  lemma InstallMoves(states: seq<State>, moves: seq<Move>, c: nat, i: nat, t: nat)
    requires OwnStep(states, moves, i, t) && moves[i].action == Step && c < i && InstallOk(states, moves, c, i, t)
    requires LockOk(states[i], t) && LockOk(states[i + 1], t)
    ensures InstallOk(states, moves, c, i + 1, t)
  {
    var pc := states[i].threads[t].pc;
    if pc.InstallWait? {
      InstallStarts(states, moves, c, i, t);
    } else if pc.Unlocking? {
      InstallEnds(states, moves, c, i, t);
    } else {
      var m := LockedAt(states, i);
      StillInMutex(states[i], t);
      InstallGoesOn(states, moves, m, i, t);
      hide OwnStep, InstallWork;
    }
  }

  lemma StillInMutex(s: State, t: nat)
    requires Enabled(s, t, Step) && Safe(s, t, Step) && InstallPoint(s.threads[t].pc) && !s.threads[t].pc.Unlocking?
    ensures var s' := After(s, t, Step);
            s'.lock == s.lock && t < |s'.threads| && InstallPoint(s'.threads[t].pc)
  {
  }

  // ---------------------------------------------------------------- all calls

  /** The first instant of a call. */
  lemma CallStarts(states: seq<State>, moves: seq<Move>, i: nat, t: nat)
    requires OwnStep(states, moves, i, t) && IsCall(moves[i], t)
    ensures CallOk(states, moves, i + 1, t)
  {
    hide Advance;
  }

  lemma CallGoesOn(states: seq<State>, moves: seq<Move>, i: nat, t: nat)
    requires OwnStep(states, moves, i, t) && Inv(states[i]) && Inv(states[i + 1]) && !IsCall(moves[i], t)
    requires CallOk(states, moves, i, t)
    ensures CallOk(states, moves, i + 1, t)
  {
    var c := CallAt(moves, i, t);
    assert LockOk(states[i], t) && LockOk(states[i + 1], t) && SlotOk(states[i].threads[t]);
    assert !states[i].threads[t].pc.Idle?;
    hide Inv, OwnStep, GetWork, ShareWork, GiveWork, InstallOk, LockOk, SlotOk;
    match moves[c].action
    case Get => GetGoesOn(states, moves, c, i, t);
    case Share => ShareGoesOn(states, moves, c, i, t);
    case Release(v) => GiveGoesOn(states, moves, c, i, t, v);
    case Exit => GiveGoesOn(states, moves, c, i, t, states[c].threads[t].slot.v);
    case Install => InstallMoves(states, moves, c, i, t);
  }

  lemma InstallFramed(states: seq<State>, moves: seq<Move>, c: nat, i: nat, t: nat)
    requires i < |moves| && OwnStep(states, moves, i, moves[i].tid) && LockOk(states[i], moves[i].tid)
    requires t < |states[i].threads| && t != moves[i].tid && LockOk(states[i], t) && c < i
    requires states[i + 1].threads[t].pc == states[i].threads[t].pc
    requires InstallOk(states, moves, c, i, t)
    ensures InstallOk(states, moves, c, i + 1, t)
  {
    var pc := states[i].threads[t].pc;
    if !pc.Idle? && !pc.InstallWait? {
      assert InstallPoint(pc);
      OutsiderKeeps(states[i], moves[i].tid, moves[i].action, t);
      InstallWaits(states, moves, LockedAt(states, i), i, t);
    }
    hide InstallWork, OwnStep;
  }

  lemma CallFramed(states: seq<State>, moves: seq<Move>, i: nat, t: nat)
    requires i < |moves| && OwnStep(states, moves, i, moves[i].tid) && Inv(states[i]) && t != moves[i].tid
    requires t < |states[i].threads| && states[i + 1].threads[t].pc == states[i].threads[t].pc
    requires CallOk(states, moves, i, t)
    ensures CallOk(states, moves, i + 1, t)
  {
    var c := CallAt(moves, i, t);
    EnabledInRange(states[i], moves[i].tid, moves[i].action);
    assert LockOk(states[i], t) && LockOk(states[i], moves[i].tid);
    hide Inv, GetWork, ShareWork, GiveWork, InstallOk, LockOk, Safe, Enabled, After;
    if c >= 0 {
      match moves[c].action
      case Get => GetWaits(states, moves, c, i, t);
      case Share => ShareWaits(states, moves, c, i, t);
      case Release(v) => GiveWaits(states, moves, c, i, t, v);
      case Exit => GiveWaits(states, moves, c, i, t, states[c].threads[t].slot.v);
      case Install => InstallFramed(states, moves, c, i, t);
    }
  }

  /** At every instant of every run every thread is where its last call has to be. */
  lemma {:induction false} CallsHold(states: seq<State>, moves: seq<Move>, i: nat, t: nat)
    requires IsRun(states, moves) && i < |states| && t < |states[0].threads|
    ensures CallOk(states, moves, i, t)
  {
    if i == 0 {
      assert states[0].threads[t].pc.Idle?;
    } else {
      hide CallOk, Init, Next, Inv, OwnStep;
      CallsHold(states, moves, i - 1, t);
      RunOwnStep(states, moves, i - 1);
      InRange(states, moves, i - 1, t);
      if IsCall(moves[i - 1], t) {
        CallStarts(states, moves, i - 1, t);
      } else if moves[i - 1].tid == t {
        CallGoesOn(states, moves, i - 1, t);
      } else {
        CallFramed(states, moves, i - 1, t);
      }
    }
  }

  lemma InRange(states: seq<State>, moves: seq<Move>, i: nat, t: nat)
    requires i < |states| == |moves| + 1 && CallOk(states, moves, i, t)
    ensures t < |states[i].threads|
  {
  }

  // ---------------------------------------------------------------- main results

  /** The call `a` of thread `t` is over at instant `i`. */
  ghost predicate Over(states: seq<State>, moves: seq<Move>, i: nat, t: nat, a: Action) {
    && IsRun(states, moves) && i < |states| && t < |states[0].threads| && t < |states[i].threads|
    && Calls(moves, i, t, a) && states[i].threads[t].pc.Idle?
  }

  /** Main result about taking a version: a thread that holds one it asked for has got the version its slot
      cached, which carried the global number at some instant of the call; or the slot was of no use,
      since it cached nothing or at some instant of the call a version without the global number,
      and the thread has got the version that was current at some instant of the call. */
  lemma GetOutcome(states: seq<State>, moves: seq<Move>, i: nat, t: nat)
    requires IsRun(states, moves) && i < |states| && t < |states[0].threads| && t < |states[i].threads|
    requires Calls(moves, i, t, Get) && states[i].threads[t].pc.Holding?
    ensures var c := CallAt(moves, i, t);
            t < |states[c].threads| && Took(states, c, i, states[c].threads[t].slot, states[i].threads[t].pc.v)
  {
    CallsHold(states, moves, i, t);
    hide IsRun, Took;
  }

  /** Main result about putting it back: the version is in the slot again, or the slot was scraped
      meanwhile and the reference is dropped. */
  lemma ReturnOutcome(states: seq<State>, moves: seq<Move>, i: nat, t: nat)
    requires Over(states, moves, i, t, Get)
    ensures var c := CallAt(moves, i, t);
            t < |states[c].threads| && exists v :: TookAndPutAway(states, moves, c, i, t, states[c].threads[t].slot, v)
  {
    CallsHold(states, moves, i, t);
    hide IsRun, TookAndPutAway;
  }

  /** Main result about a reference that outlives the slot: one reference to the version the thread held
      was handed out, and the one it held is put away. */
  lemma ShareOutcome(states: seq<State>, moves: seq<Move>, i: nat, t: nat)
    requires Over(states, moves, i, t, Share)
    ensures var c := CallAt(moves, i, t);
            && t < |states[c].threads| && states[c].threads[t].pc.Holding?
            && var v := states[c].threads[t].pc.v;
               HandedOut(states, moves, c, i, t, v) && PutAway(states, moves, c, i, t, v)
  {
    CallsHold(states, moves, i, t);
    hide IsRun, HandedOut, PutAway;
  }

  /** Main result about giving up: a reference handed out, or the one in the slot of a thread that
      exits, is taken away from its owner and dropped. */
  lemma ReleaseOutcome(states: seq<State>, moves: seq<Move>, i: nat, t: nat, v: nat)
    requires Over(states, moves, i, t, Release(v))
    ensures var c := CallAt(moves, i, t);
            states[c + 1].extra == states[c].extra - multiset{v} && Dropped(states, moves, c, i, t, v)
  {
    CallsHold(states, moves, i, t);
    RunOwnStep(states, moves, CallAt(moves, i, t));
    hide IsRun, Inv, Dropped, Advance;
  }

  lemma ExitOutcome(states: seq<State>, moves: seq<Move>, i: nat, t: nat)
    requires Over(states, moves, i, t, Exit)
    ensures var c := CallAt(moves, i, t);
            && t < |states[c].threads| && states[c].threads[t].slot.Cached? && SlotIs(states[c + 1], t, Obsolete)
            && Dropped(states, moves, c, i, t, states[c].threads[t].slot.v)
  {
    CallsHold(states, moves, i, t);
    RunOwnStep(states, moves, CallAt(moves, i, t));
    hide IsRun, Inv, Dropped, Advance;
  }

  /** Main result about installing: with one step of the call the mutex is given back, and since it was
      taken a version was made that is now current and carries the global number, one higher than
      before; every slot was scraped, and the reference to the version it replaces dropped. */
  lemma InstallOutcome(states: seq<State>, moves: seq<Move>, i: nat, t: nat) returns (e: nat)
    requires Over(states, moves, i, t, Install)
    ensures CallAt(moves, i, t) < e < i && InstalledAt(states, moves, CallAt(moves, i, t), e, t)
  {
    CallsHold(states, moves, i, t);
    hide IsRun, InstalledAt;
    var c := CallAt(moves, i, t);
    e :| e < i && InstalledAt(states, moves, c, e, t);
    EndsLater(states, moves, c, e, t);
  }

  lemma EndsLater(states: seq<State>, moves: seq<Move>, c: nat, e: nat, t: nat)
    requires InstalledAt(states, moves, c, e, t)
    ensures c < e
  {
    hide InstallDone;
  }

}
