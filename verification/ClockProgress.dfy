/**
  Nobody keeps the mutex of the clock cache for long: whatever the other threads do meanwhile, its holder
  can always make a step, and gives the mutex back after a number of its own steps that depends on
  the number of handles only. In particular the clock hand stops within two laps, although handles
  are referenced and used again while it goes round.
*/
module ClockProgress {
  import opened ClockCache
  import opened ClockSafety
  import opened ClockGuard
  import opened ClockRuns
  import opened ClockCalls
  import opened ClockWork

  /** How many places the hand still visits, from `at` on, in a circle of `n`. */
  function VisitsLeft(n: nat, head: nat, at: nat, second: bool): int {
    (if at < head then head - at else n - at + head) + if second then 0 else n
  }

  /** An upper bound of the steps the holder of the mutex still has to make. */
  function StepsLeft(s: State, pc: Pc): int {
    var n := |s.handles|;
    match pc
    case EvictStart(_) => 10 + 6 * n
    case EvictLoop(_, at, second) => 9 + 3 * VisitsLeft(n, s.head, at, second)
    case EvictErase(_, at, second, _) => 8 + 3 * VisitsLeft(n, s.head, at, second)
    case EvictBin(_, at, second, _) => 7 + 3 * VisitsLeft(n, s.head, at, second)
    case Decide(_, _) => 9
    case Filling(_, _) => 8
    case Publishing(_, _) => 7
    case Replacing(_, _) => 6
    case Unsetting(_, _, _) => 5
    case UnsetBin(_, _, _) => 4
    case Entering(_, _) => 3
    case Counting(_, _) => 2
    case Erasing(_) => 4
    case EraseUnset(_) => 3
    case Binning(_) => 2
    case Clearing => 3 + 2 * n
    case ClearLoop(i) => 2 + 2 * (n - i)
    case ClearBin(i) => 1 + 2 * (n - i)
    case Unlocking => 1
    case _ => 0
  }

  lemma OnwardLess(s: State, job: Job, at: nat, second: bool)
    requires s.head < |s.handles| && at < |s.handles|
    ensures StepsLeft(s, Onward(s, job, at, second)) <= 6 + 3 * VisitsLeft(|s.handles|, s.head, at, second)
    ensures VisitsLeft(|s.handles|, s.head, at, second) >= 1
  {
  }

  lemma SameLeft(s: State, s': State, pc: Pc)
    requires |s'.handles| == |s.handles| && s'.head == s.head
    ensures StepsLeft(s', pc) == StepsLeft(s, pc)
  {
  }

  lemma EvictionAdvances(s: State, t: nat, th: Thread)
    requires PhaseOf(th.pc) == OnEviction && SafeEvicting(s, th.pc) && LocalOk(s, th.pc) && HeadOk(s) && !th.pc.JobWait?
    ensures var o := EvictStep(s, t, th); StepsLeft(o.s, o.th.pc) < StepsLeft(s, th.pc)
  {
    var o := EvictStep(s, t, th);
    if th.pc.EvictLoop? || th.pc.EvictBin? {
      OnwardLess(s, th.pc.job, th.pc.at, th.pc.second);
      if o.s.head == s.head {
        SameLeft(s, o.s, o.th.pc);
      }
      hide Onward;
    }
  }

  lemma OtherAdvances(s: State, t: nat)
    requires Enabled(s, t, Step) && Safe(s, t, Step) && InMutex(s.threads[t].pc) && LocalOk(s, s.threads[t].pc)
    requires PhaseOf(s.threads[t].pc) != OnEviction
    ensures var o := Advance(s, t); StepsLeft(o.s, o.th.pc) < StepsLeft(s, s.threads[t].pc)
  {
    hide EvictStep;
  }

  /** Every step of the holder of the mutex brings it closer to giving the mutex back. */
  lemma HolderAdvances(s: State, t: nat)
    requires Inv(s) && Enabled(s, t, Step) && Safe(s, t, Step) && InMutex(s.threads[t].pc)
    ensures var s' := After(s, t, Step); StepsLeft(s', s'.threads[t].pc) < StepsLeft(s, s.threads[t].pc)
  {
    assert LocalOk(s, s.threads[t].pc) && HeadOk(s);
    hide Inv, StepsLeft, EvictStep, QuickStep, InsertStep, EraseStep, LocalOk;
    var o := Advance(s, t);
    if PhaseOf(s.threads[t].pc) == OnEviction {
      EvictionAdvances(s, t, s.threads[t]);
    } else {
      OtherAdvances(s, t);
    }
    SameLeft(o.s, After(s, t, Step), o.th.pc);
  }

  lemma HolderHasWork(s: State, t: nat)
    requires Inv(s) && t < |s.threads| && InMutex(s.threads[t].pc)
    ensures Enabled(s, t, Step) && StepsLeft(s, s.threads[t].pc) >= 1
  {
    var pc := s.threads[t].pc;
    assert LocalOk(s, pc) && HeadOk(s);
    hide Inv;
    if pc.EvictLoop? || pc.EvictErase? || pc.EvictBin? {
      OnwardLess(s, pc.job, pc.at, pc.second);
    }
  }

  /** The steps thread `t` makes between two instants. */
  function OwnSteps(moves: seq<Move>, m: nat, i: nat, t: nat): nat
    requires m <= i <= |moves|
    decreases i
  {
    if m == i then 0 else OwnSteps(moves, m, i - 1, t) + if moves[i - 1].tid == t then 1 else 0
  }

  lemma FirstPoint(states: seq<State>, moves: seq<Move>, i: nat, t: nat)
    requires i < |moves| && OwnStep(states, moves, i, t) && Waits(states[i].threads[t].pc) && moves[i].action == Step
    ensures StepsLeft(states[i + 1], states[i + 1].threads[t].pc) <= 10 + 6 * |states[i + 1].handles|
  {
    hide InsertStep;
  }

  /** Main result: since a thread took the mutex it has made at most ten steps, and six for each handle there
      was then; and it can go on. */
  lemma {:induction false} MutexIsGivenBack(states: seq<State>, moves: seq<Move>, i: nat, t: nat)
    requires IsRun(states, moves) && i < |states| && t < |states[i].threads| && InMutex(states[i].threads[t].pc)
    ensures var m := LockedAt(states, i);
            && OwnSteps(moves, m, i, t) + StepsLeft(states[i], states[i].threads[t].pc) <= 10 + 6 * |states[m].handles|
            && Enabled(states[i], t, Step) && StepsLeft(states[i], states[i].threads[t].pc) >= 1
  {
    RunInv(states, moves, i);
    HolderHasWork(states[i], t);
    assert LockOk(states[i], t);
    if i > 0 {
      RunOwnStep(states, moves, i - 1);
      assert LockOk(states[i - 1], t);
      hide IsRun, Inv, InMutex, StepsLeft;
      if InMutex(states[i - 1].threads[t].pc) {
        MutexIsGivenBack(states, moves, i - 1, t);
        HolderMoves(states, moves, i - 1, t);
      } else {
        MutexTaken(states, moves, i - 1, t);
        FirstPoint(states, moves, i - 1, t);
      }
    }
  }

  lemma HolderMoves(states: seq<State>, moves: seq<Move>, i: nat, t: nat)
    requires i < |moves| && OwnStep(states, moves, i, moves[i].tid) && Inv(states[i]) && Inv(states[i + 1])
    requires t < |states[i].threads| && t < |states[i + 1].threads|
    requires InMutex(states[i].threads[t].pc) && InMutex(states[i + 1].threads[t].pc)
    requires t != moves[i].tid ==> states[i + 1].threads[t] == states[i].threads[t]
    ensures states[i + 1].lock == states[i].lock
    ensures StepsLeft(states[i + 1], states[i + 1].threads[t].pc) + (if moves[i].tid == t then 1 else 0)
            <= StepsLeft(states[i], states[i].threads[t].pc)
  {
    assert LockOk(states[i], t) && LockOk(states[i + 1], t);
    if moves[i].tid == t {
      StepsInMutex(states[i], t, moves[i].action);
      HolderAdvances(states[i], t);
    } else {
      OutsiderStep(states, moves, i, t);
      SameLeft(states[i], states[i + 1], states[i].threads[t].pc);
    }
    hide Inv, StepsLeft, Safe, Advance, Call;
  }

  lemma StepsInMutex(s: State, t: nat, a: Action)
    requires Enabled(s, t, a) && InMutex(s.threads[t].pc)
    ensures a == Step
  {
  }

  /** A thread that did not have the mutex and has it now took it with this step. */
  lemma MutexTaken(states: seq<State>, moves: seq<Move>, i: nat, t: nat)
    requires i < |moves| && OwnStep(states, moves, i, moves[i].tid) && Inv(states[i]) && Inv(states[i + 1])
    requires t < |states[i].threads| && t < |states[i + 1].threads|
    requires !InMutex(states[i].threads[t].pc) && InMutex(states[i + 1].threads[t].pc)
    requires t != moves[i].tid ==> states[i + 1].threads[t] == states[i].threads[t]
    ensures moves[i] == Move(t, Step) && Waits(states[i].threads[t].pc) && states[i + 1].lock != states[i].lock
  {
    assert LockOk(states[i], t) && LockOk(states[i + 1], t);
    var s, a := states[i], moves[i].action;
    if !a.Step? {
      CallFrames(s, t, a);
    } else if !Waits(s.threads[t].pc) {
      QuickOnly(s, t);
    }
  }

  lemma QuickOnly(s: State, t: nat)
    requires Enabled(s, t, Step) && Safe(s, t, Step) && !InMutex(s.threads[t].pc) && !Waits(s.threads[t].pc)
    ensures !InMutex(Advance(s, t).th.pc)
  {
    hide EvictStep, InsertStep, EraseStep;
  }
}
