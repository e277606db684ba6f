/** The sleep lock of kernel/sleeplock.c on top of sleep() and wakeup(): any number of
    processes calling acquiresleep() and releasesleep() on one lock. A step is a
    stretch of code under lk->lk or one p->lock; a lock held from one step to the
    next is explicit. */
module SleepLock {

  /** Where a process is.
      Out: not concerned with the lock.
      Test: in acquiresleep() with lk->lk, at the test of the loop.
      DozeHeld, DozeFree: in sleep() with p->lock, before and after releasing lk->lk.
      Asleep: switched out in state SLEEPING.  Woken: runnable again, to take lk->lk.
      Owner: has the sleep lock.
      Waking(j): in releasesleep() with lk->lk, wakeup() has come to entry j. */
  datatype Pc = Out | Test | DozeHeld | DozeFree | Asleep | Woken | Owner | Waking(j: nat)

  /** `locked` and `pid` (here the index of the process, -1 for none) are the fields of
      the lock, `lk` is the process that holds lk->lk, -1 for none. */
  datatype State = State(locked: bool, pid: int, lk: int, pcs: seq<Pc>)

  datatype Step =
    | Enter(p: nat) | Take(p: nat) | DozeStart(p: nat) | DozeRelease(p: nat) | Sleep(p: nat) | WakeAny(p: nat)
    | Release(p: nat) | WakeNext(p: nat) | Done(p: nat)

  predicate At(s: State, p: nat, pc: Pc) {
    p < |s.pcs| && s.pcs[p] == pc
  }

  function Goto(s: State, p: nat, pc: Pc): State
    requires p < |s.pcs|
  {
    s.(pcs := s.pcs[p := pc])
  }

  /** p->lock is held by p itself, on its way to sleep. */
  predicate LockedSelf(pc: Pc) {
    pc == DozeHeld || pc == DozeFree
  }

  ghost predicate Next(s: State, s': State, step: Step) {
    match step
    // acquire(&lk->lk), at the start or at the end of sleep()
    case Enter(p) => (At(s, p, Out) || At(s, p, Woken)) && s.lk == -1 && s' == Goto(s, p, Test).(lk := p)
    // the lock is free: locked = 1, pid, release(&lk->lk)
    case Take(p) => At(s, p, Test) && !s.locked && s' == Goto(s, p, Owner).(locked := true, pid := p, lk := -1)
    // sleep(): acquire(&p->lock)
    case DozeStart(p) => At(s, p, Test) && s.locked && s' == Goto(s, p, DozeHeld)
    // release(&lk->lk)
    case DozeRelease(p) => At(s, p, DozeHeld) && s' == Goto(s, p, DozeFree).(lk := -1)
    // state = SLEEPING; the scheduler releases p->lock
    case Sleep(p) => At(s, p, DozeFree) && s' == Goto(s, p, Asleep)
    // kkill(), or a wakeup() that is not ours
    case WakeAny(p) => At(s, p, Asleep) && s' == Goto(s, p, Woken)
    // releasesleep(): acquire(&lk->lk), locked = 0, pid = 0
    case Release(p) =>
      At(s, p, Owner) && s.lk == -1 && s' == Goto(s, p, Waking(0)).(locked := false, pid := -1, lk := p)
    // one pass of wakeup()
    case WakeNext(p) =>
      && p < |s.pcs| && s.pcs[p].Waking? && s.pcs[p].j < |s.pcs|
      && var j := s.pcs[p].j;
         if j == p then
           s' == Goto(s, p, Waking(j + 1))
         else
           !LockedSelf(s.pcs[j]) && s' == Goto(if s.pcs[j] == Asleep then Goto(s, j, Woken) else s, p, Waking(j + 1))
    // release(&lk->lk)
    case Done(p) => At(s, p, Waking(|s.pcs|)) && s' == Goto(s, p, Out).(lk := -1)
  }

  ghost predicate Init(s: State) {
    !s.locked && s.pid == -1 && s.lk == -1 && forall p :: 0 <= p < |s.pcs| ==> s.pcs[p] == Out
  }

  // ----- The invariant ------------------------------------------------------------------

  predicate HoldsLk(pc: Pc) {
    pc == Test || pc == DozeHeld || pc.Waking?
  }

  /** Asleep, or bound to be before anyone can take its p->lock. */
  predicate Dozing(pc: Pc) {
    pc == DozeHeld || pc == DozeFree || pc == Asleep
  }

  ghost predicate LkOk(s: State) {
    forall p :: 0 <= p < |s.pcs| ==> (HoldsLk(s.pcs[p]) <==> s.lk == p)
  }

  /** The lock is locked exactly if one process has it, and pid says which. */
  ghost predicate OwnerOk(s: State) {
    && -1 <= s.pid < |s.pcs| && (s.locked <==> s.pid != -1)
    && forall p :: 0 <= p < |s.pcs| ==> (s.pcs[p] == Owner <==> s.pid == p)
  }

  /** While the lock is free, whoever dozes is still to be reached by wakeup(). */
  ghost predicate NoLost(s: State) {
    !s.locked ==> forall p :: 0 <= p < |s.pcs| && Dozing(s.pcs[p]) ==>
        0 <= s.lk < |s.pcs| && s.pcs[s.lk].Waking? && s.pcs[s.lk].j <= p
  }

  ghost predicate Inv(s: State) {
    LkOk(s) && OwnerOk(s) && NoLost(s)
  }

  lemma LkKept(s: State, s': State, step: Step)
    requires LkOk(s) && Next(s, s', step)
    ensures LkOk(s')
  {
    assert HoldsLk(s.pcs[step.p]) <==> s.lk == step.p;
  }

  lemma OwnerKept(s: State, s': State, step: Step)
    requires OwnerOk(s) && Next(s, s', step)
    ensures OwnerOk(s')
  {
    assert s.pcs[step.p] == Owner <==> s.pid == step.p;
  }

  /** Who dozes after the step, and dozed before it, is where they were; the one who
      starts to doze finds the lock locked. */
  lemma DozeKept(s: State, s': State, step: Step, p: nat)
    requires LkOk(s) && NoLost(s) && Next(s, s', step) && !s'.locked && p < |s'.pcs| && Dozing(s'.pcs[p])
    ensures 0 <= s'.lk < |s'.pcs| && s'.pcs[s'.lk].Waking? && s'.pcs[s'.lk].j <= p
  {
    assert HoldsLk(s.pcs[step.p]) <==> s.lk == step.p;
  }

  lemma NextInv(s: State, s': State, step: Step)
    requires Inv(s) && Next(s, s', step)
    ensures Inv(s')
  {
    LkKept(s, s', step);
    OwnerKept(s, s', step);
    if !s'.locked {
      forall p | 0 <= p < |s'.pcs| && Dozing(s'.pcs[p])
        ensures 0 <= s'.lk < |s'.pcs| && s'.pcs[s'.lk].Waking? && s'.pcs[s'.lk].j <= p {
        DozeKept(s, s', step, p);
      }
    }
  }

  ghost predicate IsRun(run: seq<State>, steps: seq<Step>) {
    && |run| == |steps| + 1 && Init(run[0])
    && forall i :: 0 <= i < |steps| ==> Next(run[i], run[i + 1], steps[i])
  }

  lemma {:induction false} RunInv(run: seq<State>, steps: seq<Step>, i: nat)
    requires IsRun(run, steps) && i < |run|
    ensures Inv(run[i])
    decreases i
  {
    if i > 0 {
      RunInv(run, steps, i - 1);
      NextInv(run[i - 1], run[i], steps[i - 1]);
    }
  }

  /** Mutual exclusion, and holdingsleep() tells the truth: in every run a process has
      the lock exactly if it is locked with its pid. */
  lemma MutualExclusion(run: seq<State>, steps: seq<Step>, i: nat, p: nat)
    requires IsRun(run, steps) && i < |run| && p < |run[i].pcs|
    ensures run[i].pcs[p] == Owner <==> run[i].locked && run[i].pid == p
    ensures forall q :: 0 <= q < |run[i].pcs| && run[i].pcs[p] == Owner == run[i].pcs[q] ==> q == p
  {
    RunInv(run, steps, i);
  }

  /** No wakeup is lost: in every run, when the lock is free and so is lk->lk, nobody is
      asleep waiting for it or about to be. */
  lemma NobodySleepsOnFreeLock(run: seq<State>, steps: seq<Step>, i: nat, p: nat)
    requires IsRun(run, steps) && i < |run| && p < |run[i].pcs| && !run[i].locked && run[i].lk == -1
    ensures !Dozing(run[i].pcs[p])
  {
    RunInv(run, steps, i);
  }
}
