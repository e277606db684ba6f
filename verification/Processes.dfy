/** The process table of kernel/proc.c as a protocol: scheduling, sleep and wakeup,
    fork, exit and wait, on any number of CPUs. A step is a stretch of code that
    runs under one p->lock or under wait_lock; a lock that is held from one step to
    the next is explicit. */
module Processes {

  datatype PState = UNUSED | USED | SLEEPING | RUNNABLE | RUNNING | ZOMBIE

  /** Where a process goes on when it holds no lock: user code or unrelated kernel
      code, the two later parts of kfork() for child np, or the end of sleep() in
      kwait(), about to take wait_lock again. */
  datatype Cont = User | Fork1(np: nat) | Fork2(np: nat) | Again

  /** Where a process is.
      At(k): running, no lock held.
      Scan(i, kids): in the loop of kwait(), at entry i, with wait_lock.
      DozeHeld, DozeFree: in sleep(p, &wait_lock) with p->lock, before and after
      releasing wait_lock.
      Reparent(i), WakeInit(i, j), WakeParent(j): in kexit() with wait_lock: in the
      loop of reparent(), in wakeup(initproc) called from there, in
      wakeup(p->parent).
      Dying, Dead: a zombie with p->lock, before and after releasing wait_lock.
      Leaving(k), Off(k), Back(k): about to switch to the scheduler, with p->lock;
      switched out; switched in again, with p->lock.
      Over: nothing left to run, or an unused entry. */
  datatype Pc =
    | At(k: Cont)
    | Scan(i: nat, kids: bool)
    | DozeHeld
    | DozeFree
    | Reparent(i: nat)
    | WakeInit(i: nat, j: nat)
    | WakeParent(j: nat)
    | Dying
    | Dead
    | Leaving(k: Cont)
    | Off(k: Cont)
    | Back(k: Cont)
    | Over

  /** `cpu` is a history variable: the CPU on whose stack or for whose scheduler
      the process still is, -1 if none. `chan` and `parent` are -1 for none; a
      process as a channel is its index. */
  datatype Proc = Proc(state: PState, chan: int, parent: int, pc: Pc, cpu: int)

  /** In the scheduler looking for a process, running one, or back in the scheduler
      with the lock of the process that just left. */
  datatype Cpu = Idle | Runs(p: nat) | Returning(p: nat)

  /** `plock[p]` is the CPU that holds p->lock, `wlock` the process that holds
      wait_lock, -1 for none. */
  datatype State = State(procs: seq<Proc>, plock: seq<int>, wlock: int, cpus: seq<Cpu>)

  const INIT: nat := 0

  datatype Step =
    | Pick(c: nat, p: nat) | Release(c: nat, p: nat) | Yield(c: nat, p: nat) | SleepOn(c: nat, p: nat, chan: int)
    | Switch(c: nat, p: nat) | SchedReturn(c: nat, p: nat) | WakeAny(q: nat)
    | WaitEnter(c: nat, p: nat) | ScanNext(c: nat, p: nat) | Reap(c: nat, p: nat) | WaitReturn(c: nat, p: nat)
    | DozeStart(c: nat, p: nat) | DozeRelease(c: nat, p: nat) | DozeSleep(c: nat, p: nat)
    | ExitEnter(c: nat, p: nat) | ReparentNext(c: nat, p: nat) | ReparentChild(c: nat, p: nat)
    | WakeNext(c: nat, p: nat)
    | WakeDone(c: nat, p: nat) | ReparentDone(c: nat, p: nat) | ExitDie(c: nat, p: nat) | ExitRelease(c: nat, p: nat)
    | ForkAlloc(c: nat, p: nat, np: nat) | ForkParent(c: nat, p: nat) | ForkReady(c: nat, p: nat)

  predicate Sized(s: State) {
    |s.plock| == |s.procs| && INIT < |s.procs| && -1 <= s.wlock < |s.procs|
  }

  /** Process p takes its next step on CPU c. */
  predicate On(s: State, c: nat, p: nat) {
    Sized(s) && c < |s.cpus| && p < |s.procs| && s.cpus[c] == Runs(p)
  }

  predicate Free(s: State, q: nat) {
    Sized(s) && q < |s.procs| && s.plock[q] == -1
  }

  function Put(s: State, p: nat, proc: Proc): State
    requires p < |s.procs|
  {
    s.(procs := s.procs[p := proc])
  }

  function Goto(s: State, p: nat, pc: Pc): State
    requires p < |s.procs|
  {
    Put(s, p, s.procs[p].(pc := pc))
  }

  // ----- Scheduling -----------------------------------------------------------------------

  /** scheduler() finds p runnable and switches to it. */
  ghost predicate PickStep(s: State, s': State, c: nat, p: nat) {
    && Free(s, p) && c < |s.cpus| && s.cpus[c] == Idle && s.procs[p].state == RUNNABLE && s.procs[p].pc.Off?
    && s' == State(s.procs[p := s.procs[p].(state := RUNNING, pc := Back(s.procs[p].pc.k), cpu := c)],
                   s.plock[p := c], s.wlock, s.cpus[c := Runs(p)])
  }

  /** The end of sleep(), yield() or forkret(): p->lock is released. */
  ghost predicate ReleaseStep(s: State, s': State, c: nat, p: nat) {
    && On(s, c, p) && s.procs[p].pc.Back?
    && s' == Put(s, p, s.procs[p].(chan := -1, pc := At(s.procs[p].pc.k))).(plock := s.plock[p := -1])
  }

  /** yield(), up to sched(). */
  ghost predicate YieldStep(s: State, s': State, c: nat, p: nat) {
    && On(s, c, p) && s.procs[p].pc.At? && Free(s, p)
    && s' == Put(s, p, s.procs[p].(state := RUNNABLE, pc := Leaving(s.procs[p].pc.k))).(plock := s.plock[p := c])
  }

  /** sleep() on a channel that is not a process, up to sched(). */
  ghost predicate SleepOnStep(s: State, s': State, c: nat, p: nat, chan: int) {
    && On(s, c, p) && s.procs[p].pc == At(User) && Free(s, p) && chan >= |s.procs|
    && s' == Put(s, p, s.procs[p].(state := SLEEPING, chan := chan, pc := Leaving(User))).(plock := s.plock[p := c])
  }

  /** swtch() to the scheduler. */
  ghost predicate SwitchStep(s: State, s': State, c: nat, p: nat) {
    && On(s, c, p) && (s.procs[p].pc.Leaving? || s.procs[p].pc.Dead?)
    && s' == Goto(s, p, if s.procs[p].pc.Dead? then Over else Off(s.procs[p].pc.k)).(cpus := s.cpus[c := Returning(p)])
  }

  /** scheduler() after swtch(): c->proc = 0 and the lock is released. */
  ghost predicate SchedReturnStep(s: State, s': State, c: nat, p: nat) {
    && Sized(s) && c < |s.cpus| && p < |s.procs| && s.cpus[c] == Returning(p)
    && s' == State(s.procs[p := s.procs[p].(cpu := -1)], s.plock[p := -1], s.wlock, s.cpus[c := Idle])
  }

  /** One pass of any wakeup() that finds its channel, or of kkill(). */
  ghost predicate WakeAnyStep(s: State, s': State, q: nat) {
    Free(s, q) && s.procs[q].state == SLEEPING && s' == Put(s, q, s.procs[q].(state := RUNNABLE))
  }

  // ----- kwait() -----------------------------------------------------------------------------

  /** acquire(&wait_lock), on entry or at the end of sleep(). */
  ghost predicate WaitEnterStep(s: State, s': State, c: nat, p: nat) {
    && On(s, c, p) && (s.procs[p].pc == At(User) || s.procs[p].pc == At(Again)) && s.wlock == -1
    && s' == Goto(s, p, Scan(0, false)).(wlock := p)
  }

  ghost predicate Scanning(s: State, c: nat, p: nat) {
    On(s, c, p) && s.procs[p].pc.Scan?
  }

  /** The next entry is not a child, or a child that is no zombie. */
  ghost predicate ScanNextStep(s: State, s': State, c: nat, p: nat) {
    && Scanning(s, c, p) && s.procs[p].pc.i < |s.procs|
    && var i, kid := s.procs[p].pc.i, s.procs[s.procs[p].pc.i].parent == p;
       && (kid ==> Free(s, i) && s.procs[i].state != ZOMBIE)
       && s' == Goto(s, p, Scan(i + 1, kid || s.procs[p].pc.kids))
  }

  /** The next entry is a zombie child: freeproc(). */
  ghost predicate ReapStep(s: State, s': State, c: nat, p: nat) {
    && Scanning(s, c, p) && s.procs[p].pc.i < |s.procs| && s.procs[p].pc.i != p
    && var i := s.procs[p].pc.i;
       && s.procs[i].parent == p && Free(s, i) && s.procs[i].state == ZOMBIE
       && s' == Goto(Put(s, i, s.procs[i].(state := UNUSED, chan := -1, parent := -1, pc := Over)), p, At(User))
                .(wlock := -1)
  }

  /** kwait() gives up: no children, killed, or the status cannot be copied out. */
  ghost predicate WaitReturnStep(s: State, s': State, c: nat, p: nat) {
    Scanning(s, c, p) && s' == Goto(s, p, At(User)).(wlock := -1)
  }

  /** sleep(p, &wait_lock): acquire(&p->lock). */
  ghost predicate DozeStartStep(s: State, s': State, c: nat, p: nat) {
    && Scanning(s, c, p) && s.procs[p].pc == Scan(|s.procs|, true) && Free(s, p)
    && s' == Goto(s, p, DozeHeld).(plock := s.plock[p := c])
  }

  /** release(&wait_lock) */
  ghost predicate DozeReleaseStep(s: State, s': State, c: nat, p: nat) {
    On(s, c, p) && s.procs[p].pc == DozeHeld && s' == Goto(s, p, DozeFree).(wlock := -1)
  }

  ghost predicate DozeSleepStep(s: State, s': State, c: nat, p: nat) {
    && On(s, c, p) && s.procs[p].pc == DozeFree
    && s' == Put(s, p, s.procs[p].(state := SLEEPING, chan := p, pc := Leaving(Again)))
  }

  // ----- kexit() -----------------------------------------------------------------------------

  ghost predicate ExitEnterStep(s: State, s': State, c: nat, p: nat) {
    && On(s, c, p) && p != INIT && s.procs[p].pc == At(User) && s.wlock == -1
    && s' == Goto(s, p, Reparent(0)).(wlock := p)
  }

  ghost predicate Reparenting(s: State, c: nat, p: nat) {
    On(s, c, p) && s.procs[p].pc.Reparent?
  }

  ghost predicate ReparentNextStep(s: State, s': State, c: nat, p: nat) {
    && Reparenting(s, c, p) && s.procs[p].pc.i < |s.procs| && s.procs[s.procs[p].pc.i].parent != p
    && s' == Goto(s, p, Reparent(s.procs[p].pc.i + 1))
  }

  ghost predicate ReparentChildStep(s: State, s': State, c: nat, p: nat) {
    && Reparenting(s, c, p) && s.procs[p].pc.i < |s.procs| && s.procs[p].pc.i != p
    && s.procs[s.procs[p].pc.i].parent == p
    && var i := s.procs[p].pc.i;
       s' == Goto(Put(s, i, s.procs[i].(parent := INIT)), p, WakeInit(i, 0))
  }

  /** In one of the two wakeup() calls of kexit(). */
  ghost predicate Waking(s: State, c: nat, p: nat) {
    On(s, c, p) && (s.procs[p].pc.WakeInit? || s.procs[p].pc.WakeParent?)
  }

  function Channel(s: State, p: nat): int
    requires p < |s.procs|
  {
    if s.procs[p].pc.WakeInit? then INIT else s.procs[p].parent
  }

  function Further(pc: Pc): Pc {
    match pc
    case WakeInit(i, j) => WakeInit(i, j + 1)
    case WakeParent(j) => WakeParent(j + 1)
    case _ => pc
  }

  /** One pass of the loop of wakeup(). */
  ghost predicate WakeNextStep(s: State, s': State, c: nat, p: nat) {
    && Waking(s, c, p) && s.procs[p].pc.j < |s.procs|
    && var j := s.procs[p].pc.j;
       if j == p then
         s' == Goto(s, p, Further(s.procs[p].pc))
       else
         && Free(s, j)
         && s' == Goto(if s.procs[j].state == SLEEPING && s.procs[j].chan == Channel(s, p)
                       then Put(s, j, s.procs[j].(state := RUNNABLE)) else s,
                       p, Further(s.procs[p].pc))
  }

  ghost predicate WakeDoneStep(s: State, s': State, c: nat, p: nat) {
    && Waking(s, c, p) && s.procs[p].pc.WakeInit? && s.procs[p].pc.j == |s.procs|
    && s' == Goto(s, p, Reparent(s.procs[p].pc.i + 1))
  }

  ghost predicate ReparentDoneStep(s: State, s': State, c: nat, p: nat) {
    && Reparenting(s, c, p) && s.procs[p].pc.i == |s.procs| && s' == Goto(s, p, WakeParent(0))
  }

  /** acquire(&p->lock); the process becomes a zombie. */
  ghost predicate ExitDieStep(s: State, s': State, c: nat, p: nat) {
    && Waking(s, c, p) && s.procs[p].pc == WakeParent(|s.procs|) && Free(s, p)
    && s' == Put(s, p, s.procs[p].(state := ZOMBIE, pc := Dying)).(plock := s.plock[p := c])
  }

  ghost predicate ExitReleaseStep(s: State, s': State, c: nat, p: nat) {
    On(s, c, p) && s.procs[p].pc == Dying && s' == Goto(s, p, Dead).(wlock := -1)
  }

  // ----- kfork() -----------------------------------------------------------------------------

  ghost predicate ForkAllocStep(s: State, s': State, c: nat, p: nat, np: nat) {
    && On(s, c, p) && s.procs[p].pc == At(User) && Free(s, np) && np != p && s.procs[np].state == UNUSED
    && s' == Goto(Put(s, np, s.procs[np].(state := USED, pc := Off(User))), p, At(Fork1(np)))
  }

  ghost predicate ForkParentStep(s: State, s': State, c: nat, p: nat) {
    && On(s, c, p) && s.procs[p].pc.At? && s.procs[p].pc.k.Fork1? && s.wlock == -1
    && var np := s.procs[p].pc.k.np;
       np < |s.procs| && np != p && s' == Goto(Put(s, np, s.procs[np].(parent := p)), p, At(Fork2(np)))
  }

  ghost predicate ForkReadyStep(s: State, s': State, c: nat, p: nat) {
    && On(s, c, p) && s.procs[p].pc.At? && s.procs[p].pc.k.Fork2?
    && var np := s.procs[p].pc.k.np;
       Free(s, np) && np != p && s' == Goto(Put(s, np, s.procs[np].(state := RUNNABLE)), p, At(User))
  }

  ghost predicate SchedNext(s: State, s': State, step: Step) {
    match step
    case Pick(c, p) => PickStep(s, s', c, p)
    case Release(c, p) => ReleaseStep(s, s', c, p)
    case Yield(c, p) => YieldStep(s, s', c, p)
    case SleepOn(c, p, chan) => SleepOnStep(s, s', c, p, chan)
    case Switch(c, p) => SwitchStep(s, s', c, p)
    case SchedReturn(c, p) => SchedReturnStep(s, s', c, p)
    case WakeAny(q) => WakeAnyStep(s, s', q)
    case _ => false
  }

  ghost predicate WaitNext(s: State, s': State, step: Step) {
    match step
    case WaitEnter(c, p) => WaitEnterStep(s, s', c, p)
    case ScanNext(c, p) => ScanNextStep(s, s', c, p)
    case Reap(c, p) => ReapStep(s, s', c, p)
    case WaitReturn(c, p) => WaitReturnStep(s, s', c, p)
    case DozeStart(c, p) => DozeStartStep(s, s', c, p)
    case DozeRelease(c, p) => DozeReleaseStep(s, s', c, p)
    case DozeSleep(c, p) => DozeSleepStep(s, s', c, p)
    case _ => false
  }

  ghost predicate ExitNext(s: State, s': State, step: Step) {
    match step
    case ExitEnter(c, p) => ExitEnterStep(s, s', c, p)
    case ReparentNext(c, p) => ReparentNextStep(s, s', c, p)
    case ReparentChild(c, p) => ReparentChildStep(s, s', c, p)
    case WakeNext(c, p) => WakeNextStep(s, s', c, p)
    case WakeDone(c, p) => WakeDoneStep(s, s', c, p)
    case ReparentDone(c, p) => ReparentDoneStep(s, s', c, p)
    case ExitDie(c, p) => ExitDieStep(s, s', c, p)
    case ExitRelease(c, p) => ExitReleaseStep(s, s', c, p)
    case _ => false
  }

  ghost predicate ForkNext(s: State, s': State, step: Step) {
    match step
    case ForkAlloc(c, p, np) => ForkAllocStep(s, s', c, p, np)
    case ForkParent(c, p) => ForkParentStep(s, s', c, p)
    case ForkReady(c, p) => ForkReadyStep(s, s', c, p)
    case _ => false
  }

  ghost predicate Next(s: State, s': State, step: Step) {
    SchedNext(s, s', step) || WaitNext(s, s', step) || ExitNext(s, s', step) || ForkNext(s, s', step)
  }

  /** All CPUs idle; the first process ready, the other entries unused. */
  ghost predicate Init(s: State) {
    && Sized(s) && s.wlock == -1 && (forall c :: 0 <= c < |s.cpus| ==> s.cpus[c] == Idle)
    && (forall p :: 0 <= p < |s.procs| ==> s.plock[p] == -1)
    && s.procs[INIT] == Proc(RUNNABLE, -1, -1, Off(User), -1)
    && (forall p :: 0 <= p < |s.procs| && p != INIT ==> s.procs[p] == Proc(UNUSED, -1, -1, Over, -1))
  }
}
