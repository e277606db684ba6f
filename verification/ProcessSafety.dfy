/** What every run of the process table keeps: scheduling safety, and no wakeup
    lost between exit and wait. */
module ProcessSafety {
  import opened Processes

  // ----- The invariant ------------------------------------------------------------------------

  predicate CpuAt(s: State, c: int, x: Cpu) {
    0 <= c < |s.cpus| && s.cpus[c] == x
  }

  /** A CPU has a process to itself. */
  ghost predicate CpusOk(s: State) {
    forall c :: 0 <= c < |s.cpus| && s.cpus[c] != Idle ==> s.cpus[c].p < |s.procs| && s.procs[s.cpus[c].p].cpu == c
  }

  /** Switched out for good or for now: p->lock is free, or the scheduler that p
      came back to still holds it. */
  predicate Out(s: State, p: nat)
    requires Sized(s) && p < |s.procs|
  {
    || (s.procs[p].cpu == -1 && s.plock[p] == -1)
    || (CpuAt(s, s.procs[p].cpu, Returning(p)) && s.plock[p] == s.procs[p].cpu)
  }

  /** What a process's place in the code says of its state, its lock and its CPU. */
  predicate ProcOk(s: State, p: nat)
    requires Sized(s) && p < |s.procs|
  {
    var q := s.procs[p];
    var runs := CpuAt(s, q.cpu, Runs(p));
    match q.pc
    case At(_) => runs && q.state == RUNNING && s.plock[p] == -1
    case Scan(_, _) => runs && q.state == RUNNING && s.plock[p] == -1
    case Reparent(_) => runs && q.state == RUNNING && s.plock[p] == -1
    case WakeInit(_, _) => runs && q.state == RUNNING && s.plock[p] == -1
    case WakeParent(_) => runs && q.state == RUNNING && s.plock[p] == -1
    case DozeHeld => runs && q.state == RUNNING && s.plock[p] == q.cpu
    case DozeFree => runs && q.state == RUNNING && s.plock[p] == q.cpu
    case Back(_) => runs && q.state == RUNNING && s.plock[p] == q.cpu
    case Leaving(_) => runs && (q.state == SLEEPING || q.state == RUNNABLE) && s.plock[p] == q.cpu
    case Dying => runs && q.state == ZOMBIE && s.plock[p] == q.cpu
    case Dead => runs && q.state == ZOMBIE && s.plock[p] == q.cpu
    case Off(k) =>
      Out(s, p) && (q.state == SLEEPING || q.state == RUNNABLE || (q.state == USED && q.cpu == -1 && k == User))
    case Over => Out(s, p) && (q.state == ZOMBIE || (q.state == UNUSED && q.cpu == -1))
  }

  ghost predicate ProcsOk(s: State) {
    Sized(s) && forall p :: 0 <= p < |s.procs| ==> ProcOk(s, p)
  }

  predicate HoldsWait(pc: Pc) {
    pc.Scan? || pc.DozeHeld? || pc.Reparent? || pc.WakeInit? || pc.WakeParent? || pc.Dying?
  }

  ghost predicate WaitOk(s: State) {
    forall p :: 0 <= p < |s.procs| ==> (HoldsWait(s.procs[p].pc) <==> s.wlock == p)
  }

  /** Which child a process is in the middle of forking, -1 if none. */
  function Forking(pc: Pc): int {
    if (pc.At? || pc.Leaving? || pc.Off? || pc.Back?) && (pc.k.Fork1? || pc.k.Fork2?) then pc.k.np else -1
  }

  predicate SameChild(a: Pc, b: Pc) {
    Forking(a) == Forking(b) != -1
  }

  ghost predicate ForksOk(s: State) {
    && (forall p :: 0 <= p < |s.procs| && Forking(s.procs[p].pc) != -1 ==>
          && Forking(s.procs[p].pc) < |s.procs| && Forking(s.procs[p].pc) != p
          && s.procs[Forking(s.procs[p].pc)].state == USED)
    && (forall p, q :: 0 <= p < |s.procs| && 0 <= q < |s.procs| && SameChild(s.procs[p].pc, s.procs[q].pc) ==> p == q)
  }

  predicate Alive(st: PState) {
    st == SLEEPING || st == RUNNABLE || st == RUNNING
  }

  /** In kexit(), child q has already been given to init. */
  predicate GaveAway(pc: Pc, q: nat) {
    match pc
    case Reparent(i) => q < i
    case WakeInit(i, _) => q <= i
    case WakeParent(_) => true
    case _ => false
  }

  predicate Exiting(pc: Pc) {
    pc.Reparent? || pc.WakeInit? || pc.WakeParent? || pc.Dying? || pc.Dead? || pc.Over?
  }

  /** A process's parent is a live process that has not given it away. */
  predicate FamilyOk(s: State, q: nat)
    requires q < |s.procs|
  {
    var p := s.procs[q].parent;
    p == -1 || (0 <= p < |s.procs| && p != q && Alive(s.procs[p].state) && !GaveAway(s.procs[p].pc, q))
  }

  ghost predicate Families(s: State) {
    && INIT < |s.procs| && s.procs[INIT].parent == -1 && Alive(s.procs[INIT].state) && !Exiting(s.procs[INIT].pc)
    && (forall q :: 0 <= q < |s.procs| ==> FamilyOk(s, q))
  }

  /** Among the first i entries there is no zombie child of p. */
  ghost predicate NoZombieKids(s: State, p: nat, i: nat) {
    i <= |s.procs| && forall q :: 0 <= q < i && s.procs[q].parent == p ==> s.procs[q].state != ZOMBIE
  }

  ghost predicate ScanOk(s: State, p: nat)
    requires p < |s.procs|
  {
    && (s.procs[p].pc.Scan? ==> NoZombieKids(s, p, s.procs[p].pc.i))
    && (s.procs[p].pc.DozeHeld? ==> NoZombieKids(s, p, |s.procs|))
  }

  ghost predicate ScansOk(s: State) {
    forall p :: 0 <= p < |s.procs| ==> ScanOk(s, p)
  }

  predicate Switched(pc: Pc) {
    pc == Leaving(Again) || pc == Off(Again)
  }

  /** Asleep in kwait(), or bound to be before anyone can take its lock. */
  predicate Dozing(s: State, p: nat)
    requires p < |s.procs|
  {
    s.procs[p].pc.DozeHeld? || s.procs[p].pc.DozeFree? || (Switched(s.procs[p].pc) && s.procs[p].state == SLEEPING)
  }

  ghost predicate ChansOk(s: State) {
    forall p :: 0 <= p < |s.procs| && Switched(s.procs[p].pc) && s.procs[p].state == SLEEPING ==> s.procs[p].chan == p
  }

  /** How far the wakeup() calls of kexit() have come. */
  predicate WakeOk(s: State, x: nat)
    requires x < |s.procs| && INIT < |s.procs|
  {
    match s.procs[x].pc
    case WakeInit(i, j) => i < |s.procs| && j <= |s.procs| && (INIT < j ==> !Dozing(s, INIT))
    case WakeParent(j) => j <= |s.procs| && (0 <= s.procs[x].parent < j ==> !Dozing(s, s.procs[x].parent))
    case _ => true
  }

  ghost predicate WakesOk(s: State) {
    INIT < |s.procs| && forall x :: 0 <= x < |s.procs| ==> WakeOk(s, x)
  }

  /** reparent() has given init a child and is still to wake it. */
  predicate WillWakeInit(s: State) {
    0 <= s.wlock < |s.procs| && s.procs[s.wlock].pc.WakeInit? && s.procs[s.wlock].pc.j <= INIT
  }

  ghost predicate NoLost(s: State) {
    forall p, q :: 0 <= p < |s.procs| && 0 <= q < |s.procs| && Dozing(s, p) && s.procs[q].parent == p &&
                              s.procs[q].state == ZOMBIE ==>
      p == INIT && WillWakeInit(s)
  }

  /** A process that has started and not been freed. */
  predicate Started(st: PState) {
    Alive(st) || st == ZOMBIE
  }

  /** Whose parent a process in kfork() has set, -1 if none. */
  function Adopted(pc: Pc): int {
    if (pc.At? || pc.Leaving? || pc.Off? || pc.Back?) && pc.k.Fork2? then pc.k.np else -1
  }

  predicate HasParent(s: State, q: nat)
    requires q < |s.procs|
  {
    q != INIT && Started(s.procs[q].state) ==> s.procs[q].parent != -1
  }

  predicate AdoptedOk(s: State, p: nat)
    requires p < |s.procs|
  {
    Adopted(s.procs[p].pc) != -1 ==>
      0 <= Adopted(s.procs[p].pc) < |s.procs| && s.procs[Adopted(s.procs[p].pc)].parent != -1
  }

  ghost predicate NoOrphans(s: State) {
    forall q :: 0 <= q < |s.procs| ==> HasParent(s, q) && AdoptedOk(s, q)
  }

  ghost predicate Inv(s: State) {
    && ProcsOk(s) && CpusOk(s) && WaitOk(s) && ForksOk(s) && Families(s)
    && ScansOk(s) && ChansOk(s) && WakesOk(s) && NoLost(s) && NoOrphans(s)
  }

  // ----- The shape of a step ---------------------------------------------------------------------

  /** The process that takes the step, or that is woken by it. */
  function Mover(step: Step): nat {
    if step.WakeAny? then step.q else step.p
  }

  /** What a step other than fork's may do to a process that does not take it. */
  ghost predicate Passive(a: Proc, b: Proc, free: bool) {
    || b == a
    || (free && a.state == SLEEPING && b == a.(state := RUNNABLE))
    || (free && a.state == ZOMBIE && b == a.(state := UNUSED, chan := -1, parent := -1, pc := Over))
    || (0 <= b.parent && b == a.(parent := b.parent))
  }

  /** What fork's steps may do. */
  ghost predicate Forked(a: Proc, b: Proc, free: bool) {
    || b == a
    || (free && a.state == UNUSED && b == a.(state := USED, pc := Off(User)))
    || (free && a.state == USED && b == a.(state := RUNNABLE))
    || (a.state == USED && 0 <= b.parent && b == a.(parent := b.parent))
  }

  ghost predicate Framed(s: State, s': State, p: nat, fork: bool) {
    && Sized(s) && Sized(s') && |s'.procs| == |s.procs| && |s'.cpus| == |s.cpus| && p < |s.procs|
    && (forall r :: 0 <= r < |s.procs| && r != p ==> s'.plock[r] == s.plock[r])
    && (forall r :: 0 <= r < |s.procs| && r != p ==>
          if fork then Forked(s.procs[r], s'.procs[r], s.plock[r] == -1)
          else Passive(s.procs[r], s'.procs[r], s.plock[r] == -1))
    && (forall c :: 0 <= c < |s.cpus| && s'.cpus[c] != s.cpus[c] ==> s.cpus[c] == Idle || s.cpus[c].p == p)
  }

  lemma SchedFramed(s: State, s': State, step: Step)
    requires SchedNext(s, s', step)
    ensures Framed(s, s', Mover(step), false)
  {
  }

  lemma WaitFramed(s: State, s': State, step: Step)
    requires WaitNext(s, s', step)
    ensures Framed(s, s', Mover(step), false)
  {
  }

  lemma ExitFramed(s: State, s': State, step: Step)
    requires ExitNext(s, s', step)
    ensures Framed(s, s', Mover(step), false)
  {
  }

  lemma ForkFramed(s: State, s': State, step: Step)
    requires ForksOk(s) && ForkNext(s, s', step)
    ensures Framed(s, s', Mover(step), true)
  {
  }

  lemma StepFramed(s: State, s': State, step: Step)
    requires ForksOk(s) && Next(s, s', step)
    ensures Framed(s, s', Mover(step), ForkNext(s, s', step))
  {
    if SchedNext(s, s', step) {
      SchedFramed(s, s', step);
    } else if WaitNext(s, s', step) {
      WaitFramed(s, s', step);
    } else if ExitNext(s, s', step) {
      ExitFramed(s, s', step);
    } else {
      ForkFramed(s, s', step);
    }
  }

  // ----- Scheduling -----------------------------------------------------------------------------

  /** The process that takes the step is on the CPU of the step. */
  ghost predicate Seated(s: State, step: Step) {
    step.WakeAny? || step.Pick? || (step.p < |s.procs| && s.procs[step.p].cpu == step.c)
  }

  lemma SchedMover(s: State, s': State, step: Step)
    requires SchedNext(s, s', step) && Mover(step) < |s.procs| && ProcOk(s, Mover(step)) && Seated(s, step)
    ensures Sized(s') && Mover(step) < |s'.procs| && ProcOk(s', Mover(step))
  {
  }

  lemma WaitMover(s: State, s': State, step: Step)
    requires WaitNext(s, s', step) && Mover(step) < |s.procs| && ProcOk(s, Mover(step)) && Seated(s, step)
    ensures Sized(s') && Mover(step) < |s'.procs| && ProcOk(s', Mover(step))
  {
  }

  lemma ExitMover(s: State, s': State, step: Step)
    requires ExitNext(s, s', step) && Mover(step) < |s.procs| && ProcOk(s, Mover(step)) && Seated(s, step)
    ensures Sized(s') && Mover(step) < |s'.procs| && ProcOk(s', Mover(step))
  {
  }

  lemma ForkMover(s: State, s': State, step: Step)
    requires ForkNext(s, s', step) && Mover(step) < |s.procs| && ProcOk(s, Mover(step)) && Seated(s, step)
    ensures Sized(s') && Mover(step) < |s'.procs| && ProcOk(s', Mover(step))
  {
  }

  lemma PassiveOk(s: State, s': State, p: nat, r: nat, fork: bool)
    requires Framed(s, s', p, fork) && r < |s.procs| && r != p && ProcOk(s, r)
    ensures ProcOk(s', r)
  {
  }

  lemma SchedSeated(s: State, s': State, step: Step)
    requires CpusOk(s) && SchedNext(s, s', step)
    ensures Seated(s, step)
  {
  }

  lemma OthersSeated(s: State, s': State, step: Step)
    requires CpusOk(s) && (WaitNext(s, s', step) || ExitNext(s, s', step) || ForkNext(s, s', step))
    ensures Seated(s, step)
  {
  }

  lemma ProcsKept(s: State, s': State, step: Step)
    requires ProcsOk(s) && CpusOk(s) && ForksOk(s) && Next(s, s', step)
    ensures ProcsOk(s')
  {
    StepFramed(s, s', step);
    var p := Mover(step);
    if SchedNext(s, s', step) {
      SchedSeated(s, s', step);
      SchedMover(s, s', step);
    } else {
      OthersSeated(s, s', step);
      if WaitNext(s, s', step) {
        WaitMover(s, s', step);
      } else if ExitNext(s, s', step) {
        ExitMover(s, s', step);
      } else {
        ForkMover(s, s', step);
      }
    }
    forall r | 0 <= r < |s'.procs| && r != p ensures ProcOk(s', r) {
      PassiveOk(s, s', p, r, ForkNext(s, s', step));
    }
  }

  lemma SchedCpus(s: State, s': State, step: Step)
    requires ProcsOk(s) && CpusOk(s) && SchedNext(s, s', step)
    ensures CpusOk(s')
  {
    assert ProcOk(s, Mover(step));
  }

  /** The other steps leave the CPUs alone. */
  lemma SameCpus(s: State, s': State, step: Step)
    requires WaitNext(s, s', step) || ExitNext(s, s', step) || ForkNext(s, s', step)
    ensures s'.cpus == s.cpus && |s'.procs| == |s.procs|
    ensures forall r :: 0 <= r < |s.procs| ==> s'.procs[r].cpu == s.procs[r].cpu
  {
  }

  lemma CpusKept(s: State, s': State, step: Step)
    requires ProcsOk(s) && CpusOk(s) && Next(s, s', step)
    ensures CpusOk(s')
  {
    if SchedNext(s, s', step) { SchedCpus(s, s', step); } else { SameCpus(s, s', step); }
  }

  // ----- Steps outside exit and wait ----------------------------------------------------------------

  /** A step that does not show in the exit and wait protocol. */
  ghost predicate Calm(s: State, s': State) {
    && |s'.procs| == |s.procs| && INIT < |s.procs| && s'.wlock == s.wlock
    && (forall r :: 0 <= r < |s.procs| ==> CalmProc(s.procs[r], s'.procs[r]))
    && (forall r :: 0 <= r < |s.procs| ==> (Dozing(s', r) ==> Dozing(s, r)))
  }

  ghost predicate CalmProc(a: Proc, b: Proc) {
    && (HoldsWait(a.pc) || HoldsWait(b.pc) ==> b.pc == a.pc)
    && (b.state == ZOMBIE <==> a.state == ZOMBIE) && (Alive(a.state) ==> Alive(b.state))
    && (Exiting(b.pc) ==> Exiting(a.pc))
    && (b.parent == a.parent || (a.state == USED && 0 <= b.parent))
    && (Switched(b.pc) && b.state == SLEEPING ==> Switched(a.pc) && a.state == SLEEPING && b.chan == a.chan)
  }

  lemma SchedCalmAt(s: State, s': State, step: Step, r: nat)
    requires ProcsOk(s) && SchedNext(s, s', step) && r < |s.procs|
    ensures |s'.procs| == |s.procs| && CalmProc(s.procs[r], s'.procs[r]) && (Dozing(s', r) ==> Dozing(s, r))
  {
    assert ProcOk(s, Mover(step));
  }

  lemma SchedCalm(s: State, s': State, step: Step)
    requires ProcsOk(s) && SchedNext(s, s', step)
    ensures Calm(s, s')
  {
    assert |s'.procs| == |s.procs| && s'.wlock == s.wlock;
    forall r | 0 <= r < |s.procs| ensures CalmProc(s.procs[r], s'.procs[r]) && (Dozing(s', r) ==> Dozing(s, r)) {
      SchedCalmAt(s, s', step, r);
    }
  }

  lemma ForkCalmProc(s: State, s': State, step: Step, r: nat)
    requires ForkNext(s, s', step) && r < |s.procs| && ProcOk(s, r)
    requires Forking(s.procs[step.p].pc) == r ==> s.procs[r].state == USED
    ensures |s'.procs| == |s.procs| && CalmProc(s.procs[r], s'.procs[r]) && (Dozing(s', r) ==> Dozing(s, r))
  {
  }

  lemma ForkCalm(s: State, s': State, step: Step)
    requires ProcsOk(s) && ForksOk(s) && ForkNext(s, s', step)
    ensures Calm(s, s')
  {
    forall r | 0 <= r < |s.procs|
      ensures |s'.procs| == |s.procs| && CalmProc(s.procs[r], s'.procs[r]) && (Dozing(s', r) ==> Dozing(s, r)) {
      ForkCalmProc(s, s', step, r);
    }
  }

  lemma CalmWaits(s: State, s': State)
    requires Calm(s, s') && WaitOk(s) && ChansOk(s)
    ensures WaitOk(s') && ChansOk(s')
  {
    forall p | 0 <= p < |s'.procs| ensures HoldsWait(s'.procs[p].pc) <==> s'.wlock == p {
      assert CalmProc(s.procs[p], s'.procs[p]);
    }
    forall p | 0 <= p < |s'.procs| && Switched(s'.procs[p].pc) && s'.procs[p].state == SLEEPING
      ensures s'.procs[p].chan == p {
      assert CalmProc(s.procs[p], s'.procs[p]);
    }
  }

  /** A process USED for the first time is nobody's concern yet. */
  ghost predicate NewBorn(s: State) {
    forall r :: 0 <= r < |s.procs| && s.procs[r].state == USED ==> !HoldsWait(s.procs[r].pc)
  }

  lemma CalmScans(s: State, s': State)
    requires Calm(s, s') && ScansOk(s)
    ensures ScansOk(s')
  {
    forall p | 0 <= p < |s'.procs| ensures ScanOk(s', p) {
      assert CalmProc(s.procs[p], s'.procs[p]) && ScanOk(s, p);
      forall q | 0 <= q < |s.procs| && s'.procs[q].parent == p && s'.procs[q].state == ZOMBIE
        ensures s.procs[q].parent == p && s.procs[q].state == ZOMBIE
      {
        assert CalmProc(s.procs[q], s'.procs[q]);
      }
    }
  }

  lemma CalmWakes(s: State, s': State)
    requires Calm(s, s') && WakesOk(s) && NewBorn(s)
    ensures WakesOk(s')
  {
    forall x | 0 <= x < |s'.procs| ensures WakeOk(s', x) {
      assert CalmProc(s.procs[x], s'.procs[x]) && WakeOk(s, x);
    }
  }

  lemma CalmLost(s: State, s': State)
    requires Calm(s, s') && NoLost(s)
    ensures NoLost(s')
  {
    forall p, q | 0 <= p < |s'.procs| && 0 <= q < |s'.procs| && Dozing(s', p) && s'.procs[q].parent == p &&
                  s'.procs[q].state == ZOMBIE
      ensures p == INIT && WillWakeInit(s')
    {
      assert CalmProc(s.procs[q], s'.procs[q]);
      assert CalmProc(s.procs[s.wlock], s'.procs[s.wlock]);
    }
  }

  lemma CalmFamilies(s: State, s': State)
    requires Calm(s, s') && Families(s)
    requires forall q :: 0 <= q < |s.procs| && s'.procs[q].parent != s.procs[q].parent ==> FamilyOk(s', q)
    ensures Families(s')
  {
    assert CalmProc(s.procs[INIT], s'.procs[INIT]);
    forall q | 0 <= q < |s'.procs| && s'.procs[q].parent == s.procs[q].parent ensures FamilyOk(s', q) {
      assert FamilyOk(s, q);
      var p := s.procs[q].parent;
      if p != -1 { assert CalmProc(s.procs[p], s'.procs[p]); }
    }
  }

  lemma SchedParents(s: State, s': State, step: Step)
    requires SchedNext(s, s', step)
    ensures |s'.procs| == |s.procs| && forall q :: 0 <= q < |s.procs| ==> s'.procs[q].parent == s.procs[q].parent
  {
  }

  lemma ForkParents(s: State, s': State, step: Step, q: nat)
    requires ForkNext(s, s', step) && q < |s.procs| && ProcOk(s, step.p)
    ensures |s'.procs| == |s.procs| && (s'.procs[q].parent != s.procs[q].parent ==> FamilyOk(s', q))
  {
  }

  lemma NoNewBornWaits(s: State)
    requires ProcsOk(s)
    ensures NewBorn(s)
  {
    forall r | 0 <= r < |s.procs| && s.procs[r].state == USED ensures !HoldsWait(s.procs[r].pc) {
      assert ProcOk(s, r);
    }
  }

  /** The exit and wait part of the invariant. */
  ghost predicate Protocol(s: State) {
    WaitOk(s) && Families(s) && ScansOk(s) && ChansOk(s) && WakesOk(s) && NoLost(s)
  }

  lemma CalmKept(s: State, s': State)
    requires ProcsOk(s) && Protocol(s) && Calm(s, s')
    requires forall q :: 0 <= q < |s.procs| && s'.procs[q].parent != s.procs[q].parent ==> FamilyOk(s', q)
    ensures Protocol(s')
  {
    NoNewBornWaits(s);
    CalmWaits(s, s');
    CalmFamilies(s, s');
    CalmScans(s, s');
    CalmWakes(s, s');
    CalmLost(s, s');
  }

  // ----- fork ---------------------------------------------------------------------------------------

  ghost predicate SameForks(s: State, s': State) {
    && |s'.procs| == |s.procs|
    && (forall r :: 0 <= r < |s.procs| ==>
          Forking(s'.procs[r].pc) == Forking(s.procs[r].pc) || Forking(s'.procs[r].pc) == -1)
    && (forall r :: 0 <= r < |s.procs| && s.procs[r].state == USED ==> s'.procs[r].state == USED)
  }

  lemma SameForksKept(s: State, s': State)
    requires SameForks(s, s') && ForksOk(s)
    ensures ForksOk(s')
  {
  }

  lemma SchedForks(s: State, s': State, step: Step)
    requires ProcsOk(s) && SchedNext(s, s', step)
    ensures SameForks(s, s')
  {
    assert ProcOk(s, Mover(step));
  }

  lemma WaitForks(s: State, s': State, step: Step)
    requires ProcsOk(s) && WaitNext(s, s', step)
    ensures SameForks(s, s')
  {
    assert ProcOk(s, Mover(step));
  }

  lemma ExitForks(s: State, s': State, step: Step)
    requires ProcsOk(s) && ExitNext(s, s', step)
    ensures SameForks(s, s')
  {
    assert ProcOk(s, Mover(step));
  }

  lemma ForkAllocForks(s: State, s': State, c: nat, p: nat, np: nat)
    requires ProcsOk(s) && ForksOk(s) && ForkAllocStep(s, s', c, p, np)
    ensures ForksOk(s')
  {
    assert ProcOk(s, p) && ProcOk(s, np);
    forall x | 0 <= x < |s.procs|
      ensures Forking(s'.procs[x].pc) == if x == p then np else Forking(s.procs[x].pc)
      ensures Forking(s.procs[x].pc) != np
      ensures s.procs[x].state == USED ==> s'.procs[x].state == USED
    {
      ForkAllocAt(s, s', c, p, np, x);
    }
  }

  lemma ForkAllocAt(s: State, s': State, c: nat, p: nat, np: nat, x: nat)
    requires ForksOk(s) && ForkAllocStep(s, s', c, p, np) && ProcOk(s, np) && x < |s.procs|
    ensures |s'.procs| == |s.procs| && Forking(s'.procs[x].pc) == if x == p then np else Forking(s.procs[x].pc)
    ensures Forking(s.procs[x].pc) != np && (s.procs[x].state == USED ==> s'.procs[x].state == USED)
  {
  }

  lemma ForkParentForks(s: State, s': State, c: nat, p: nat)
    requires ForksOk(s) && ForkParentStep(s, s', c, p)
    ensures SameForks(s, s')
  {
  }

  lemma ForkReadyForks(s: State, s': State, c: nat, p: nat)
    requires ForksOk(s) && ForkReadyStep(s, s', c, p)
    ensures ForksOk(s')
  {
    var np := s.procs[p].pc.k.np;
    assert Forking(s.procs[p].pc) == np;
    forall r | 0 <= r < |s'.procs| && Forking(s'.procs[r].pc) != -1
      ensures r != p && Forking(s'.procs[r].pc) == Forking(s.procs[r].pc) != np
    {
    }
  }

  lemma ForksKept(s: State, s': State, step: Step)
    requires ProcsOk(s) && ForksOk(s) && Next(s, s', step)
    ensures ForksOk(s')
  {
    if SchedNext(s, s', step) {
      SchedForks(s, s', step);
      SameForksKept(s, s');
    } else if WaitNext(s, s', step) {
      WaitForks(s, s', step);
      SameForksKept(s, s');
    } else if ExitNext(s, s', step) {
      ExitForks(s, s', step);
      SameForksKept(s, s');
    } else if step.ForkAlloc? {
      ForkAllocForks(s, s', step.c, step.p, step.np);
    } else if step.ForkParent? {
      ForkParentForks(s, s', step.c, step.p);
      SameForksKept(s, s');
    } else {
      ForkReadyForks(s, s', step.c, step.p);
    }
  }

  // ----- kwait() -----------------------------------------------------------------------------------

  /** No zombie appears and none changes parents. */
  ghost predicate NoNewZombie(s: State, s': State) {
    && |s'.procs| == |s.procs|
    && forall q :: 0 <= q < |s.procs| && s'.procs[q].state == ZOMBIE ==>
          s.procs[q].state == ZOMBIE && s'.procs[q].parent == s.procs[q].parent
  }

  /** Nobody but p starts to doze, or moves in the exit and wait protocol. */
  ghost predicate OthersStay(s: State, s': State, p: nat) {
    && |s'.procs| == |s.procs| && p < |s.procs|
    && (forall r :: 0 <= r < |s.procs| && r != p ==> StaysPut(s.procs[r], s'.procs[r]))
    && (forall r :: 0 <= r < |s.procs| && r != p ==> (Dozing(s', r) ==> Dozing(s, r)))
  }

  predicate Reaped(a: Proc, b: Proc) {
    a.state == ZOMBIE && b.pc != a.pc
  }

  ghost predicate StaysPut(a: Proc, b: Proc) {
    && (b.pc == a.pc || (a.state == ZOMBIE && b.pc == Over))
    && (Switched(b.pc) && b.state == SLEEPING ==> a.state == SLEEPING && b.chan == a.chan)
    && (Alive(a.state) ==> Alive(b.state))
  }

  lemma WaitShape(s: State, s': State, step: Step)
    requires WaitNext(s, s', step)
    ensures NoNewZombie(s, s') && OthersStay(s, s', step.p)
  {
  }

  /** The mover holds wait_lock throughout, takes it, gives it up, or has nothing to
      do with it. */
  ghost predicate LockMove(s: State, s': State, p: nat) {
    && |s'.procs| == |s.procs| && p < |s.procs|
    && (|| (s'.wlock == s.wlock && (HoldsWait(s'.procs[p].pc) <==> HoldsWait(s.procs[p].pc)))
        || (s.wlock == -1 && s'.wlock == p && HoldsWait(s'.procs[p].pc))
        || (s'.wlock == -1 && HoldsWait(s.procs[p].pc) && !HoldsWait(s'.procs[p].pc)))
  }

  lemma WaitLockMove(s: State, s': State, step: Step)
    requires WaitNext(s, s', step)
    ensures LockMove(s, s', step.p)
  {
  }

  lemma LockKept(s: State, s': State, p: nat)
    requires WaitOk(s) && OthersStay(s, s', p) && LockMove(s, s', p)
    requires forall r :: 0 <= r < |s.procs| && r != p && Reaped(s.procs[r], s'.procs[r]) ==> !HoldsWait(s.procs[r].pc)
    ensures WaitOk(s')
  {
    forall r | 0 <= r < |s'.procs| && r != p ensures HoldsWait(s'.procs[r].pc) <==> s'.wlock == r {
      assert StaysPut(s.procs[r], s'.procs[r]);
    }
  }

  lemma ReapOver(s: State, s': State, step: Step)
    requires ProcsOk(s) && WaitNext(s, s', step)
    ensures |s'.procs| == |s.procs|
    ensures forall r :: 0 <= r < |s.procs| && r != step.p && Reaped(s.procs[r], s'.procs[r]) ==>
              !HoldsWait(s.procs[r].pc)
  {
    if step.Reap? { assert ProcOk(s, s.procs[step.p].pc.i); }
  }

  lemma WaitWaits(s: State, s': State, step: Step)
    requires ProcsOk(s) && WaitOk(s) && WaitNext(s, s', step)
    ensures WaitOk(s')
  {
    WaitShape(s, s', step);
    WaitLockMove(s, s', step);
    ReapOver(s, s', step);
    LockKept(s, s', step.p);
  }

  lemma WaitFamily(s: State, s': State, step: Step, q: nat)
    requires Families(s) && WaitNext(s, s', step) && q < |s.procs| && ProcOk(s, step.p)
    ensures |s'.procs| == |s.procs| && FamilyOk(s', q)
  {
    assert FamilyOk(s, q);
  }

  lemma WaitFamilies(s: State, s': State, step: Step)
    requires ProcsOk(s) && Families(s) && WaitNext(s, s', step)
    ensures Families(s')
  {
    forall q | 0 <= q < |s.procs| ensures |s'.procs| == |s.procs| && FamilyOk(s', q) {
      WaitFamily(s, s', step, q);
    }
    assert ProcOk(s, step.p);
  }

  lemma WaitMoverScan(s: State, s': State, step: Step)
    requires WaitNext(s, s', step) && ScanOk(s, step.p) && NoNewZombie(s, s')
    ensures ScanOk(s', step.p)
  {
  }

  lemma WaitScans(s: State, s': State, step: Step)
    requires ScansOk(s) && WaitNext(s, s', step)
    ensures ScansOk(s')
  {
    WaitShape(s, s', step);
    forall r | 0 <= r < |s'.procs| ensures ScanOk(s', r) {
      assert ScanOk(s, r);
      if r == step.p {
        WaitMoverScan(s, s', step);
      } else {
        assert StaysPut(s.procs[r], s'.procs[r]);
      }
    }
  }

  lemma WaitChans(s: State, s': State, step: Step)
    requires ChansOk(s) && WaitNext(s, s', step)
    ensures ChansOk(s')
  {
  }

  /** Only the process that starts to doze is dozing that was not. */
  lemma WaitDozing(s: State, s': State, step: Step)
    requires WaitNext(s, s', step) && !step.DozeStart?
    ensures |s'.procs| == |s.procs| && step.p < |s.procs| && (Dozing(s', step.p) ==> Dozing(s, step.p))
  {
  }

  lemma WaitWakes(s: State, s': State, step: Step)
    requires WaitOk(s) && WakesOk(s) && WaitOk(s') && WaitNext(s, s', step)
    ensures WakesOk(s')
  {
    WaitShape(s, s', step);
    if !step.DozeStart? { WaitDozing(s, s', step); }
    forall x | 0 <= x < |s'.procs| ensures WakeOk(s', x) {
      assert WakeOk(s, x);
      if x != step.p { assert StaysPut(s.procs[x], s'.procs[x]); }
    }
  }

  lemma WaitLost(s: State, s': State, step: Step)
    requires WaitOk(s) && ScansOk(s) && NoLost(s) && WaitNext(s, s', step)
    ensures NoLost(s')
  {
    WaitShape(s, s', step);
    assert ScanOk(s, step.p);
    if !step.DozeStart? { WaitDozing(s, s', step); }
    forall r, q | 0 <= r < |s'.procs| && 0 <= q < |s'.procs| && Dozing(s', r) && s'.procs[q].parent == r &&
                  s'.procs[q].state == ZOMBIE
      ensures r == INIT && WillWakeInit(s')
    {
      assert r == INIT && WillWakeInit(s);
      WaitWillWake(s, s', step);
    }
  }

  lemma WaitWillWake(s: State, s': State, step: Step)
    requires WaitOk(s) && WillWakeInit(s) && WaitNext(s, s', step)
    ensures WillWakeInit(s')
  {
    assert HoldsWait(s.procs[step.p].pc) <==> s.wlock == step.p;
  }

  // ----- kexit() -----------------------------------------------------------------------------------

  lemma ExitShape(s: State, s': State, step: Step)
    requires ExitNext(s, s', step)
    ensures OthersStay(s, s', step.p) && !Dozing(s', step.p)
  {
    forall r | 0 <= r < |s.procs| && r != step.p
      ensures StaysPut(s.procs[r], s'.procs[r]) && (Dozing(s', r) ==> Dozing(s, r))
    {
      ExitStays(s, s', step, r);
    }
  }

  lemma ExitStays(s: State, s': State, step: Step, r: nat)
    requires ExitNext(s, s', step) && r < |s.procs| && r != step.p
    ensures |s'.procs| == |s.procs| && StaysPut(s.procs[r], s'.procs[r]) && (Dozing(s', r) ==> Dozing(s, r))
  {
  }

  lemma ExitLockMove(s: State, s': State, step: Step)
    requires ExitNext(s, s', step)
    ensures LockMove(s, s', step.p)
    ensures forall r :: 0 <= r < |s.procs| && r != step.p ==> s'.procs[r].pc == s.procs[r].pc
  {
  }

  lemma ExitWaits(s: State, s': State, step: Step)
    requires WaitOk(s) && ExitNext(s, s', step)
    ensures WaitOk(s')
  {
    ExitShape(s, s', step);
    ExitLockMove(s, s', step);
    LockKept(s, s', step.p);
  }

  lemma ExitFamily(s: State, s': State, step: Step, q: nat)
    requires Families(s) && ExitNext(s, s', step) && q < |s.procs| && ProcOk(s, step.p)
    ensures |s'.procs| == |s.procs| && FamilyOk(s', q)
  {
    assert FamilyOk(s, q);
  }

  lemma ExitFamilies(s: State, s': State, step: Step)
    requires ProcsOk(s) && Families(s) && ExitNext(s, s', step)
    ensures Families(s')
  {
    forall q | 0 <= q < |s.procs| ensures |s'.procs| == |s.procs| && FamilyOk(s', q) {
      assert ProcOk(s, step.p);
      ExitFamily(s, s', step, q);
    }
    ExitInit(s, s', step);
  }

  lemma ExitInit(s: State, s': State, step: Step)
    requires Families(s) && ExitNext(s, s', step)
    ensures |s'.procs| == |s.procs| && s'.procs[INIT].parent == -1 && Alive(s'.procs[INIT].state)
    ensures !Exiting(s'.procs[INIT].pc)
  {
  }

  /** While a process exits, nobody scans. */
  lemma ExitScans(s: State, s': State, step: Step)
    requires WaitOk(s) && ExitNext(s, s', step)
    ensures ScansOk(s')
  {
    ExitLockMove(s, s', step);
    forall r | 0 <= r < |s'.procs| ensures !s'.procs[r].pc.Scan? && !s'.procs[r].pc.DozeHeld? {
      ExitScan(s, s', step, r);
    }
  }

  lemma ExitScan(s: State, s': State, step: Step, r: nat)
    requires WaitOk(s) && ExitNext(s, s', step) && r < |s.procs|
    ensures |s'.procs| == |s.procs| && !s'.procs[r].pc.Scan? && !s'.procs[r].pc.DozeHeld?
  {
    assert HoldsWait(s.procs[r].pc) <==> s.wlock == r;
    assert HoldsWait(s.procs[step.p].pc) <==> s.wlock == step.p;
  }

  lemma ExitChans(s: State, s': State, step: Step)
    requires ChansOk(s) && ExitNext(s, s', step)
    ensures ChansOk(s')
  {
    ExitShape(s, s', step);
    forall p | 0 <= p < |s'.procs| && Switched(s'.procs[p].pc) && s'.procs[p].state == SLEEPING
      ensures s'.procs[p].chan == p {
      if p != step.p { assert StaysPut(s.procs[p], s'.procs[p]); }
    }
  }

  /** wakeup() makes every sleeper on its channel that it comes to runnable; it comes to
      a process that is on its way to sleep in kwait() only once that one is asleep. */
  lemma Woken(s: State, s': State, c: nat, x: nat, p: nat)
    requires ProcsOk(s) && ChansOk(s) && WakeNextStep(s, s', c, x) && s.procs[x].pc.j == p != x
    ensures |s'.procs| == |s.procs|
    ensures s.procs[p].state == SLEEPING && s.procs[p].chan == Channel(s, x) ==> s'.procs[p].state == RUNNABLE
    ensures Channel(s, x) == p && Dozing(s, p) ==> s.procs[p].state == SLEEPING && s'.procs[p].state == RUNNABLE
    ensures Channel(s, x) == p ==> !Dozing(s', p)
  {
    assert ProcOk(s, p);
  }

  lemma ExitMoverWake(s: State, s': State, step: Step)
    requires ProcsOk(s) && ChansOk(s) && Families(s) && ExitNext(s, s', step) && WakeOk(s, step.p)
    requires OthersStay(s, s', step.p)
    ensures WakeOk(s', step.p)
  {
    assert FamilyOk(s, step.p);
    if step.WakeNext? {
      var j := s.procs[step.p].pc.j;
      if j == Channel(s, step.p) && j != step.p { Woken(s, s', step.c, step.p, j); }
    }
  }

  lemma ExitWakes(s: State, s': State, step: Step)
    requires ProcsOk(s) && ChansOk(s) && Families(s) && WakesOk(s) && WaitOk(s) && WaitOk(s') && ExitNext(s, s', step)
    ensures WakesOk(s')
  {
    ExitShape(s, s', step);
    ExitLockMove(s, s', step);
    forall x | 0 <= x < |s'.procs| ensures WakeOk(s', x) {
      assert WakeOk(s, x);
      if x == step.p {
        ExitMoverWake(s, s', step);
      } else {
        ExitHolder(s, s', step, x);
      }
    }
  }

  lemma ExitHolder(s: State, s': State, step: Step, x: nat)
    requires WaitOk(s) && ExitNext(s, s', step) && x < |s.procs| && x != step.p
    ensures |s'.procs| == |s.procs| && !HoldsWait(s'.procs[x].pc)
  {
    assert HoldsWait(s.procs[x].pc) <==> s.wlock == x;
    assert HoldsWait(s.procs[step.p].pc) <==> s.wlock == step.p;
  }

  /** What a zombie child is after the step: it was one before, or it has just been
      given to init, or it has just died. */
  lemma ExitZombies(s: State, s': State, step: Step, q: nat)
    requires ExitNext(s, s', step) && q < |s.procs| && q < |s'.procs| && s'.procs[q].state == ZOMBIE
    ensures
      || (s.procs[q].state == ZOMBIE && s'.procs[q].parent == s.procs[q].parent)
      || (s'.procs[q].parent == INIT && s'.wlock == s.wlock && s'.procs[step.p].pc == WakeInit(q, 0))
      || (q == step.p && s.procs[q].pc == WakeParent(|s.procs|) && s'.procs[q].parent == s.procs[q].parent)
  {
  }

  lemma ExitLost(s: State, s': State, step: Step)
    requires WaitOk(s) && WakesOk(s) && WakesOk(s') && NoLost(s) && ExitNext(s, s', step)
    ensures NoLost(s')
  {
    ExitShape(s, s', step);
    forall r, q | 0 <= r < |s'.procs| && 0 <= q < |s'.procs| && Dozing(s', r) && s'.procs[q].parent == r &&
                  s'.procs[q].state == ZOMBIE
      ensures r == INIT && WillWakeInit(s')
    {
      ExitZombies(s, s', step, q);
      assert WakeOk(s, step.p) && WakeOk(s', step.p);
      assert HoldsWait(s.procs[step.p].pc) <==> s.wlock == step.p;
      if s.procs[q].state == ZOMBIE && s'.procs[q].parent == s.procs[q].parent {
        assert r == INIT && WillWakeInit(s);
        WakingOn(s, s', step);
      }
    }
  }

  lemma WakingOn(s: State, s': State, step: Step)
    requires WaitOk(s) && WillWakeInit(s) && INIT < |s.procs| && ExitNext(s, s', step)
    ensures |s'.procs| == |s.procs| && step.p < |s.procs| && s'.wlock == s.wlock == step.p
    ensures s'.procs[step.p].pc.WakeInit?
    ensures s'.procs[step.p].pc.j <= INIT + 1
  {
    assert HoldsWait(s.procs[s.wlock].pc) <==> s.wlock == s.wlock;
    assert HoldsWait(s.procs[step.p].pc) <==> s.wlock == step.p;
  }

  // ----- All steps ----------------------------------------------------------------------------------

  lemma ProtocolKept(s: State, s': State, step: Step)
    requires ProcsOk(s) && ForksOk(s) && Protocol(s) && Next(s, s', step)
    ensures Protocol(s')
  {
    if SchedNext(s, s', step) {
      SchedCalm(s, s', step);
      SchedParents(s, s', step);
      CalmKept(s, s');
    } else if ForkNext(s, s', step) {
      ForkCalm(s, s', step);
      forall q | 0 <= q < |s.procs| && s'.procs[q].parent != s.procs[q].parent ensures FamilyOk(s', q) {
        ForkParents(s, s', step, q);
      }
      CalmKept(s, s');
    } else if WaitNext(s, s', step) {
      WaitWaits(s, s', step);
      WaitFamilies(s, s', step);
      WaitScans(s, s', step);
      WaitChans(s, s', step);
      WaitWakes(s, s', step);
      WaitLost(s, s', step);
    } else {
      ExitWaits(s, s', step);
      ExitFamilies(s, s', step);
      ExitScans(s, s', step);
      ExitChans(s, s', step);
      ExitWakes(s, s', step);
      ExitLost(s, s', step);
    }
  }

  // ----- Parents ------------------------------------------------------------------------------------

  /** The process keeps its parent, and is not started by the step. */
  predicate KeepsParent(a: Proc, b: Proc) {
    && b.parent == a.parent && (Started(b.state) ==> Started(a.state))
    && (Adopted(b.pc) == -1 || Adopted(b.pc) == Adopted(a.pc))
  }

  lemma SchedParent(s: State, s': State, step: Step)
    requires SchedNext(s, s', step) && Mover(step) < |s.procs| && ProcOk(s, Mover(step))
    ensures |s'.procs| == |s.procs| && KeepsParent(s.procs[Mover(step)], s'.procs[Mover(step)])
  {
  }

  lemma WaitParent(s: State, s': State, step: Step)
    requires WaitNext(s, s', step) && step.p < |s.procs| && ProcOk(s, step.p)
    ensures |s'.procs| == |s.procs| && KeepsParent(s.procs[step.p], s'.procs[step.p])
  {
  }

  lemma ExitParent(s: State, s': State, step: Step)
    requires ExitNext(s, s', step) && step.p < |s.procs| && ProcOk(s, step.p)
    ensures |s'.procs| == |s.procs| && KeepsParent(s.procs[step.p], s'.procs[step.p])
  {
  }

  lemma MoverParent(s: State, s': State, step: Step)
    requires (SchedNext(s, s', step) || WaitNext(s, s', step) || ExitNext(s, s', step)) && Mover(step) < |s.procs|
    requires ProcOk(s, Mover(step))
    ensures |s'.procs| == |s.procs| && KeepsParent(s.procs[Mover(step)], s'.procs[Mover(step)])
  {
    if SchedNext(s, s', step) {
      SchedParent(s, s', step);
    } else if WaitNext(s, s', step) {
      WaitParent(s, s', step);
    } else {
      ExitParent(s, s', step);
    }
  }

  lemma PassiveParent(s: State, s': State, step: Step, r: nat)
    requires Framed(s, s', Mover(step), false) && r < |s.procs| && r != Mover(step)
    ensures Started(s'.procs[r].state) ==> Started(s.procs[r].state)
    ensures s.procs[r].state != ZOMBIE && s.procs[r].parent != -1 ==> s'.procs[r].parent != -1
    ensures Started(s'.procs[r].state) && s.procs[r].parent != -1 ==> s'.procs[r].parent != -1
    ensures Adopted(s'.procs[r].pc) == -1 || Adopted(s'.procs[r].pc) == Adopted(s.procs[r].pc)
  {
  }

  /** The child that a fork is about to start is not yet anything else. */
  lemma ChildWaits(s: State, p: nat)
    requires ForksOk(s) && p < |s.procs| && Adopted(s.procs[p].pc) != -1
    ensures
      var np := Adopted(s.procs[p].pc);
      0 <= np < |s.procs| && np != p && s.procs[np].state == USED
  {
    assert Forking(s.procs[p].pc) == Adopted(s.procs[p].pc);
  }

  lemma OrphansElsewhere(s: State, s': State, step: Step, q: nat)
    requires ProcsOk(s) && ForksOk(s) && NoOrphans(s) && Framed(s, s', Mover(step), false) && q < |s.procs|
    requires SchedNext(s, s', step) || WaitNext(s, s', step) || ExitNext(s, s', step)
    ensures HasParent(s', q) && AdoptedOk(s', q)
  {
    var p := Mover(step);
    assert ProcOk(s, p) && HasParent(s, q) && AdoptedOk(s, q);
    MoverParent(s, s', step);
    if q != p { PassiveParent(s, s', step, q); }
    if Adopted(s'.procs[q].pc) != -1 {
      ChildWaits(s, q);
      var np := Adopted(s.procs[q].pc);
      if np != p { PassiveParent(s, s', step, np); }
    }
  }

  lemma OrphansAlloc(s: State, s': State, c: nat, p: nat, np: nat, q: nat)
    requires ForksOk(s) && NoOrphans(s) && ForkAllocStep(s, s', c, p, np) && ProcOk(s, p) && ProcOk(s, np)
    requires q < |s.procs|
    ensures |s'.procs| == |s.procs| && HasParent(s', q) && AdoptedOk(s', q)
  {
    assert HasParent(s, q) && AdoptedOk(s, q);
  }

  lemma OrphansAdopt(s: State, s': State, c: nat, p: nat, q: nat)
    requires NoOrphans(s) && ForkParentStep(s, s', c, p) && q < |s.procs|
    ensures |s'.procs| == |s.procs| && HasParent(s', q) && AdoptedOk(s', q)
  {
    assert HasParent(s, q) && AdoptedOk(s, q);
  }

  lemma OrphansReady(s: State, s': State, c: nat, p: nat, q: nat)
    requires NoOrphans(s) && ForkReadyStep(s, s', c, p) && q < |s.procs|
    ensures |s'.procs| == |s.procs| && HasParent(s', q) && AdoptedOk(s', q)
  {
    assert HasParent(s, q) && AdoptedOk(s, q) && AdoptedOk(s, p);
  }

  lemma OrphansFork(s: State, s': State, step: Step, q: nat)
    requires ProcsOk(s) && ForksOk(s) && NoOrphans(s) && ForkNext(s, s', step) && q < |s.procs|
    ensures |s'.procs| == |s.procs| && HasParent(s', q) && AdoptedOk(s', q)
  {
    match step
    case ForkAlloc(c, p, np) =>
      assert ProcOk(s, p) && ProcOk(s, np);
      OrphansAlloc(s, s', c, p, np, q);
    case ForkParent(c, p) => OrphansAdopt(s, s', c, p, q);
    case ForkReady(c, p) => OrphansReady(s, s', c, p, q);
  }

  lemma OrphansKept(s: State, s': State, step: Step)
    requires ProcsOk(s) && ForksOk(s) && NoOrphans(s) && Next(s, s', step)
    ensures NoOrphans(s')
  {
    StepFramed(s, s', step);
    forall q | 0 <= q < |s'.procs| ensures HasParent(s', q) && AdoptedOk(s', q) {
      if ForkNext(s, s', step) {
        OrphansFork(s, s', step, q);
      } else {
        OrphansElsewhere(s, s', step, q);
      }
    }
  }

  lemma NextInv(s: State, s': State, step: Step)
    requires Inv(s) && Next(s, s', step)
    ensures Inv(s')
  {
    OrphansKept(s, s', step);
    ProcsKept(s, s', step);
    CpusKept(s, s', step);
    ForksKept(s, s', step);
    ProtocolKept(s, s', step);
  }

  lemma InitAt(s: State, p: nat)
    requires Init(s) && p < |s.procs|
    ensures ProcOk(s, p) && FamilyOk(s, p) && ScanOk(s, p) && WakeOk(s, p) && HasParent(s, p) && AdoptedOk(s, p)
    ensures !HoldsWait(s.procs[p].pc) && Forking(s.procs[p].pc) == -1 && !Dozing(s, p)
  {
  }

  lemma InitInv(s: State)
    requires Init(s)
    ensures Inv(s)
  {
    forall p | 0 <= p < |s.procs|
      ensures ProcOk(s, p) && FamilyOk(s, p) && ScanOk(s, p) && WakeOk(s, p) && HasParent(s, p) && AdoptedOk(s, p)
      ensures !HoldsWait(s.procs[p].pc) && Forking(s.procs[p].pc) == -1 && !Dozing(s, p)
    {
      InitAt(s, p);
    }
  }

  ghost predicate IsRun(run: seq<State>, steps: seq<Step>) {
    && |run| == |steps| + 1 && Init(run[0])
    && forall i :: 0 <= i < |steps| ==> Next(run[i], run[i + 1], steps[i])
  }

  lemma {:induction false} RunInv(run: seq<State>, steps: seq<Step>, i: nat)
    requires IsRun(run, steps) && i < |run|
    ensures Inv(run[i])
    decreases i
  {
    if i == 0 {
      InitInv(run[0]);
    } else {
      RunInv(run, steps, i - 1);
      NextInv(run[i - 1], run[i], steps[i - 1]);
    }
  }

  // ----- What it means -------------------------------------------------------------------------------

  /** Scheduling safety: in every run, while p->lock is free, p is on a CPU exactly
      when its state is RUNNING, on one CPU only, and no scheduler is still on its
      way back from it. */
  lemma SchedulingSafety(run: seq<State>, steps: seq<Step>, i: nat, p: nat)
    requires IsRun(run, steps) && i < |run| && p < |run[i].procs| && Sized(run[i]) && run[i].plock[p] == -1
    ensures run[i].procs[p].state == RUNNING <==> exists c :: 0 <= c < |run[i].cpus| && run[i].cpus[c] == Runs(p)
    ensures forall c, d :: CpuAt(run[i], c, Runs(p)) && CpuAt(run[i], d, Runs(p)) ==> c == d
    ensures forall c :: 0 <= c < |run[i].cpus| ==> run[i].cpus[c] != Returning(p)
  {
    RunInv(run, steps, i);
    var s := run[i];
    assert ProcOk(s, p);
    if s.procs[p].state == RUNNING { assert s.cpus[s.procs[p].cpu] == Runs(p); }
  }

  /** kwait() frees a process only after its CPU has switched away from it. */
  lemma ReapedIsOff(run: seq<State>, steps: seq<Step>, i: nat, c: nat, p: nat, child: nat, kids: bool)
    requires IsRun(run, steps) && i < |steps| && steps[i] == Reap(c, p)
    requires p < |run[i].procs| && run[i].procs[p].pc == Scan(child, kids)
    ensures run[i + 1].procs[child].state == UNUSED
    ensures forall d :: 0 <= d < |run[i].cpus| ==> run[i].cpus[d] != Runs(child) && run[i].cpus[d] != Returning(child)
  {
    RunInv(run, steps, i);
    assert Next(run[i], run[i + 1], steps[i]);
    assert ReapStep(run[i], run[i + 1], c, p);
    assert ProcOk(run[i], child);
  }

  /** No wakeup is lost: in every run, while wait_lock is free, no process is asleep
      in kwait() while one of its children, born to it or given to it, is a zombie. */
  lemma NoLostWakeup(run: seq<State>, steps: seq<Step>, i: nat, p: nat, q: nat)
    requires IsRun(run, steps) && i < |run| && run[i].wlock == -1
    requires p < |run[i].procs| && q < |run[i].procs| && run[i].procs[q].parent == p && run[i].procs[q].state == ZOMBIE
    ensures !(run[i].procs[p].state == SLEEPING && Switched(run[i].procs[p].pc))
  {
    RunInv(run, steps, i);
    assert !Dozing(run[i], p);
  }

  /** In every run, a process that is about to become a zombie has woken its parent: the
      parent is not asleep in kwait(), nor on its way there past the last look at its
      children. */
  lemma ParentAwake(run: seq<State>, steps: seq<Step>, i: nat, x: nat)
    requires IsRun(run, steps) && i < |run| && x < |run[i].procs| && run[i].procs[x].pc == WakeParent(|run[i].procs|)
    ensures 0 <= run[i].procs[x].parent < |run[i].procs| && !Dozing(run[i], run[i].procs[x].parent)
  {
    RunInv(run, steps, i);
    var s := run[i];
    assert ProcOk(s, x) && FamilyOk(s, x) && HasParent(s, x) && WakeOk(s, x);
  }

  /** No orphans: in every run, whoever has been started, other than the first process,
      has a parent, and the parent is alive, so that a zombie always has somebody to
      wait for it. */
  lemma ParentsAreAlive(run: seq<State>, steps: seq<Step>, i: nat, q: nat)
    requires IsRun(run, steps) && i < |run| && q < |run[i].procs|
    ensures q != INIT && Started(run[i].procs[q].state) ==> run[i].procs[q].parent != -1
    ensures run[i].procs[q].parent != -1 ==>
              0 <= run[i].procs[q].parent < |run[i].procs| && Alive(run[i].procs[run[i].procs[q].parent].state)
  {
    RunInv(run, steps, i);
    assert FamilyOk(run[i], q) && HasParent(run[i], q);
  }

  /** What the steps say of places in the code besides states and locks is no
      restriction: in every run a runnable process whose lock is free has been
      switched out, nobody is its own parent, and a child being forked is an entry
      of its own that nobody else touches. */
  lemma GuardsHold(run: seq<State>, steps: seq<Step>, i: nat, p: nat)
    requires IsRun(run, steps) && i < |run| && p < |run[i].procs| && Sized(run[i])
    ensures run[i].procs[p].state == RUNNABLE && run[i].plock[p] == -1 ==> run[i].procs[p].pc.Off?
    ensures run[i].procs[p].parent != p
    ensures
      var np := Forking(run[i].procs[p].pc);
      np != -1 ==> 0 <= np < |run[i].procs| && np != p && run[i].procs[np].state == USED
  {
    RunInv(run, steps, i);
    assert ProcOk(run[i], p) && FamilyOk(run[i], p);
  }
}
