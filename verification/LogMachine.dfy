/** Group commit as a step machine: file-system operations begin, log writes and
    end in any interleaving; commit and recovery run one block write at a time;
    the machine may crash between any two steps. */
module LogMachine {
  import opened Blocks
  import opened LogDisk

  datatype Phase =
    | Running
    | Committing(orig: Disk, done: nat)   // `done` of commit()'s writes have reached the disk
    | Down                                // crashed, or not yet booted
    | Recovering(orig: Disk, done: nat)   // `done` of recover_from_log()'s writes have reached the disk

  /** One log_write() call. */
  datatype Event = Event(op: nat, b: word, data: Block)

  /** The disk, the in-memory log and the pinned cached blocks, and four history
      variables: the blocks each open operation has added to the log, every
      operation ever begun, the log_write() calls that still count, and how many
      of these are durable. */
  datatype State = State(
    disk: Disk,
    lh: seq<word>,
    cache: Disk,
    outstanding: int,
    committing: bool,
    phase: Phase,
    base: Disk,
    ops: map<nat, nat>,
    seen: set<nat>,
    hist: seq<Event>,
    committed: nat)

  function ApplyEvents(base: Disk, hist: seq<Event>): Disk {
    if hist == [] then base
    else
      var n := |hist| - 1;
      ApplyEvents(base, hist[..n])[hist[n].b as nat := hist[n].data]
  }

  /** Log slots still promised to the open operations. */
  ghost function Reserved(ops: map<nat, nat>): int {
    if ops == map[] then 0
    else
      var o :| o in ops;
      MAXOPBLOCKS - ops[o] + Reserved(ops - {o})
  }

  lemma {:induction false} ReservedSplit(ops: map<nat, nat>, o: nat)
    requires o in ops
    ensures Reserved(ops) == MAXOPBLOCKS - ops[o] + Reserved(ops - {o})
    decreases |ops|
  {
    var o' :| o' in ops && Reserved(ops) == MAXOPBLOCKS - ops[o'] + Reserved(ops - {o'});
    if o' != o {
      ReservedSplit(ops - {o'}, o);
      ReservedSplit(ops - {o}, o');
      assert ops - {o'} - {o} == ops - {o} - {o'};
    }
  }

  lemma ReservedUpdate(ops: map<nat, nat>, o: nat, n: nat)
    ensures Reserved(ops[o := n]) == MAXOPBLOCKS - n + Reserved(ops - {o})
  {
    ReservedSplit(ops[o := n], o);
    assert ops[o := n] - {o} == ops - {o};
  }

  lemma {:induction false} ReservedBounds(ops: map<nat, nat>)
    requires forall o :: o in ops ==> ops[o] <= MAXOPBLOCKS
    ensures 0 <= Reserved(ops) <= 10 * |ops|
    decreases |ops|
  {
    if ops != map[] {
      var o :| o in ops;
      ReservedSplit(ops, o);
      ReservedBounds(ops - {o});
      assert |ops - {o}| == |ops| - 1;
    }
  }

  // ----- Steps -------------------------------------------------------------

  ghost predicate BeginOp(s: State, s': State, o: nat) {
    && s.phase.Running? && !s.committing
    && |s.lh| + (s.outstanding + 1) * MAXOPBLOCKS <= LOGBLOCKS
    && o !in s.seen
    && s' == s.(outstanding := s.outstanding + 1, ops := s.ops[o := 0], seen := s.seen + {o})
  }

  /** log_write() stops the machine in exactly these states. */
  predicate LogWritePanics(s: State) {
    |s.lh| >= LOGBLOCKS || s.outstanding < 1
  }

  /** Operation o modifies block b and calls log_write(); a block not yet in the
      log takes a new slot out of the operation's allowance. */
  ghost predicate LogWrite(start: nat, s: State, s': State, o: nat, b: word, data: Block) {
    && s.phase.Running? && o in s.ops && !LogWritePanics(s)
    && b in s.disk && !InLog(start, b)
    && (b !in s.lh ==> s.ops[o] < MAXOPBLOCKS)
    && s' == s.(lh := if b in s.lh then s.lh else s.lh + [b],
                ops := if b in s.lh then s.ops else s.ops[o := s.ops[o] + 1],
                cache := s.cache[b as nat := data],
                hist := s.hist + [Event(o, b, data)])
  }

  /** end_op() stops the machine in exactly these states. */
  predicate EndOpPanics(s: State) {
    s.committing
  }

  ghost predicate EndOp(s: State, s': State, o: nat) {
    && s.phase.Running? && o in s.ops && !EndOpPanics(s)
    && s' == if s.outstanding - 1 == 0
             then s.(outstanding := 0, ops := s.ops - {o}, committing := true, phase := Committing(s.disk, 0))
             else s.(outstanding := s.outstanding - 1, ops := s.ops - {o})
  }

  /** One block write of commit(); the header write makes the whole transaction durable. */
  ghost predicate CommitWrite(start: nat, s: State, s': State) {
    && s.phase.Committing?
    && HasLog(start, s.phase.orig) && |s.lh| <= LOGBLOCKS && (forall b :: b in s.lh ==> b in s.cache)
    && var ws := CommitWrites(start, s.lh, s.cache, s.phase.orig);
    && s.phase.done < |ws|
    && var w := ws[s.phase.done];
    && s' == s.(disk := s.disk[w.b := w.data],
                phase := Committing(s.phase.orig, s.phase.done + 1),
                committed := if s.phase.done == |s.lh| then |s.hist| else s.committed)
  }

  ghost predicate CommitDone(start: nat, s: State, s': State) {
    && s.phase.Committing?
    && HasLog(start, s.phase.orig) && |s.lh| <= LOGBLOCKS && (forall b :: b in s.lh ==> b in s.cache)
    && s.phase.done == |CommitWrites(start, s.lh, s.cache, s.phase.orig)|
    && s' == s.(lh := [], cache := map[], committing := false, phase := Running)
  }

  /** Memory is lost; log_write() calls that were not durable no longer count. */
  ghost predicate Crash(s: State, s': State) {
    && s.committed <= |s.hist|
    && s' == s.(lh := [], cache := map[], outstanding := 0, committing := false,
                phase := Down, ops := map[], hist := s.hist[..s.committed])
  }

  ghost predicate StartRecovery(s: State, s': State) {
    && s.phase.Down?
    && s' == s.(phase := Recovering(s.disk, 0))
  }

  ghost predicate RecoveryWrite(start: nat, s: State, s': State) {
    && s.phase.Recovering? && GoodLog(start, s.phase.orig)
    && var ws := RecoveryWrites(start, s.phase.orig);
    && s.phase.done < |ws|
    && var w := ws[s.phase.done];
    && s' == s.(disk := s.disk[w.b := w.data], phase := Recovering(s.phase.orig, s.phase.done + 1))
  }

  ghost predicate RecoveryDone(start: nat, s: State, s': State) {
    && s.phase.Recovering? && GoodLog(start, s.phase.orig)
    && s.phase.done == |RecoveryWrites(start, s.phase.orig)|
    && s' == s.(phase := Running)
  }

  ghost predicate Next(start: nat, s: State, s': State) {
    || (exists o :: BeginOp(s, s', o))
    || (exists o, b, data :: LogWrite(start, s, s', o, b, data))
    || (exists o :: EndOp(s, s', o))
    || CommitWrite(start, s, s')
    || CommitDone(start, s, s')
    || Crash(s, s')
    || StartRecovery(s, s')
    || RecoveryWrite(start, s, s')
    || RecoveryDone(start, s, s')
  }

  /** A machine that is switched on with a good log on its disk. */
  ghost predicate Init(start: nat, s: State) {
    && GoodLog(start, s.disk)
    && s == State(s.disk, [], map[], 0, false, Down, Redo(start, s.disk), map[], {}, [], 0)
  }

  ghost predicate IsRun(start: nat, run: seq<State>) {
    && run != [] && Init(start, run[0])
    && forall i :: 0 <= i < |run| - 1 ==> Next(start, run[i], run[i + 1])
  }

  // ----- The invariant -------------------------------------------------------

  /** Operations are never split by the durable prefix of the history. */
  ghost predicate WholeOps(s: State) {
    && s.committed <= |s.hist|
    && (forall i :: 0 <= i < |s.hist| ==> s.hist[i].op in s.seen)
    && s.ops.Keys <= s.seen
    && (forall i :: 0 <= i < s.committed ==> s.hist[i].op !in s.ops)
    && (forall i, j :: 0 <= i < s.committed <= j < |s.hist| ==> s.hist[i].op != s.hist[j].op)
  }

  /** The disk always recovers to the durable prefix of the history. */
  ghost predicate Durable(start: nat, s: State) {
    && s.committed <= |s.hist|
    && GoodLog(start, s.disk)
    && RecoversTo(start, s.disk, ApplyEvents(s.base, s.hist[..s.committed]))
  }

  ghost predicate Space(s: State) {
    && s.outstanding == |s.ops|
    && (forall o :: o in s.ops ==> s.ops[o] <= MAXOPBLOCKS)
    && |s.lh| + Reserved(s.ops) <= LOGBLOCKS
    && (s.ops == map[] && s.phase.Running? ==> s.lh == [])
    && (s.lh == [] ==> s.committed == |s.hist|)
  }

  ghost predicate Pending(start: nat, d: Disk, s: State) {
    && ReadyToCommit(start, d, s.lh, s.cache)
    && Overlay(start, d, s.cache) == ApplyEvents(s.base, s.hist)
  }

  ghost predicate PhaseInv(start: nat, s: State) {
    match s.phase
    case Running =>
      !s.committing && Pending(start, s.disk, s)
    case Committing(orig, done) =>
      && s.committing && s.ops == map[]
      && Pending(start, orig, s)
      && done <= |CommitWrites(start, s.lh, s.cache, orig)|
      && s.disk == ApplyWrites(orig, CommitWrites(start, s.lh, s.cache, orig)[..done])
      && (done <= |s.lh| ==> s.committed <= |s.hist| && Home(start, orig) == ApplyEvents(s.base, s.hist[..s.committed]))
      && (done > |s.lh| ==> s.committed == |s.hist|)
    case Down =>
      !s.committing && s.ops == map[] && s.lh == [] && s.cache == map[]
    case Recovering(orig, done) =>
      && !s.committing && s.ops == map[] && s.lh == [] && s.cache == map[]
      && GoodLog(start, orig) && RecoversTo(start, orig, ApplyEvents(s.base, s.hist))
      && done <= |RecoveryWrites(start, orig)|
      && s.disk == ApplyWrites(orig, RecoveryWrites(start, orig)[..done])
  }

  ghost predicate Inv(start: nat, s: State) {
    WholeOps(s) && Durable(start, s) && Space(s) && PhaseInv(start, s)
  }

  // ----- Every step keeps the invariant -----------------------------------

  lemma InitInv(start: nat, s: State)
    requires Init(start, s)
    ensures Inv(start, s)
  {
    assert s.hist[..s.committed] == [];
  }

  lemma BeginOpSpace(s: State, s': State, o: nat)
    requires Space(s) && s.ops.Keys <= s.seen && BeginOp(s, s', o)
    ensures Space(s')
  {
    assert s.ops - {o} == s.ops;
    ReservedUpdate(s.ops, o, 0);
    ReservedBounds(s.ops);
    assert s'.ops.Keys == s.ops.Keys + {o};
    Allowance(s.outstanding + 1);
  }

  lemma Allowance(n: int)
    ensures n * MAXOPBLOCKS == 10 * n
  {
  }

  lemma BeginOpWhole(s: State, s': State, o: nat)
    requires WholeOps(s) && BeginOp(s, s', o)
    ensures WholeOps(s')
  {
  }

  lemma BeginOpPhase(start: nat, s: State, s': State, o: nat)
    requires PhaseInv(start, s) && Durable(start, s) && BeginOp(s, s', o)
    ensures PhaseInv(start, s') && Durable(start, s')
  {
  }

  lemma BeginOpInv(start: nat, s: State, s': State, o: nat)
    requires Inv(start, s) && BeginOp(s, s', o)
    ensures Inv(start, s')
  {
    BeginOpSpace(s, s', o);
    BeginOpWhole(s, s', o);
    BeginOpPhase(start, s, s', o);
  }

  lemma LogWriteSpace(start: nat, s: State, s': State, o: nat, b: word, data: Block)
    requires Space(s) && s.committed <= |s.hist| && LogWrite(start, s, s', o, b, data)
    ensures Space(s')
  {
    ReservedSplit(s.ops, o);
    ReservedUpdate(s.ops, o, s.ops[o] + 1);
    assert s.ops[o := s.ops[o] + 1].Keys == s.ops.Keys;
  }

  lemma LogWritePending(start: nat, s: State, s': State, o: nat, b: word, data: Block)
    requires Pending(start, s.disk, s) && LogWrite(start, s, s', o, b, data)
    ensures Pending(start, s.disk, s')
  {
    assert s'.hist[..|s'.hist| - 1] == s.hist;
    OverlayUpdate(start, s.disk, s.cache, b, data);
  }

  lemma OverlayUpdate(start: nat, d: Disk, cache: Disk, b: nat, data: Block)
    requires b in d && !InLog(start, b)
    ensures Overlay(start, d, cache[b := data]) == Overlay(start, d, cache)[b := data]
  {
  }

  lemma LogWriteWhole(start: nat, s: State, s': State, o: nat, b: word, data: Block)
    requires WholeOps(s) && LogWrite(start, s, s', o, b, data)
    ensures WholeOps(s')
  {
  }

  lemma LogWriteDurable(start: nat, s: State, s': State, o: nat, b: word, data: Block)
    requires Durable(start, s) && LogWrite(start, s, s', o, b, data)
    ensures Durable(start, s')
  {
    assert s'.hist[..s'.committed] == s.hist[..s.committed];
  }

  lemma LogWriteInv(start: nat, s: State, s': State, o: nat, b: word, data: Block)
    requires Inv(start, s) && LogWrite(start, s, s', o, b, data)
    ensures Inv(start, s')
  {
    LogWriteSpace(start, s, s', o, b, data);
    LogWritePending(start, s, s', o, b, data);
    LogWriteWhole(start, s, s', o, b, data);
    LogWriteDurable(start, s, s', o, b, data);
  }

  lemma EndOpSpace(s: State, s': State, o: nat)
    requires Space(s) && EndOp(s, s', o)
    ensures Space(s') && (s'.phase.Committing? ==> s'.ops == map[])
  {
    ReservedSplit(s.ops, o);
    assert |s.ops - {o}| == |s.ops| - 1;
    if s.outstanding - 1 == 0 {
      assert s'.ops == map[];
    } else {
      assert s'.ops != map[];
    }
  }

  lemma EndOpWhole(s: State, s': State, o: nat)
    requires WholeOps(s) && EndOp(s, s', o)
    ensures WholeOps(s')
  {
  }

  lemma EndOpPhase(start: nat, s: State, s': State, o: nat)
    requires PhaseInv(start, s) && Durable(start, s) && EndOp(s, s', o) && (s'.phase.Committing? ==> s'.ops == map[])
    ensures PhaseInv(start, s') && Durable(start, s')
  {
    if s.outstanding - 1 == 0 {
      EmptyHome(start, s.disk, ApplyEvents(s.base, s.hist[..s.committed]));
      assert CommitWrites(start, s.lh, s.cache, s.disk)[..0] == [];
    }
  }

  lemma EndOpInv(start: nat, s: State, s': State, o: nat)
    requires Inv(start, s) && EndOp(s, s', o)
    ensures Inv(start, s')
  {
    EndOpSpace(s, s', o);
    EndOpWhole(s, s', o);
    EndOpPhase(start, s, s', o);
  }

  /** With an empty header the recovered state is the home blocks. */
  lemma EmptyHome(start: nat, d: Disk, v: Disk)
    requires GoodLog(start, d) && HeaderCount(d[start]) == 0 && RecoversTo(start, d, v)
    ensures Home(start, d) == v
  {
  }

  /** The durable prefix as commit() has left it after `done` of its writes. */
  lemma CommitDurable(start: nat, s: State)
    requires s.committed <= |s.hist| && s.phase.Committing? && PhaseInv(start, s)
    requires s.lh == [] ==> s.committed == |s.hist|
    ensures Durable(start, s)
    ensures s.phase.done == |CommitWrites(start, s.lh, s.cache, s.phase.orig)| ==>
              && s.committed == |s.hist| && HeaderCount(s.disk[start]) == 0
              && Home(start, s.disk) == ApplyEvents(s.base, s.hist)
  {
    CommitPrefix(start, s.phase.orig, s.lh, s.cache, s.phase.done);
    assert s.hist[..|s.hist|] == s.hist;
  }

  lemma CommitWritePhase(start: nat, s: State, s': State)
    requires s.committed <= |s.hist| && PhaseInv(start, s) && CommitWrite(start, s, s')
    ensures PhaseInv(start, s')
  {
    ApplyOne(s.phase.orig, CommitWrites(start, s.lh, s.cache, s.phase.orig), s.phase.done);
  }

  lemma CommitWriteInv(start: nat, s: State, s': State)
    requires Inv(start, s) && CommitWrite(start, s, s')
    ensures Inv(start, s')
  {
    CommitWritePhase(start, s, s');
    CommitDurable(start, s');
  }

  lemma CommitDoneInv(start: nat, s: State, s': State)
    requires Inv(start, s) && CommitDone(start, s, s')
    ensures Inv(start, s')
  {
    CommitDurable(start, s);
    EmptyPending(start, s');
  }

  lemma EmptyPending(start: nat, s: State)
    requires Durable(start, s) && HeaderCount(s.disk[start]) == 0
    requires s.lh == [] && s.cache == map[] && Home(start, s.disk) == ApplyEvents(s.base, s.hist)
    ensures Pending(start, s.disk, s)
  {
    assert Overlay(start, s.disk, map[]) == Home(start, s.disk);
  }

  lemma CrashInv(start: nat, s: State, s': State)
    requires Inv(start, s) && Crash(s, s')
    ensures Inv(start, s')
  {
    assert s'.hist[..s'.committed] == s.hist[..s.committed];
  }

  lemma StartRecoveryInv(start: nat, s: State, s': State)
    requires Inv(start, s) && StartRecovery(s, s')
    ensures Inv(start, s')
  {
    assert s.hist[..s.committed] == s.hist;
    assert RecoveryWrites(start, s.disk)[..0] == [];
  }

  lemma RecoveryWriteInv(start: nat, s: State, s': State)
    requires Inv(start, s) && RecoveryWrite(start, s, s')
    ensures Inv(start, s')
  {
    var orig, done := s.phase.orig, s.phase.done;
    ApplyOne(orig, RecoveryWrites(start, orig), done);
    RecoveryPrefix(start, orig, ApplyEvents(s.base, s.hist), done + 1);
    assert s.hist[..s.committed] == s.hist;
  }

  lemma RecoveryDoneInv(start: nat, s: State, s': State)
    requires Inv(start, s) && RecoveryDone(start, s, s')
    ensures Inv(start, s')
  {
    RecoveryPrefix(start, s.phase.orig, ApplyEvents(s.base, s.hist), s.phase.done);
    EmptyPending(start, s');
  }

  lemma NextInv(start: nat, s: State, s': State)
    requires Inv(start, s) && Next(start, s, s')
    ensures Inv(start, s')
  {
    if o :| BeginOp(s, s', o) {
      BeginOpInv(start, s, s', o);
    } else if o, b, data :| LogWrite(start, s, s', o, b, data) {
      LogWriteInv(start, s, s', o, b, data);
    } else if o :| EndOp(s, s', o) {
      EndOpInv(start, s, s', o);
    } else if CommitWrite(start, s, s') {
      CommitWriteInv(start, s, s');
    } else if CommitDone(start, s, s') {
      CommitDoneInv(start, s, s');
    } else if Crash(s, s') {
      CrashInv(start, s, s');
    } else if StartRecovery(s, s') {
      StartRecoveryInv(start, s, s');
    } else if RecoveryWrite(start, s, s') {
      RecoveryWriteInv(start, s, s');
    } else {
      RecoveryDoneInv(start, s, s');
    }
  }

  lemma {:induction false} RunInv(start: nat, run: seq<State>, i: nat)
    requires IsRun(start, run) && i < |run|
    ensures Inv(start, run[i])
  {
    if i == 0 {
      InitInv(start, run[0]);
    } else {
      RunInv(start, run, i - 1);
      NextInv(start, run[i - 1], run[i]);
    }
  }

  // ----- What every run guarantees ----------------------------------------

  /** Crash atomicity over all runs: if power fails in any reachable state, and
      recovery is itself cut short any number of times, the home blocks end up
      holding exactly the durable log_write() calls applied in order; these
      contain all of an operation's writes or none of them. */
  lemma RunCrashAtomicity(start: nat, run: seq<State>, i: nat, crashes: seq<nat>)
    requires IsRun(start, run) && i < |run|
    ensures
      var s := run[i];
      && s.committed <= |s.hist| && GoodLog(start, s.disk)
      && Home(start, Boot(start, s.disk, crashes)) == ApplyEvents(s.base, s.hist[..s.committed])
      && (forall j, k :: 0 <= j < s.committed <= k < |s.hist| ==> s.hist[j].op != s.hist[k].op)
      && (forall j :: 0 <= j < s.committed ==> s.hist[j].op !in s.ops)
  {
    RunInv(start, run, i);
    BootRecovers(start, run[i].disk, crashes, ApplyEvents(run[i].base, run[i].hist[..run[i].committed]));
  }

  lemma DurablePrefixStep(start: nat, s: State, s': State)
    requires s.committed <= |s.hist| && Next(start, s, s')
    ensures s.committed <= s'.committed <= |s'.hist| && s'.base == s.base
    ensures s.hist[..s.committed] <= s'.hist[..s'.committed]
  {
    if o :| BeginOp(s, s', o) {
    } else if o, b, data :| LogWrite(start, s, s', o, b, data) {
      assert s'.hist[..s'.committed] == s.hist[..s.committed];
    } else if o :| EndOp(s, s', o) {
    } else {
      QuietPrefix(start, s, s');
    }
  }

  lemma QuietPrefix(start: nat, s: State, s': State)
    requires s.committed <= |s.hist|
    requires
      || CommitWrite(start, s, s') || CommitDone(start, s, s') || Crash(s, s')
      || StartRecovery(s, s') || RecoveryWrite(start, s, s') || RecoveryDone(start, s, s')
    ensures s.committed <= s'.committed <= |s'.hist| && s'.base == s.base
    ensures s.hist[..s.committed] <= s'.hist[..s'.committed]
  {
    assert Crash(s, s') ==> s'.hist[..s'.committed] == s.hist[..s.committed];
  }

  /** Durability: what is durable in one state of a run is durable, unchanged,
      in every later state, crashes included. */
  lemma {:induction false} DurableForever(start: nat, run: seq<State>, i: nat, j: nat)
    requires IsRun(start, run) && i <= j < |run|
    ensures run[i].committed <= |run[i].hist| && run[j].committed <= |run[j].hist|
    ensures run[i].hist[..run[i].committed] <= run[j].hist[..run[j].committed]
    decreases j - i
  {
    RunInv(start, run, i);
    if i < j {
      DurablePrefixStep(start, run[i], run[i + 1]);
      DurableForever(start, run, i + 1, j);
    }
  }

  /** end_op() never finds a commit in progress, and commit runs alone. */
  lemma EndOpNeverPanics(start: nat, run: seq<State>, i: nat)
    requires IsRun(start, run) && i < |run|
    ensures run[i].ops != map[] ==> !EndOpPanics(run[i]) && run[i].phase.Running?
    ensures run[i].committing ==> run[i].outstanding == 0 && run[i].ops == map[]
  {
    RunInv(start, run, i);
  }

  /** When no operation is open and no commit is running, everything ever logged
      is durable, the log is empty, and begin_op() admits an operation at once. */
  lemma QuiescentLog(start: nat, run: seq<State>, i: nat, o: nat)
    requires IsRun(start, run) && i < |run|
    requires run[i].phase.Running? && run[i].ops == map[] && o !in run[i].seen
    ensures run[i].lh == [] && run[i].committed == |run[i].hist|
    ensures Home(start, run[i].disk) == ApplyEvents(run[i].base, run[i].hist)
    ensures exists s' :: BeginOp(run[i], s', o)
  {
    var s := run[i];
    RunInv(start, run, i);
    assert s.hist[..s.committed] == s.hist;
    EmptyHome(start, s.disk, ApplyEvents(s.base, s.hist));
    assert BeginOp(s, s.(outstanding := s.outstanding + 1, ops := s.ops[o := 0], seen := s.seen + {o}), o);
  }

  /** The reservation argument: an operation within its allowance that needs a
      new slot always finds one, and the log never overflows. An absorbed write
      panics exactly when the log is full. */
  lemma ReservationSuffices(start: nat, run: seq<State>, i: nat, o: nat, b: word)
    requires IsRun(start, run) && i < |run| && o in run[i].ops
    ensures |run[i].lh| <= LOGBLOCKS
    ensures b !in run[i].lh && run[i].ops[o] < MAXOPBLOCKS ==> !LogWritePanics(run[i])
    ensures b in run[i].lh ==> (LogWritePanics(run[i]) <==> |run[i].lh| == LOGBLOCKS)
  {
    var s := run[i];
    RunInv(start, run, i);
    ReservedSplit(s.ops, o);
    ReservedBounds(s.ops - {o});
    ReservedBounds(s.ops);
  }

  // ----- A reachable full log ---------------------------------------------

  ghost function Zeroed(lo: nat, hi: nat): (d: Disk)
    ensures forall b :: b in d <==> lo <= b < hi
  {
    if hi <= lo then map[] else Zeroed(lo, hi - 1)[hi - 1 := ZeroBlock()]
  }

  lemma {:induction false} ZeroedAt(lo: nat, hi: nat, b: nat)
    requires lo <= b < hi
    ensures Zeroed(lo, hi)[b] == ZeroBlock()
  {
    if b < hi - 1 { ZeroedAt(lo, hi - 1, b); }
  }

  /** Slots used by operation `o` when the three of them have used `n`. */
  function SlotsUsed(n: nat, o: nat): nat {
    if n < 10 * o then 0 else if n < 10 * o + 10 then n - 10 * o else 10
  }

  /** Three open operations have used `n` of their thirty slots between them. */
  ghost function Filling(d: Disk, base: Disk, n: nat): State
    requires n <= LOGBLOCKS
  {
    State(d, seq(n, i => 40 + i), Zeroed(40, 40 + n), 3, false, Running, base,
          map[0 := SlotsUsed(n, 0), 1 := SlotsUsed(n, 1), 2 := SlotsUsed(n, 2)], {0, 1, 2},
          seq(n, i requires 0 <= i < n => Event(i / 10, 40 + i, ZeroBlock())), 0)
  }

  lemma SlotsStep(n: nat)
    requires n < LOGBLOCKS
    ensures forall o :: 0 <= o < 3 ==> SlotsUsed(n + 1, o) == SlotsUsed(n, o) + if o == n / 10 then 1 else 0
    ensures n / 10 < 3 && SlotsUsed(n, n / 10) < MAXOPBLOCKS
  {
  }

  lemma FillingStep(d: Disk, base: Disk, n: nat)
    requires n < LOGBLOCKS && 40 + n in d
    ensures Next(2, Filling(d, base, n), Filling(d, base, n + 1))
  {
    var s, s' := Filling(d, base, n), Filling(d, base, n + 1);
    var o := n / 10;
    assert s'.lh == s.lh + [40 + n];
    assert s'.hist == s.hist + [Event(o, 40 + n, ZeroBlock())];
    SlotsStep(n);
    assert s'.ops == s.ops[o := s.ops[o] + 1];
    assert LogWrite(2, s, s', o, 40 + n, ZeroBlock());
  }

  lemma ExtendRun(start: nat, run: seq<State>, s: State)
    requires IsRun(start, run) && Next(start, run[|run| - 1], s)
    ensures IsRun(start, run + [s])
  {
  }

  lemma BlankLog(size: nat, d: Disk)
    requires size >= 70 && d == Zeroed(0, size)
    ensures GoodLog(2, d) && HeaderBlocks(d[2]) == [] && d[2] == ZeroBlock()
    ensures RecoveryWrites(2, d) == [Write(2, PutHeader(ZeroBlock(), []))]
  {
    ZeroWord(0);
    ZeroedAt(0, size, 2);
    assert HeaderBlocks(d[2]) == [];
  }

  /** Booting a blank disk whose log occupies blocks 2 to 32. */
  lemma BootRun(size: nat) returns (run: seq<State>, d: Disk, base: Disk)
    requires size >= 70
    ensures IsRun(2, run) && (forall b :: b in d <==> 0 <= b < size)
    ensures run[|run| - 1] == Filling(d, base, 0).(outstanding := 0, ops := map[], seen := {})
  {
    var d0 := Zeroed(0, size);
    BlankLog(size, d0);
    base := Redo(2, d0);
    d := d0[2 := PutHeader(ZeroBlock(), [])];
    var s0 := State(d0, [], map[], 0, false, Down, base, map[], {}, [], 0);
    var s1 := s0.(phase := Recovering(d0, 0));
    var s2 := s1.(disk := d, phase := Recovering(d0, 1));
    var s3 := s2.(phase := Running);
    assert Next(2, s0, s1) by { assert StartRecovery(s0, s1); }
    assert Next(2, s1, s2) by { assert RecoveryWrite(2, s1, s2); }
    assert Next(2, s2, s3) by { assert RecoveryDone(2, s2, s3); }
    run := [s0, s1, s2, s3];
  }

  lemma ThreeOps(run0: seq<State>, d: Disk, base: Disk) returns (run: seq<State>)
    requires IsRun(2, run0)
    requires run0[|run0| - 1] == Filling(d, base, 0).(outstanding := 0, ops := map[], seen := {})
    ensures IsRun(2, run) && run[|run| - 1] == Filling(d, base, 0)
  {
    run := run0;
    var s3 := run[|run| - 1];
    var s4 := s3.(outstanding := 1, ops := map[0 := 0], seen := {0});
    assert BeginOp(s3, s4, 0);
    ExtendRun(2, run, s4);
    run := run + [s4];
    var s5 := s4.(outstanding := 2, ops := map[0 := 0, 1 := 0], seen := {0, 1});
    assert BeginOp(s4, s5, 1);
    ExtendRun(2, run, s5);
    run := run + [s5];
    assert BeginOp(s5, Filling(d, base, 0), 2);
    ExtendRun(2, run, Filling(d, base, 0));
    run := run + [Filling(d, base, 0)];
  }

  /** The capacity test comes before the search for an absorbable entry, so a
      run in which every operation keeps to its allowance reaches a state where
      rewriting an already logged block stops the machine. */
  lemma AbsorbedWriteCanPanic(size: nat) returns (run: seq<State>)
    requires size >= 70
    ensures IsRun(2, run)
    ensures
      var s := run[|run| - 1];
      s.phase.Running? && 0 in s.ops && 40 in s.lh && LogWritePanics(s)
  {
    var d, base;
    run, d, base := BootRun(size);
    run := ThreeOps(run, d, base);
    var n := 0;
    while n < LOGBLOCKS
      invariant n <= LOGBLOCKS && IsRun(2, run) && run[|run| - 1] == Filling(d, base, n)
    {
      FillingStep(d, base, n);
      ExtendRun(2, run, Filling(d, base, n + 1));
      run := run + [Filling(d, base, n + 1)];
      n := n + 1;
    }
    assert run[|run| - 1].lh[0] == 40;
  }
}
