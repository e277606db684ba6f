/** The code of LogCode takes the steps of LogMachine: each routine is one step of the
    machine or, where it writes to the disk, the path of steps with one step per write. */
module LogSteps {
  import opened Blocks
  import opened LogDisk
  import opened LogCode
  import LM = LogMachine

  /** The machine is in the state of the code, between two calls. */
  ghost predicate Matches(log: Log, s: LM.State)
    reads log
  {
    && s.disk == log.blocks && s.lh == log.lh && s.cache == log.cache
    && s.outstanding == log.outstanding && s.committing == log.committing && s.phase == LM.Running
  }

  /** The machine gets from s to s' along `path`. */
  ghost predicate Path(start: nat, path: seq<LM.State>, s: LM.State, s': LM.State) {
    && path != [] && path[0] == s && path[|path| - 1] == s'
    && forall i :: 0 <= i < |path| - 1 ==> LM.Next(start, path[i], path[i + 1])
  }

  lemma PathMore(start: nat, path: seq<LM.State>, s: LM.State, t: LM.State, u: LM.State)
    requires Path(start, path, s, t) && LM.Next(start, t, u)
    ensures Path(start, path + [u], s, u)
  {
  }

  /** begin_op() admits an operation exactly if the machine can. */
  method BeginOp(log: Log, ghost s: LM.State, ghost o: nat) returns (admitted: bool, ghost s': LM.State)
    requires Matches(log, s) && o !in s.seen
    modifies log`outstanding
    ensures Matches(log, s') && (if admitted then LM.BeginOp(s, s', o) else s' == s)
    ensures admitted <==> exists t :: LM.BeginOp(s, t, o)
  {
    admitted := log.BeginOp();
    s' := if admitted then s.(outstanding := s.outstanding + 1, ops := s.ops[o := 0], seen := s.seen + {o}) else s;
    if admitted { assert LM.BeginOp(s, s', o); }
  }

  /** log_write() by an operation within its allowance. */
  method LogWrite(log: Log, b: word, data: Block, ghost s: LM.State, ghost o: nat)
    returns (panicked: bool, ghost s': LM.State)
    requires log.Open() && Matches(log, s) && b in log.blocks && !InLog(log.start, b)
    requires o in s.ops && (b !in log.lh ==> s.ops[o] < MAXOPBLOCKS)
    modifies log`lh, log`cache
    ensures panicked <==> LM.LogWritePanics(s)
    ensures Matches(log, s') && (if panicked then s' == s else log.Open() && LM.LogWrite(log.start, s, s', o, b, data))
  {
    panicked := log.LogWrite(b, data);
    s' := if panicked then s
          else s.(lh := log.lh, ops := if b in s.lh then s.ops else s.ops[o := s.ops[o] + 1], cache := log.cache,
                  hist := s.hist + [LM.Event(o, b, data)]);
  }

  // ----- Commit, one write at a time -------------------------------------------------------

  /** The machine after k writes of the commit that starts in s. */
  ghost function Committing(start: nat, s: LM.State, k: nat): LM.State
    requires HasLog(start, s.disk) && |s.lh| <= LOGBLOCKS && forall b :: b in s.lh ==> b in s.cache
    requires k <= |CommitWrites(start, s.lh, s.cache, s.disk)|
  {
    s.(disk := ApplyWrites(s.disk, CommitWrites(start, s.lh, s.cache, s.disk)[..k]), committing := true,
       phase := LM.Committing(s.disk, k), committed := if k > |s.lh| then |s.hist| else s.committed)
  }

  lemma CommitStep(start: nat, s: LM.State, k: nat)
    requires HasLog(start, s.disk) && |s.lh| <= LOGBLOCKS && forall b :: b in s.lh ==> b in s.cache
    requires k < |CommitWrites(start, s.lh, s.cache, s.disk)|
    ensures LM.Next(start, Committing(start, s, k), Committing(start, s, k + 1))
  {
    CommitWriteStep(start, s, k);
  }

  lemma CommitWriteStep(start: nat, s: LM.State, k: nat)
    requires HasLog(start, s.disk) && |s.lh| <= LOGBLOCKS && forall b :: b in s.lh ==> b in s.cache
    requires k < |CommitWrites(start, s.lh, s.cache, s.disk)|
    ensures LM.CommitWrite(start, Committing(start, s, k), Committing(start, s, k + 1))
  {
    var ws, t, t' := CommitWrites(start, s.lh, s.cache, s.disk), Committing(start, s, k), Committing(start, s, k + 1);
    ApplyOne(s.disk, ws, k);
    assert t'.disk == t.disk[ws[k].b := ws[k].data];
    assert t'.committed == if k == |s.lh| then |s.hist| else t.committed;
  }

  /** The state when a commit is over. */
  ghost function Committed(start: nat, s: LM.State): LM.State
    requires HasLog(start, s.disk) && |s.lh| <= LOGBLOCKS && forall b :: b in s.lh ==> b in s.cache
  {
    Committing(start, s, |CommitWrites(start, s.lh, s.cache, s.disk)|)
    .(lh := [], cache := map[], committing := false, phase := LM.Running)
  }

  lemma CommitPath(start: nat, s: LM.State) returns (path: seq<LM.State>)
    requires HasLog(start, s.disk) && |s.lh| <= LOGBLOCKS && forall b :: b in s.lh ==> b in s.cache
    ensures Path(start, path, Committing(start, s, 0), Committed(start, s))
  {
    var ws := CommitWrites(start, s.lh, s.cache, s.disk);
    path := [Committing(start, s, 0)];
    var k := 0;
    while k < |ws|
      invariant k <= |ws| && Path(start, path, Committing(start, s, 0), Committing(start, s, k))
    {
      CommitStep(start, s, k);
      PathMore(start, path, Committing(start, s, 0), Committing(start, s, k), Committing(start, s, k + 1));
      path := path + [Committing(start, s, k + 1)];
      k := k + 1;
    }
    var last := Committing(start, s, |ws|);
    assert LM.CommitDone(start, last, Committed(start, s));
    PathMore(start, path, Committing(start, s, 0), last, Committed(start, s));
    path := path + [Committed(start, s)];
  }

  /** end_op(): a step, and if it was the last operation the steps of the commit. */
  method EndOp(log: Log, ghost s: LM.State, ghost o: nat)
    returns (panicked: bool, ghost s': LM.State, ghost path: seq<LM.State>)
    requires log.Open() && Matches(log, s) && o in s.ops
    modifies log`blocks, log`trace, log`cache, log`lh, log`outstanding, log`committing
    ensures panicked <==> LM.EndOpPanics(s)
    ensures !panicked ==> log.Open() && Matches(log, s') && Path(log.start, path, s, s')
  {
    panicked := log.EndOp();
    s', path := s, [s];
    if !panicked {
      ghost var ended := s.(outstanding := s.outstanding - 1, ops := s.ops - {o});
      if log.outstanding == 0 {
        ghost var busy := s.(outstanding := 0, ops := s.ops - {o});
        ghost var rest := CommitPath(log.start, busy);
        s' := Committed(log.start, busy);
        assert Committing(log.start, busy, 0) == busy.(committing := true, phase := LM.Committing(s.disk, 0));
        assert LM.EndOp(s, Committing(log.start, busy, 0), o);
        WholeCommit(log.start, busy);
        path := [s] + rest;
      } else {
        s' := ended;
        assert LM.EndOp(s, s', o);
        path := [s, s'];
      }
    }
  }

  lemma WholeCommit(start: nat, s: LM.State)
    requires HasLog(start, s.disk) && |s.lh| <= LOGBLOCKS && forall b :: b in s.lh ==> b in s.cache
    ensures Committed(start, s).disk == ApplyWrites(s.disk, CommitWrites(start, s.lh, s.cache, s.disk))
  {
    var ws := CommitWrites(start, s.lh, s.cache, s.disk);
    assert ws[..|ws|] == ws;
  }

  // ----- Recovery, one write at a time --------------------------------------------------------

  ghost function Recovering(start: nat, s: LM.State, k: nat): LM.State
    requires GoodLog(start, s.disk) && k <= |RecoveryWrites(start, s.disk)|
  {
    s.(disk := ApplyWrites(s.disk, RecoveryWrites(start, s.disk)[..k]), phase := LM.Recovering(s.disk, k))
  }

  lemma RecoveryStep(start: nat, s: LM.State, k: nat)
    requires GoodLog(start, s.disk) && k < |RecoveryWrites(start, s.disk)|
    ensures LM.Next(start, Recovering(start, s, k), Recovering(start, s, k + 1))
  {
    ApplyOne(s.disk, RecoveryWrites(start, s.disk), k);
    assert LM.RecoveryWrite(start, Recovering(start, s, k), Recovering(start, s, k + 1));
  }

  lemma RecoveryWritten(start: nat, s: LM.State) returns (path: seq<LM.State>)
    requires GoodLog(start, s.disk)
    ensures Path(start, path, Recovering(start, s, 0), Recovering(start, s, |RecoveryWrites(start, s.disk)|))
  {
    var n := |RecoveryWrites(start, s.disk)|;
    path := [Recovering(start, s, 0)];
    var k := 0;
    while k < n
      invariant k <= n && Path(start, path, Recovering(start, s, 0), Recovering(start, s, k))
    {
      RecoveryStep(start, s, k);
      PathMore(start, path, Recovering(start, s, 0), Recovering(start, s, k), Recovering(start, s, k + 1));
      path := path + [Recovering(start, s, k + 1)];
      k := k + 1;
    }
  }

  lemma RecoveryEnds(start: nat, s: LM.State)
    requires GoodLog(start, s.disk) && s.phase.Down?
    ensures LM.Next(start, s, Recovering(start, s, 0))
    ensures
      var ws := RecoveryWrites(start, s.disk);
      LM.Next(start, Recovering(start, s, |ws|), s.(disk := ApplyWrites(s.disk, ws), phase := LM.Running))
  {
    var ws := RecoveryWrites(start, s.disk);
    assert ws[..0] == [] && ws[..|ws|] == ws;
    assert LM.StartRecovery(s, Recovering(start, s, 0));
    assert LM.RecoveryDone(start, Recovering(start, s, |ws|), s.(disk := ApplyWrites(s.disk, ws), phase := LM.Running));
  }

  lemma RecoveryPath(start: nat, s: LM.State) returns (path: seq<LM.State>)
    requires GoodLog(start, s.disk) && s.phase.Down?
    ensures Path(start, path, s, s.(disk := ApplyWrites(s.disk, RecoveryWrites(start, s.disk)), phase := LM.Running))
  {
    var ws := RecoveryWrites(start, s.disk);
    var written := RecoveryWritten(start, s);
    RecoveryEnds(start, s);
    path := [s] + written;
    assert Path(start, path, s, Recovering(start, s, |ws|));
    var end := s.(disk := ApplyWrites(s.disk, ws), phase := LM.Running);
    PathMore(start, path, s, Recovering(start, s, |ws|), end);
    path := path + [end];
  }

  /** recover_from_log() at boot, with nothing in memory. */
  method Recover(log: Log, ghost s: LM.State) returns (ghost s': LM.State, ghost path: seq<LM.State>)
    requires GoodLog(log.start, log.blocks) && log.cache == map[] && log.outstanding == 0 && !log.committing
    requires s.phase.Down? && s.disk == log.blocks && s.lh == [] && s.cache == map[] && s.outstanding == 0
    requires !s.committing
    modifies log`blocks, log`trace, log`cache, log`lh
    ensures log.Open() && Matches(log, s') && Path(log.start, path, s, s')
  {
    path := RecoveryPath(log.start, s);
    log.RecoverFromLog();
    s' := s.(disk := log.blocks, phase := LM.Running);
  }
}
