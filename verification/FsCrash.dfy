/** The file system and its log together: operations of fs.c inside transactions, a
    crash anywhere, and what recovery leaves of bitmap, block map and files. */
module FsCrash {
  import opened Blocks
  import opened FsLayout
  import opened FsEffects
  import opened FsCode
  import LD = LogDisk
  import LM = LogMachine

  /** The bytes of a disk make a file system: bitmap, inodes and indirect blocks agree
      on who owns which block, and no file has a hole. */
  ghost predicate HealthyWith(sb: Super, view: Disk, inodes: map<nat, Inode>, owner: map<nat, Slot>) {
    && GoodSuper(sb) && FullDisk(sb, view) && InodeArea(sb, view, inodes)
    && OwnerInv(sb, view, inodes, owner) && BitInv(sb, view, owner.Keys) && NoHolesAnywhere(view, inodes)
  }

  ghost predicate Healthy(sb: Super, view: Disk) {
    exists inodes, owner :: HealthyWith(sb, view, inodes, owner)
  }

  lemma ConsistentIsHealthy(fs: FileSys)
    requires fs.Consistent()
    ensures Healthy(fs.sb, fs.blocks)
  {
    assert fs.owner.Keys + {} == fs.owner.Keys;
    assert HealthyWith(fs.sb, fs.blocks, fs.inodes, fs.owner);
  }

  // ----- An operation as log_write() calls -----------------------------------------

  /** The last of these calls for block b carries `data`. */
  ghost predicate LastCall(evs: seq<LM.Event>, b: nat, data: Block) {
    evs != [] &&
    var n := |evs| - 1;
    if evs[n].b == b then evs[n].data == data else LastCall(evs[..n], b, data)
  }

  /** The calls log exactly these blocks, each at last with its contents in `view`. */
  ghost predicate Calls(evs: seq<LM.Event>, logged: set<nat>, view: Disk) {
    && (forall i :: 0 <= i < |evs| ==> evs[i].b in logged)
    && (forall b :: b in logged ==> b in view && LastCall(evs, b, view[b]))
  }

  lemma {:induction false} CallsAt(v: Disk, evs: seq<LM.Event>, b: nat)
    requires forall i :: 0 <= i < |evs| ==> evs[i].b in v
    ensures LM.ApplyEvents(v, evs).Keys == v.Keys
    ensures b in v && (forall i :: 0 <= i < |evs| ==> evs[i].b != b) ==> LM.ApplyEvents(v, evs)[b] == v[b]
    ensures forall data :: b in v && LastCall(evs, b, data) ==> LM.ApplyEvents(v, evs)[b] == data
  {
    if evs != [] { CallsAt(v, evs[..|evs| - 1], b); }
  }

  /** The calls of an operation turn the view before it into the view after it. */
  lemma CallsGive(v0: Disk, v1: Disk, evs: seq<LM.Event>, logged: set<nat>)
    requires LoggedOnly(v0, v1, logged) && Calls(evs, logged, v1)
    ensures LM.ApplyEvents(v0, evs) == v1
  {
    CallsAt(v0, evs, 0);
    forall b | b in v0 ensures LM.ApplyEvents(v0, evs)[b] == v1[b] {
      CallsAt(v0, evs, b);
    }
  }

  lemma {:induction false} EventsConcat(base: Disk, h: seq<LM.Event>, evs: seq<LM.Event>)
    ensures LM.ApplyEvents(base, h + evs) == LM.ApplyEvents(LM.ApplyEvents(base, h), evs)
  {
    if evs == [] {
      assert h + evs == h;
    } else {
      var n := |evs| - 1;
      EventsConcat(base, h, evs[..n]);
      assert (h + evs)[..|h + evs| - 1] == h + evs[..n];
    }
  }

  // ----- Histories of such operations --------------------------------------------------

  /** The calls from `from` to `to` are those of one operation, which, unless it is still
      running, turns a healthy file system into a healthy one. */
  ghost predicate Operation(sb: Super, base: Disk, hist: seq<LM.Event>, running: map<nat, nat>, from: nat, to: nat) {
    && from < to <= |hist|
    && (forall i :: from <= i < to ==> hist[i].op == hist[from].op)
    && (hist[from].op !in running && Healthy(sb, LM.ApplyEvents(base, hist[..from])) ==>
          Healthy(sb, LM.ApplyEvents(base, hist[..to])))
  }

  /** The history is one such operation after the other. */
  ghost predicate Serial(sb: Super, base: Disk, hist: seq<LM.Event>, running: map<nat, nat>, cuts: seq<nat>) {
    && cuts != [] && cuts[0] == 0 && cuts[|cuts| - 1] == |hist|
    && forall j :: 0 < j < |cuts| ==> Operation(sb, base, hist, running, cuts[j - 1], cuts[j])
  }

  /** Some operation has calls on both sides of the cut. */
  ghost predicate Splits(hist: seq<LM.Event>, at: nat) {
    exists a, b :: 0 <= a < at <= b < |hist| && hist[a].op == hist[b].op
  }

  lemma InsideSplits(hist: seq<LM.Event>, from: nat, to: nat, at: nat)
    requires from < at < to <= |hist| && forall i :: from <= i < to ==> hist[i].op == hist[from].op
    ensures Splits(hist, at)
  {
    assert hist[at - 1].op == hist[at].op;
  }

  /** A cut of the history that splits no operation falls between two of them. */
  lemma {:induction false} BetweenOps(sb: Super, base: Disk, hist: seq<LM.Event>, running: map<nat, nat>,
                                      cuts: seq<nat>,
                                      at: nat, j: nat) returns (k: nat)
    requires Serial(sb, base, hist, running, cuts) && j < |cuts| && at <= cuts[j]
    requires !Splits(hist, at)
    ensures k <= j && cuts[k] == at
    decreases j
  {
    if cuts[j] == at {
      k := j;
    } else {
      assert Operation(sb, base, hist, running, cuts[j - 1], cuts[j]);
      if cuts[j - 1] < at { InsideSplits(hist, cuts[j - 1], cuts[j], at); }
      k := BetweenOps(sb, base, hist, running, cuts, at, j - 1);
    }
  }

  /** Up to there the file system is healthy after every operation. */
  lemma {:induction false} HealthyAfter(sb: Super, base: Disk, hist: seq<LM.Event>, running: map<nat, nat>,
                                        cuts: seq<nat>, k: nat)
    requires Serial(sb, base, hist, running, cuts) && k < |cuts| && Healthy(sb, base)
    requires forall a :: 0 <= a < cuts[k] <= |hist| ==> hist[a].op !in running
    ensures cuts[k] <= |hist| && Healthy(sb, LM.ApplyEvents(base, hist[..cuts[k]]))
    decreases k
  {
    if k == 0 {
      assert hist[..0] == [];
    } else {
      assert Operation(sb, base, hist, running, cuts[k - 1], cuts[k]);
      HealthyAfter(sb, base, hist, running, cuts, k - 1);
    }
  }

  /** Whatever the interleaving of transactions with commits, if the operations of the
      file system follow one another, a crash at any point, with any number of further
      crashes during recovery, leaves a healthy file system. */
  lemma FileSystemSurvives(sb: Super, start: nat, run: seq<LM.State>, i: nat, cuts: seq<nat>, crashes: seq<nat>)
    requires LM.IsRun(start, run) && i < |run| && Healthy(sb, run[i].base)
    requires Serial(sb, run[i].base, run[i].hist, run[i].ops, cuts)
    ensures LD.GoodLog(start, run[i].disk)
    ensures Healthy(sb, LD.Home(start, LD.Boot(start, run[i].disk, crashes)))
  {
    var s := run[i];
    LM.RunCrashAtomicity(start, run, i, crashes);
    var k := BetweenOps(sb, s.base, s.hist, s.ops, cuts, s.committed, |cuts| - 1);
    HealthyAfter(sb, s.base, s.hist, s.ops, cuts, k);
  }

  /** Every operation of FsCode is one of those: from a consistent state with view v0, its
      calls, by whatever operation number, extend the history by one operation. */
  lemma OperationExtends(fs: FileSys, v0: Disk, base: Disk, hist: seq<LM.Event>, running: map<nat, nat>, cuts: seq<nat>,
                         evs: seq<LM.Event>, o: nat)
    requires fs.Consistent() && LoggedOnly(v0, fs.blocks, fs.logged) && Calls(evs, fs.logged, fs.blocks)
    requires v0 == LM.ApplyEvents(base, hist) && Serial(fs.sb, base, hist, running, cuts)
    requires evs != [] && forall i :: 0 <= i < |evs| ==> evs[i].op == o
    ensures LM.ApplyEvents(base, hist + evs) == fs.blocks
    ensures Serial(fs.sb, base, hist + evs, running, cuts + [|hist + evs|])
  {
    var all, n := hist + evs, |cuts|;
    CallsGive(v0, fs.blocks, evs, fs.logged);
    EventsConcat(base, hist, evs);
    ConsistentIsHealthy(fs);
    var cuts' := cuts + [|all|];
    forall j | 0 < j < |cuts'| ensures Operation(fs.sb, base, all, running, cuts'[j - 1], cuts'[j]) {
      if j < n {
        EarlierOperation(fs.sb, base, hist, evs, running, cuts[j - 1], cuts[j]);
      } else {
        assert all[..|hist|] == hist && all[..|all|] == all;
      }
    }
  }

  lemma EarlierOperation(sb: Super, base: Disk, hist: seq<LM.Event>, evs: seq<LM.Event>, running: map<nat, nat>,
                         from: nat, to: nat)
    requires Operation(sb, base, hist, running, from, to)
    ensures Operation(sb, base, hist + evs, running, from, to)
  {
    assert (hist + evs)[..from] == hist[..from] && (hist + evs)[..to] == hist[..to];
  }
}
