/** The in-memory inode table of kernel/fs.c as a protocol between any number of
    references: iget, idup, ilock, iunlock, iput and ialloc. The steps are the
    stretches of code that run under itable.lock or the inode's own lock, and the
    single reads and writes of on-disk inodes. */
module InodeTable {

  /** An inode's on-disk fields; `contents` stands for size and addresses. */
  datatype Dinode = Dinode(typ: nat, nlink: nat, contents: nat)

  datatype Entry = Entry(key: nat, count: int, valid: bool, inode: Dinode)

  /** A reference: unlocked; in ilock() with the lock, before the inode is known to
      be valid; locked, with changes not yet copied by iupdate() or without; in the
      freeing part of iput(), before itrunc(), after it, after the inode is marked
      free on disk, after it is marked invalid; past releasesleep() there. */
  datatype Phase = Idle | Loading | Locked(dirty: bool) | Free1 | Free2 | Free3 | Free4 | Dropping

  datatype Handle = Handle(e: nat, phase: Phase)

  datatype State = State(disk: map<nat, Dinode>, table: seq<Entry>, users: map<nat, Handle>)

  datatype Step =
    | IgetHit(h: nat, key: nat, e: nat)
    | IgetMiss(h: nat, key: nat, e: nat)
    | Idup(h: nat, g: nat)
    | Ilock(h: nat)
    | Load(h: nat)
    | Modify(h: nat, inode: Dinode)
    | Iupdate(h: nat)
    | Iunlock(h: nat)
    | IputLock(h: nat)
    | Trunc(h: nat)
    | FreeDisk(h: nat)
    | Invalidate(h: nat)
    | IputUnlock(h: nat)
    | Drop(h: nat)
    | Ialloc(key: nat, typ: nat)

  predicate HasLock(ph: Phase) {
    ph != Idle && ph != Dropping
  }

  predicate At(s: State, h: nat, ph: Phase) {
    h in s.users && s.users[h].e < |s.table| && s.users[h].phase == ph
  }

  function EntryOf(s: State, h: nat): Entry
    requires h in s.users && s.users[h].e < |s.table|
  {
    s.table[s.users[h].e]
  }

  function Put(s: State, e: nat, entry: Entry): State
    requires e < |s.table|
  {
    s.(table := s.table[e := entry])
  }

  function Goto(s: State, h: nat, ph: Phase): State
    requires h in s.users
  {
    s.(users := s.users[h := s.users[h].(phase := ph)])
  }

  ghost predicate LockFree(s: State, e: nat) {
    forall g :: g in s.users && s.users[g].e == e ==> !HasLock(s.users[g].phase)
  }

  // ----- The steps ---------------------------------------------------------------------

  ghost predicate IgetHitStep(s: State, s': State, h: nat, key: nat, e: nat) {
    && h !in s.users && key in s.disk && e < |s.table| && s.table[e].count > 0 && s.table[e].key == key
    && s' == Put(s, e, s.table[e].(count := s.table[e].count + 1)).(users := s.users[h := Handle(e, Idle)])
  }

  ghost predicate IgetMissStep(s: State, s': State, h: nat, key: nat, e: nat) {
    && h !in s.users && key in s.disk && e < |s.table| && s.table[e].count == 0
    && (forall i :: 0 <= i < |s.table| ==> !(s.table[i].count > 0 && s.table[i].key == key))
    && s' == Put(s, e, s.table[e].(key := key, count := 1, valid := false)).(users := s.users[h := Handle(e, Idle)])
  }

  ghost predicate IdupStep(s: State, s': State, h: nat, g: nat) {
    && h in s.users && s.users[h].e < |s.table| && s.users[h].phase != Dropping && g !in s.users
    && var e := s.users[h].e;
       s' == Put(s, e, s.table[e].(count := s.table[e].count + 1)).(users := s.users[g := Handle(e, Idle)])
  }

  /** ilock(): acquiresleep() succeeds. */
  ghost predicate IlockStep(s: State, s': State, h: nat) {
    At(s, h, Idle) && LockFree(s, s.users[h].e) && s' == Goto(s, h, Loading)
  }

  /** ilock(): the inode is read in if it is not valid; a free one is a panic. */
  ghost predicate LoadStep(s: State, s': State, h: nat) {
    && At(s, h, Loading) && EntryOf(s, h).key in s.disk
    && var e, entry := s.users[h].e, EntryOf(s, h);
       if entry.valid then
         s' == Goto(s, h, Locked(false))
       else
         && s.disk[entry.key].typ != 0
         && s' == Goto(Put(s, e, entry.(valid := true, inode := s.disk[entry.key])), h, Locked(false))
  }

  /** The holder changes fields; only iput() clears the type. */
  ghost predicate ModifyStep(s: State, s': State, h: nat, inode: Dinode) {
    && h in s.users && s.users[h].e < |s.table| && s.users[h].phase.Locked? && inode.typ != 0
    && s' == Goto(Put(s, s.users[h].e, EntryOf(s, h).(inode := inode)), h, Locked(true))
  }

  ghost predicate IupdateStep(s: State, s': State, h: nat) {
    && h in s.users && s.users[h].e < |s.table| && s.users[h].phase.Locked?
    && s' == Goto(s, h, Locked(false)).(disk := s.disk[EntryOf(s, h).key := EntryOf(s, h).inode])
  }

  ghost predicate IunlockStep(s: State, s': State, h: nat) {
    At(s, h, Locked(false)) && s' == Goto(s, h, Idle)
  }

  /** The test of iput() under itable.lock. */
  predicate LastAndUnlinked(entry: Entry) {
    entry.count == 1 && entry.valid && entry.inode.nlink == 0
  }

  /** iput() takes the inode's lock to free it. */
  ghost predicate IputLockStep(s: State, s': State, h: nat) {
    At(s, h, Idle) && LastAndUnlinked(EntryOf(s, h)) && LockFree(s, s.users[h].e) && s' == Goto(s, h, Free1)
  }

  /** itrunc(), with its iupdate(). */
  ghost predicate TruncStep(s: State, s': State, h: nat) {
    && At(s, h, Free1)
    && var e, entry := s.users[h].e, EntryOf(s, h);
       var empty := entry.inode.(contents := 0);
       s' == Goto(Put(s, e, entry.(inode := empty)), h, Free2).(disk := s.disk[entry.key := empty])
  }

  /** ip->type = 0; iupdate() */
  ghost predicate FreeDiskStep(s: State, s': State, h: nat) {
    && At(s, h, Free2)
    && var e, entry := s.users[h].e, EntryOf(s, h);
       var free := entry.inode.(typ := 0);
       s' == Goto(Put(s, e, entry.(inode := free)), h, Free3).(disk := s.disk[entry.key := free])
  }

  ghost predicate InvalidateStep(s: State, s': State, h: nat) {
    At(s, h, Free3) && s' == Goto(Put(s, s.users[h].e, EntryOf(s, h).(valid := false)), h, Free4)
  }

  ghost predicate IputUnlockStep(s: State, s': State, h: nat) {
    At(s, h, Free4) && s' == Goto(s, h, Dropping)
  }

  /** The end of iput(), under itable.lock: the reference is given up. */
  ghost predicate DropStep(s: State, s': State, h: nat) {
    && (At(s, h, Dropping) || (At(s, h, Idle) && !LastAndUnlinked(EntryOf(s, h))))
    && s' == Put(s, s.users[h].e, EntryOf(s, h).(count := EntryOf(s, h).count - 1)).(users := s.users - {h})
  }

  /** ialloc() finds a free inode on disk and marks it allocated; its iget() follows
      as a step of its own. */
  ghost predicate IallocStep(s: State, s': State, key: nat, typ: nat) {
    && key in s.disk && s.disk[key].typ == 0 && typ != 0
    && s' == s.(disk := s.disk[key := Dinode(typ, 0, 0)])
  }

  ghost predicate Next(s: State, s': State, step: Step) {
    match step
    case IgetHit(h, key, e) => IgetHitStep(s, s', h, key, e)
    case IgetMiss(h, key, e) => IgetMissStep(s, s', h, key, e)
    case Idup(h, g) => IdupStep(s, s', h, g)
    case Ilock(h) => IlockStep(s, s', h)
    case Load(h) => LoadStep(s, s', h)
    case Modify(h, inode) => ModifyStep(s, s', h, inode)
    case Iupdate(h) => IupdateStep(s, s', h)
    case Iunlock(h) => IunlockStep(s, s', h)
    case IputLock(h) => IputLockStep(s, s', h)
    case Trunc(h) => TruncStep(s, s', h)
    case FreeDisk(h) => FreeDiskStep(s, s', h)
    case Invalidate(h) => InvalidateStep(s, s', h)
    case IputUnlock(h) => IputUnlockStep(s, s', h)
    case Drop(h) => DropStep(s, s', h)
    case Ialloc(key, typ) => IallocStep(s, s', key, typ)
  }

  ghost predicate Init(s: State) {
    s.users == map[] && forall e :: 0 <= e < |s.table| ==> s.table[e].count == 0 && !s.table[e].valid
  }

  // ----- The invariant ------------------------------------------------------------------------

  function UsersOf(users: map<nat, Handle>, e: nat): set<nat> {
    set h | h in users && users[h].e == e
  }

  ghost predicate Counts(s: State) {
    && (forall h :: h in s.users ==> s.users[h].e < |s.table|)
    && (forall e :: 0 <= e < |s.table| ==> s.table[e].count == |UsersOf(s.users, e)|)
  }

  ghost predicate Locks(s: State) {
    forall g, h :: g in s.users && h in s.users && s.users[g].e == s.users[h].e && HasLock(s.users[g].phase) &&
        HasLock(s.users[h].phase)
      ==> g == h
  }

  /** At most one referenced entry per inode. */
  ghost predicate Unique(s: State) {
    && (forall e :: 0 <= e < |s.table| && s.table[e].count > 0 ==> s.table[e].key in s.disk)
    && (forall d, e :: 0 <= d < e < |s.table| && s.table[d].count > 0 && s.table[e].count > 0 ==>
          s.table[d].key != s.table[e].key)
  }

  /** The entry is what is on disk, and is allocated. */
  predicate Same(s: State, entry: Entry) {
    entry.key in s.disk && s.disk[entry.key] == entry.inode && entry.inode.typ != 0
  }

  /** What the holder of the lock may see. */
  predicate HolderOk(s: State, entry: Entry, ph: Phase) {
    match ph
    case Idle => true
    case Dropping => true
    case Loading => entry.valid ==> Same(s, entry)
    case Locked(dirty) =>
      entry.valid &&
      if dirty then entry.inode.typ != 0 && entry.key in s.disk && s.disk[entry.key].typ != 0 else Same(s, entry)
    case Free1 => entry.valid && Same(s, entry)
    case Free2 => entry.valid && Same(s, entry)
    case Free3 => entry.valid
    case Free4 => !entry.valid
  }

  ghost predicate Holders(s: State) {
    forall h :: h in s.users && s.users[h].e < |s.table| ==> HolderOk(s, s.table[s.users[h].e], s.users[h].phase)
  }

  ghost predicate Coherent(s: State) {
    forall e :: 0 <= e < |s.table| && s.table[e].count > 0 && s.table[e].valid && LockFree(s, e) ==> Same(s, s.table[e])
  }

  ghost predicate Inv(s: State) {
    Counts(s) && Locks(s) && Unique(s) && Holders(s) && Coherent(s)
  }

  // ----- Every step keeps it ------------------------------------------------------------------

  lemma UserJoins(users: map<nat, Handle>, h: nat, hd: Handle, e: nat)
    requires h !in users
    ensures |UsersOf(users[h := hd], e)| == |UsersOf(users, e)| + if hd.e == e then 1 else 0
  {
    if hd.e == e {
      assert UsersOf(users[h := hd], e) == UsersOf(users, e) + {h};
    } else {
      assert UsersOf(users[h := hd], e) == UsersOf(users, e);
    }
  }

  lemma UserStays(users: map<nat, Handle>, h: nat, hd: Handle, e: nat)
    requires h in users && hd.e == users[h].e
    ensures UsersOf(users[h := hd], e) == UsersOf(users, e)
  {
  }

  lemma UserLeaves(users: map<nat, Handle>, h: nat, e: nat)
    requires h in users
    ensures |UsersOf(users - {h}, e)| == |UsersOf(users, e)| - if users[h].e == e then 1 else 0
  {
    if users[h].e == e {
      assert UsersOf(users, e) == UsersOf(users - {h}, e) + {h};
    } else {
      assert UsersOf(users - {h}, e) == UsersOf(users, e);
    }
  }

  /** Whoever has a reference is counted. */
  lemma Referenced(s: State, h: nat)
    requires Counts(s) && h in s.users
    ensures s.table[s.users[h].e].count > 0
  {
    assert h in UsersOf(s.users, s.users[h].e);
  }

  lemma Unreferenced(s: State, e: nat)
    requires Counts(s) && e < |s.table| && s.table[e].count == 0
    ensures forall h :: h in s.users ==> s.users[h].e != e
  {
    assert UsersOf(s.users, e) == {};
    forall h | h in s.users ensures s.users[h].e != e { assert h !in UsersOf(s.users, e); }
  }

  /** The only reference is the only user. */
  lemma OnlyUser(s: State, h: nat, g: nat)
    requires Counts(s) && h in s.users && g in s.users && s.users[g].e == s.users[h].e
    requires s.table[s.users[h].e].count == 1
    ensures g == h
  {
    var us := UsersOf(s.users, s.users[h].e);
    assert h in us && g in us;
    assert |us - {h}| == 0;
    assert g !in us - {h};
  }

  lemma CountsKept(s: State, s': State, step: Step)
    requires Counts(s) && Next(s, s', step)
    ensures Counts(s')
  {
    forall e | 0 <= e < |s'.table| ensures s'.table[e].count == |UsersOf(s'.users, e)| {
      match step
      case IgetHit(h, _, d) => UserJoins(s.users, h, Handle(d, Idle), e);
      case IgetMiss(h, _, d) => UserJoins(s.users, h, Handle(d, Idle), e);
      case Idup(h, g) => UserJoins(s.users, g, s'.users[g], e);
      case Drop(h) => UserLeaves(s.users, h, e);
      case Ialloc(_, _) =>
      case _ => UserStays(s.users, step.h, s'.users[step.h], e);
    }
  }

  /** A step in which nobody takes a lock. */
  ghost predicate NoNewLock(s: State, s': State) {
    forall h :: h in s'.users && HasLock(s'.users[h].phase) ==>
      h in s.users && s'.users[h].e == s.users[h].e && HasLock(s.users[h].phase)
  }

  lemma NoNewLockSteps(s: State, s': State, step: Step)
    requires Next(s, s', step) && !step.Ilock? && !step.IputLock?
    ensures NoNewLock(s, s')
  {
  }

  lemma LocksKept(s: State, s': State, step: Step)
    requires Locks(s) && Next(s, s', step)
    ensures Locks(s')
  {
    if !step.Ilock? && !step.IputLock? { NoNewLockSteps(s, s', step); }
  }

  /** A step that gives no entry a new inode. */
  ghost predicate SameKeys(s: State, s': State) {
    && |s'.table| == |s.table| && s.disk.Keys <= s'.disk.Keys
    && forall e :: 0 <= e < |s.table| ==> s'.table[e].key == s.table[e].key && (s'.table[e].count > 0 ==>
          s.table[e].count > 0)
  }

  lemma SameKeysSteps(s: State, s': State, step: Step)
    requires Counts(s) && Next(s, s', step) && !step.IgetMiss?
    ensures SameKeys(s, s')
  {
    if step.Idup? { Referenced(s, step.h); }
  }

  lemma UniqueKept(s: State, s': State, step: Step)
    requires Counts(s) && Unique(s) && Next(s, s', step)
    ensures Unique(s')
  {
    if !step.IgetMiss? { SameKeysSteps(s, s', step); }
  }

  /** The steps that read and write only the table. */
  predicate TableStep(step: Step) {
    !step.Iupdate? && !step.Trunc? && !step.FreeDisk? && !step.Ialloc?
  }

  /** Reference counts aside, the entry is the same. */
  predicate SameFields(a: Entry, b: Entry) {
    b.key == a.key && b.valid == a.valid && b.inode == a.inode
  }

  /** The reference that takes the step, or that it makes. */
  function Mover(step: Step): int {
    if step.Ialloc? then -1 else if step.Idup? then step.g else step.h
  }

  /** Nobody else's entry changes while they have it locked. */
  lemma TableOther(s: State, s': State, step: Step, h: nat)
    requires Counts(s) && Locks(s) && Next(s, s', step) && TableStep(step) && h in s.users && h != Mover(step)
    ensures h in s'.users && s'.users[h] == s.users[h] && |s'.table| == |s.table| && s'.disk == s.disk
    ensures HasLock(s.users[h].phase) ==> SameFields(s.table[s.users[h].e], s'.table[s.users[h].e])
  {
    Referenced(s, h);
  }

  /** The mover in the steps that take the lock. */
  lemma TakerHolder(s: State, s': State, step: Step)
    requires Holders(s) && Coherent(s) && Counts(s) && Next(s, s', step) && (step.Ilock? || step.IputLock?)
    ensures step.h in s'.users && s'.users[step.h].e < |s'.table|
    ensures HolderOk(s', s'.table[s'.users[step.h].e], s'.users[step.h].phase)
  {
    Referenced(s, step.h);
  }

  lemma MoverHolder(s: State, s': State, step: Step, h: nat)
    requires Holders(s) && Next(s, s', step) && TableStep(step) && !step.Ilock? && !step.IputLock?
    requires h == Mover(step) && h in s'.users && s'.users[h].e < |s'.table|
    ensures HolderOk(s', s'.table[s'.users[h].e], s'.users[h].phase)
  {
    if h in s.users { assert HolderOk(s, s.table[s.users[h].e], s.users[h].phase); }
  }

  lemma TableHolder(s: State, s': State, step: Step, h: nat)
    requires Inv(s) && Next(s, s', step) && TableStep(step) && h in s'.users && s'.users[h].e < |s'.table|
    ensures HolderOk(s', s'.table[s'.users[h].e], s'.users[h].phase)
  {
    if h == Mover(step) {
      if step.Ilock? || step.IputLock? { TakerHolder(s, s', step); } else { MoverHolder(s, s', step, h); }
    } else {
      NoStranger(s, s', step, h);
      TableOther(s, s', step, h);
      assert HolderOk(s, s.table[s.users[h].e], s.users[h].phase);
    }
  }

  lemma NoStranger(s: State, s': State, step: Step, h: nat)
    requires Next(s, s', step) && h in s'.users && h != Mover(step)
    ensures h in s.users
  {
  }

  lemma DiskHolder(s: State, s': State, step: Step, h: nat)
    requires Inv(s) && Next(s, s', step) && (step.Iupdate? || step.Trunc? || step.FreeDisk?) && h in s.users
    requires h in s'.users
    requires s'.users[h].e < |s'.table|
    ensures HolderOk(s', s'.table[s'.users[h].e], s'.users[h].phase)
  {
    Referenced(s, h);
    Referenced(s, step.h);
    assert HolderOk(s, s.table[s.users[h].e], s.users[h].phase);
    assert HolderOk(s, s.table[s.users[step.h].e], s.users[step.h].phase);
  }

  lemma IallocHolder(s: State, s': State, key: nat, typ: nat, h: nat)
    requires Holders(s) && IallocStep(s, s', key, typ) && h in s.users && s.users[h].e < |s.table|
    ensures HolderOk(s', s'.table[s'.users[h].e], s'.users[h].phase)
  {
    assert HolderOk(s, s.table[s.users[h].e], s.users[h].phase);
  }

  lemma HoldersKept(s: State, s': State, step: Step)
    requires Inv(s) && Next(s, s', step)
    ensures Holders(s')
  {
    forall h | h in s'.users && s'.users[h].e < |s'.table|
      ensures HolderOk(s', s'.table[s'.users[h].e], s'.users[h].phase) {
      if TableStep(step) {
        TableHolder(s, s', step, h);
      } else if step.Ialloc? {
        IallocHolder(s, s', step.key, step.typ, h);
      } else {
        DiskHolder(s, s', step, h);
      }
    }
  }

  // ----- Coherence ------------------------------------------------------------------------------

  /** An entry that is unlocked after the step was unlocked before it, or the mover
      has just unlocked it. */
  lemma StillFree(s: State, s': State, step: Step, e: nat)
    requires Next(s, s', step) && LockFree(s', e)
    ensures LockFree(s, e) || ((step.Iunlock? || step.IputUnlock?) && s.users[step.h].e == e)
  {
    forall g | g in s.users && s.users[g].e == e && !((step.Iunlock? || step.IputUnlock?) && g == step.h)
      ensures !HasLock(s.users[g].phase)
    {
      assert g in s'.users || step.Drop?;
    }
  }

  /** Nobody changes an unlocked entry, except to count a reference or to recycle it. */
  lemma FreeEntry(s: State, s': State, step: Step, e: nat)
    requires Next(s, s', step) && e < |s.table| && LockFree(s, e)
    ensures |s'.table| == |s.table|
    ensures (SameFields(s.table[e], s'.table[e]) || (step.IgetMiss? && step.e == e && !s'.table[e].valid))
  {
  }

  /** Nor what is on disk for it. */
  lemma FreeDinode(s: State, s': State, step: Step, e: nat)
    requires Counts(s) && Unique(s) && Next(s, s', step) && e < |s.table| && LockFree(s, e) && s.table[e].count > 0
    requires Same(s, s.table[e])
    ensures s.table[e].key in s'.disk && s'.disk[s.table[e].key] == s.disk[s.table[e].key]
  {
    if step.Iupdate? || step.Trunc? || step.FreeDisk? { Referenced(s, step.h); }
  }

  lemma FreedCoherent(s: State, s': State, step: Step)
    requires Holders(s) && Next(s, s', step) && (step.Iunlock? || step.IputUnlock?)
    ensures |s'.table| == |s.table| && s.users[step.h].e < |s.table|
    ensures s'.table[s.users[step.h].e].valid ==> Same(s', s'.table[s.users[step.h].e])
  {
    assert HolderOk(s, s.table[s.users[step.h].e], s.users[step.h].phase);
  }

  lemma EntryCoherent(s: State, s': State, step: Step, e: nat)
    requires Inv(s) && Next(s, s', step) && e < |s'.table| && s'.table[e].count > 0 && s'.table[e].valid
    requires LockFree(s', e)
    ensures Same(s', s'.table[e])
  {
    StillFree(s, s', step, e);
    if (step.Iunlock? || step.IputUnlock?) && s.users[step.h].e == e {
      FreedCoherent(s, s', step);
    } else {
      FreeEntry(s, s', step, e);
      StillCounted(s, s', step, e);
      FreeDinode(s, s', step, e);
    }
  }

  lemma StillCounted(s: State, s': State, step: Step, e: nat)
    requires Counts(s) && Next(s, s', step) && e < |s.table| && e < |s'.table| && s'.table[e].count > 0
    ensures s.table[e].count > 0 || (step.IgetMiss? && step.e == e)
  {
    if step.Idup? { Referenced(s, step.h); }
  }

  lemma CoherentKept(s: State, s': State, step: Step)
    requires Inv(s) && Next(s, s', step)
    ensures Coherent(s')
  {
    forall e | 0 <= e < |s'.table| && s'.table[e].count > 0 && s'.table[e].valid && LockFree(s', e)
      ensures Same(s', s'.table[e]) {
      EntryCoherent(s, s', step, e);
    }
  }

  lemma NextInv(s: State, s': State, step: Step)
    requires Inv(s) && Next(s, s', step)
    ensures Inv(s')
  {
    CountsKept(s, s', step);
    LocksKept(s, s', step);
    UniqueKept(s, s', step);
    HoldersKept(s, s', step);
    CoherentKept(s, s', step);
  }

  // ----- Whole runs -----------------------------------------------------------------------------

  ghost predicate IsRun(run: seq<State>, steps: seq<Step>) {
    && |run| == |steps| + 1 && Init(run[0])
    && forall i :: 0 <= i < |steps| ==> Next(run[i], run[i + 1], steps[i])
  }

  lemma {:induction false} RunInv(run: seq<State>, steps: seq<Step>, i: nat)
    requires IsRun(run, steps) && i < |run|
    ensures Inv(run[i])
    decreases i
  {
    if i == 0 {
      forall e | 0 <= e < |run[0].table| ensures |UsersOf(run[0].users, e)| == 0 {
        assert UsersOf(run[0].users, e) == {};
      }
    } else {
      RunInv(run, steps, i - 1);
      NextInv(run[i - 1], run[i], steps[i - 1]);
    }
  }

  /** In every run, an inode has at most one referenced entry. */
  lemma OneEntryPerInode(run: seq<State>, steps: seq<Step>, i: nat, d: nat, e: nat)
    requires IsRun(run, steps) && i < |run| && d < |run[i].table| && e < |run[i].table|
    requires run[i].table[d].count > 0 && run[i].table[e].count > 0 && run[i].table[d].key == run[i].table[e].key
    ensures d == e
  {
    RunInv(run, steps, i);
  }

  /** In every run, a referenced entry that is valid and not locked is the inode on
      disk, allocated; also while ialloc() reuses an inode that iput() is freeing. */
  lemma UnlockedIsOnDisk(run: seq<State>, steps: seq<Step>, i: nat, e: nat)
    requires IsRun(run, steps) && i < |run| && e < |run[i].table|
    requires run[i].table[e].count > 0 && run[i].table[e].valid && LockFree(run[i], e)
    ensures run[i].table[e].key in run[i].disk && run[i].disk[run[i].table[e].key] == run[i].table[e].inode
    ensures run[i].table[e].inode.typ != 0
  {
    RunInv(run, steps, i);
  }

  /** In every run, the lock that iput() takes while it holds itable.lock is free:
      whoever had it would have a second reference. */
  lemma IputNeverBlocks(run: seq<State>, steps: seq<Step>, i: nat, h: nat)
    requires IsRun(run, steps) && i < |run| && At(run[i], h, Idle) && LastAndUnlinked(EntryOf(run[i], h))
    ensures LockFree(run[i], run[i].users[h].e)
  {
    RunInv(run, steps, i);
    forall g | g in run[i].users && run[i].users[g].e == run[i].users[h].e ensures g == h {
      OnlyUser(run[i], h, g);
    }
  }

  /** In every run, whoever has read an inode in sees an allocated inode equal to the
      one on disk until they change it. */
  lemma LockedIsOnDisk(run: seq<State>, steps: seq<Step>, i: nat, h: nat)
    requires IsRun(run, steps) && i < |run| && At(run[i], h, Locked(false))
    ensures EntryOf(run[i], h).valid && Same(run[i], EntryOf(run[i], h))
  {
    RunInv(run, steps, i);
    assert HolderOk(run[i], run[i].table[run[i].users[h].e], run[i].users[h].phase);
  }

  // ----- The searches -----------------------------------------------------------------------------

  /** iget() under itable.lock, on a table with at most one referenced entry per
      inode: the entry of the inode if it has one, else the first free entry; e is
      the size of the table where the source panics. */
  class Table {
    var entries: seq<Entry>

    /** The entry that is referenced for the inode, or the first free one. */
    method Search(key: nat) returns (found: nat, empty: nat)
      ensures found <= |entries| && empty <= |entries|
      ensures found < |entries| ==> entries[found].count > 0 && entries[found].key == key
      ensures found == |entries| ==> forall i :: 0 <= i < |entries| ==> !(entries[i].count > 0 && entries[i].key == key)
      ensures found == |entries| && empty < |entries| ==> entries[empty].count == 0 && forall i :: 0 <= i < empty ==>
                entries[i].count != 0
      ensures found == |entries| == empty ==> forall i :: 0 <= i < |entries| ==> entries[i].count != 0
    {
      found, empty := 0, |entries|;
      while found < |entries|
        invariant found <= |entries| && empty <= |entries|
        invariant forall i :: 0 <= i < found ==> !(entries[i].count > 0 && entries[i].key == key)
        invariant empty < |entries| ==> empty < found && entries[empty].count == 0
        invariant forall i :: 0 <= i < found && i < empty ==> entries[i].count != 0
      {
        if entries[found].count > 0 && entries[found].key == key {
          return;
        }
        if empty == |entries| && entries[found].count == 0 {
          empty := found;
        }
        found := found + 1;
      }
    }

    /** iget(): what it does to the table is one of the steps above, for any disk and
        any references. */
    method Iget(key: nat, ghost disk: map<nat, Dinode>, ghost users: map<nat, Handle>, ghost h: nat) returns (e: nat)
      requires key in disk && h !in users
      modifies this
      ensures e <= |entries| == |old(entries)|
      ensures e < |entries| ==>
        var s, s' := State(disk, old(entries), users), State(disk, entries, users[h := Handle(e, Idle)]);
        IgetHitStep(s, s', h, key, e) || IgetMissStep(s, s', h, key, e)
      ensures e == |entries| ==> entries == old(entries) && forall i :: 0 <= i < |entries| ==> entries[i].count != 0
    {
      var empty;
      e, empty := Search(key);
      if e < |entries| {
        entries := entries[e := entries[e].(count := entries[e].count + 1)];
        return;
      }
      e := empty;
      if e < |entries| {
        entries := entries[e := entries[e].(key := key, count := 1, valid := false)];
      }
    }
  }

  /** ialloc(): the first free inode from 1 on, 0 if there is none. */
  method FindFree(disk: seq<Dinode>) returns (inum: nat)
    ensures inum == 0 ==> forall i :: 1 <= i < |disk| ==> disk[i].typ != 0
    ensures inum != 0 ==> inum < |disk| && disk[inum].typ == 0 && forall i :: 1 <= i < inum ==> disk[i].typ != 0
  {
    inum := 1;
    while inum < |disk|
      invariant 1 <= inum && forall i :: 1 <= i < inum && i < |disk| ==> disk[i].typ != 0
    {
      if disk[inum].typ == 0 {
        return;
      }
      inum := inum + 1;
    }
    inum := 0;
  }
}
