/** The buffer cache of kernel/bio.c as a protocol between any number of users:
    bread, modification, log_write or bwrite, brelse, and the pins of the log. The
    steps are the stretches of code that run under bcache.lock or the buffer's own
    lock, and single disk transfers. */
module BufferCache {
  import opened Blocks

  datatype Key = Key(dev: nat, blockno: nat)

  datatype Buf = Buf(key: Key, valid: bool, refcnt: int, data: Block)

  /** A user of a buffer, from bget() to the end of brelse(): waiting for the lock,
      holding it (with changes neither logged nor written, or without), or past
      releasesleep(). */
  datatype Phase = Waiting | Owner(dirty: bool) | Leaving

  datatype Handle = Handle(buf: nat, phase: Phase)

  /** Contents handed to log_write() or bwrite(). */
  datatype Update = Update(key: Key, data: Block)

  /** `pinned` are the buffers whose block is in the current transaction; `updates`
      is a history variable. */
  datatype State = State(
    disk: map<Key, Block>, bufs: seq<Buf>, users: map<nat, Handle>, pinned: set<nat>, updates: seq<Update>)

  datatype Step =
    | Hit(h: nat, key: Key, b: nat)
    | Recycle(h: nat, key: Key, b: nat)
    | Lock(h: nat)
    | Fill(h: nat)
    | Modify(h: nat, data: Block)
    | LogWrite(h: nat)
    | Bwrite(h: nat)
    | Unpin(h: nat)
    | Unlock(h: nat)
    | Drop(h: nat)

  /** What an uncached disk would hold in block k: the contents last logged or
      written there, or else the initial ones. */
  function Latest(disk0: map<Key, Block>, updates: seq<Update>, k: Key): Block
    requires k in disk0
  {
    if updates == [] then disk0[k]
    else if updates[|updates| - 1].key == k then updates[|updates| - 1].data
    else Latest(disk0, updates[..|updates| - 1], k)
  }

  lemma LatestAfter(disk0: map<Key, Block>, updates: seq<Update>, u: Update, k: Key)
    requires k in disk0
    ensures Latest(disk0, updates + [u], k) == if u.key == k then u.data else Latest(disk0, updates, k)
  {
    assert (updates + [u])[..|updates|] == updates;
  }

  function UsersOf(users: map<nat, Handle>, b: nat): set<nat> {
    set h | h in users && users[h].buf == b
  }

  // ----- The steps --------------------------------------------------------------------

  predicate Holds(s: State, h: nat) {
    h in s.users && s.users[h].buf < |s.bufs| && s.users[h].phase.Owner?
  }

  function BufOf(s: State, h: nat): Buf
    requires Holds(s, h)
  {
    s.bufs[s.users[h].buf]
  }

  function WithBuf(s: State, b: nat, buf: Buf): State
    requires b < |s.bufs|
  {
    s.(bufs := s.bufs[b := buf])
  }

  /** bget() finds the block: first half, under bcache.lock. */
  ghost predicate HitStep(s: State, s': State, h: nat, key: Key, b: nat) {
    && key in s.disk && key.dev != 0 && h !in s.users && b < |s.bufs| && s.bufs[b].key == key
    && s' == WithBuf(s, b, s.bufs[b].(refcnt := s.bufs[b].refcnt + 1)).(users := s.users[h := Handle(b, Waiting)])
  }

  /** bget() does not, and takes over an unused buffer. */
  ghost predicate RecycleStep(s: State, s': State, h: nat, key: Key, b: nat) {
    && key in s.disk && key.dev != 0 && h !in s.users && b < |s.bufs| && s.bufs[b].refcnt == 0
    && (forall c :: 0 <= c < |s.bufs| ==> s.bufs[c].key != key)
    && s' == WithBuf(s, b, s.bufs[b].(key := key, valid := false, refcnt := 1))
             .(users := s.users[h := Handle(b, Waiting)])
  }

  /** acquiresleep() gets the lock. */
  ghost predicate LockStep(s: State, s': State, h: nat) {
    && h in s.users && s.users[h].phase == Waiting
    && (forall g :: g in s.users && s.users[g].buf == s.users[h].buf ==> !s.users[g].phase.Owner?)
    && s' == s.(users := s.users[h := s.users[h].(phase := Owner(false))])
  }

  /** bread() reads the block in. */
  ghost predicate FillStep(s: State, s': State, h: nat) {
    && Holds(s, h) && !BufOf(s, h).valid && BufOf(s, h).key in s.disk
    && s' == WithBuf(s, s.users[h].buf, BufOf(s, h).(data := s.disk[BufOf(s, h).key], valid := true))
  }

  /** The holder changes the contents. */
  ghost predicate ModifyStep(s: State, s': State, h: nat, data: Block) {
    && Holds(s, h) && BufOf(s, h).valid
    && s' == WithBuf(s, s.users[h].buf, BufOf(s, h).(data := data))
             .(users := s.users[h := s.users[h].(phase := Owner(true))])
  }

  /** log_write(): the block is recorded, and pinned if it was not in the
      transaction yet. */
  ghost predicate LogWriteStep(s: State, s': State, h: nat) {
    && Holds(s, h) && BufOf(s, h).valid
    && var b, buf := s.users[h].buf, BufOf(s, h);
       s' == s.(bufs := s.bufs[b := buf.(refcnt := buf.refcnt + if b in s.pinned then 0 else 1)],
                pinned := s.pinned + {b},
                users := s.users[h := Handle(b, Owner(false))], updates := s.updates + [Update(buf.key, buf.data)])
  }

  /** bwrite() */
  ghost predicate BwriteStep(s: State, s': State, h: nat) {
    && Holds(s, h) && BufOf(s, h).valid && BufOf(s, h).key in s.disk
    && var b, buf := s.users[h].buf, BufOf(s, h);
       s' == s.(disk := s.disk[buf.key := buf.data], users := s.users[h := Handle(b, Owner(false))],
                updates := s.updates + [Update(buf.key, buf.data)])
  }

  /** bunpin(), which install_trans() calls once it has written the block home. */
  ghost predicate UnpinStep(s: State, s': State, h: nat) {
    && Holds(s, h) && s.users[h].phase == Owner(false) && s.users[h].buf in s.pinned
    && BufOf(s, h).key in s.disk && s.disk[BufOf(s, h).key] == BufOf(s, h).data
    && s' == WithBuf(s, s.users[h].buf, BufOf(s, h).(refcnt := BufOf(s, h).refcnt - 1))
             .(pinned := s.pinned - {s.users[h].buf})
  }

  /** brelse(), first half: releasesleep(). Whoever changed the buffer has logged or
      written it. */
  ghost predicate UnlockStep(s: State, s': State, h: nat) {
    && Holds(s, h) && BufOf(s, h).valid && s.users[h].phase == Owner(false)
    && s' == s.(users := s.users[h := s.users[h].(phase := Leaving)])
  }

  /** brelse(), second half, under bcache.lock. */
  ghost predicate DropStep(s: State, s': State, h: nat) {
    && h in s.users && s.users[h].phase == Leaving && s.users[h].buf < |s.bufs|
    && var b := s.users[h].buf;
       s' == WithBuf(s, b, s.bufs[b].(refcnt := s.bufs[b].refcnt - 1)).(users := s.users - {h})
  }

  ghost predicate Next(s: State, s': State, step: Step) {
    match step
    case Hit(h, key, b) => HitStep(s, s', h, key, b)
    case Recycle(h, key, b) => RecycleStep(s, s', h, key, b)
    case Lock(h) => LockStep(s, s', h)
    case Fill(h) => FillStep(s, s', h)
    case Modify(h, data) => ModifyStep(s, s', h, data)
    case LogWrite(h) => LogWriteStep(s, s', h)
    case Bwrite(h) => BwriteStep(s, s', h)
    case Unpin(h) => UnpinStep(s, s', h)
    case Unlock(h) => UnlockStep(s, s', h)
    case Drop(h) => DropStep(s, s', h)
  }

  /** binit(): every buffer unused, with key (0, 0). */
  ghost predicate Init(s: State) {
    && (forall b :: 0 <= b < |s.bufs| ==> s.bufs[b].key.dev == 0 && !s.bufs[b].valid && s.bufs[b].refcnt == 0)
    && s.users == map[] && s.pinned == {} && s.updates == []
  }

  // ----- The invariant -------------------------------------------------------------------

  /** References are exactly the users and the pin. */
  ghost predicate Counts(s: State) {
    && (forall b :: b in s.pinned ==> b < |s.bufs|)
    && (forall h :: h in s.users ==> s.users[h].buf < |s.bufs|)
    && (forall b :: 0 <= b < |s.bufs| ==> s.bufs[b].refcnt == |UsersOf(s.users, b)| + if b in s.pinned then 1 else 0)
  }

  ghost predicate Locks(s: State) {
    forall g, h :: g in s.users && h in s.users && s.users[g].phase.Owner? && s.users[h].phase.Owner? &&
        s.users[g].buf == s.users[h].buf
      ==> g == h
  }

  /** A block of a real device is in at most one buffer. */
  ghost predicate Unique(s: State) {
    forall b, c :: 0 <= b < c < |s.bufs| && s.bufs[b].key == s.bufs[c].key ==> s.bufs[b].key.dev == 0
  }

  ghost predicate Keys(s: State, disk0: map<Key, Block>) {
    && s.disk.Keys == disk0.Keys
    && (forall b :: 0 <= b < |s.bufs| && s.bufs[b].valid ==> s.bufs[b].key in s.disk)
    && (forall b :: b in s.pinned && b < |s.bufs| ==> s.bufs[b].valid && s.bufs[b].key.dev != 0)
  }

  /** A buffer in use is for a block of a real device. */
  ghost predicate Uses(s: State) {
    forall h :: h in s.users && s.users[h].buf < |s.bufs| ==>
      s.bufs[s.users[h].buf].key.dev != 0 && s.bufs[s.users[h].buf].key in s.disk
  }

  ghost predicate Dirty(s: State, b: nat) {
    exists h :: h in s.users && s.users[h].buf == b && s.users[h].phase == Owner(true)
  }

  /** A valid buffer that nobody is changing has the latest contents. */
  ghost predicate Current(s: State, disk0: map<Key, Block>) {
    forall b :: 0 <= b < |s.bufs| && s.bufs[b].valid && s.bufs[b].key in disk0 && !Dirty(s, b) ==>
      s.bufs[b].data == Latest(disk0, s.updates, s.bufs[b].key)
  }

  ghost predicate PinnedKey(s: State, k: Key) {
    exists b :: b in s.pinned && b < |s.bufs| && s.bufs[b].key == k
  }

  /** Only the pinned blocks differ from the disk. */
  ghost predicate OnDisk(s: State, disk0: map<Key, Block>) {
    forall k :: k in s.disk && k in disk0 && !PinnedKey(s, k) ==> s.disk[k] == Latest(disk0, s.updates, k)
  }

  ghost predicate Inv(s: State, disk0: map<Key, Block>) {
    Counts(s) && Locks(s) && Unique(s) && Keys(s, disk0) && Uses(s) && Current(s, disk0) && OnDisk(s, disk0)
  }

  // ----- Counting users --------------------------------------------------------------------

  lemma UserJoins(users: map<nat, Handle>, h: nat, hd: Handle, b: nat)
    requires h !in users
    ensures |UsersOf(users[h := hd], b)| == |UsersOf(users, b)| + if hd.buf == b then 1 else 0
  {
    if hd.buf == b {
      assert UsersOf(users[h := hd], b) == UsersOf(users, b) + {h};
    } else {
      assert UsersOf(users[h := hd], b) == UsersOf(users, b);
    }
  }

  lemma UserStays(users: map<nat, Handle>, h: nat, hd: Handle, b: nat)
    requires h in users && hd.buf == users[h].buf
    ensures UsersOf(users[h := hd], b) == UsersOf(users, b)
  {
  }

  lemma UserLeaves(users: map<nat, Handle>, h: nat, b: nat)
    requires h in users
    ensures |UsersOf(users - {h}, b)| == |UsersOf(users, b)| - if users[h].buf == b then 1 else 0
  {
    if users[h].buf == b {
      assert UsersOf(users, b) == UsersOf(users - {h}, b) + {h};
    } else {
      assert UsersOf(users - {h}, b) == UsersOf(users, b);
    }
  }

  /** Nobody uses an unreferenced buffer, and the log has not pinned it. */
  lemma Unreferenced(s: State, b: nat)
    requires Counts(s) && b < |s.bufs| && s.bufs[b].refcnt == 0
    ensures b !in s.pinned && forall h :: h in s.users ==> s.users[h].buf != b
  {
    assert UsersOf(s.users, b) == {};
    forall h | h in s.users ensures s.users[h].buf != b {
      assert h !in UsersOf(s.users, b);
    }
  }

  // ----- Every step keeps the invariant -------------------------------------------------------

  lemma CountsKept(s: State, s': State, step: Step)
    requires Counts(s) && Next(s, s', step)
    ensures Counts(s')
  {
    forall b | 0 <= b < |s'.bufs|
      ensures s'.bufs[b].refcnt == |UsersOf(s'.users, b)| + if b in s'.pinned then 1 else 0 {
      match step
      case Hit(h, key, c) => UserJoins(s.users, h, Handle(c, Waiting), b);
      case Recycle(h, key, c) =>
        UserJoins(s.users, h, Handle(c, Waiting), b);
        assert |UsersOf(s.users, c)| >= 0;
      case Lock(h) => UserStays(s.users, h, s'.users[h], b);
      case Fill(h) =>
      case Modify(h, data) => UserStays(s.users, h, s'.users[h], b);
      case LogWrite(h) => UserStays(s.users, h, s'.users[h], b);
      case Bwrite(h) => UserStays(s.users, h, s'.users[h], b);
      case Unpin(h) =>
      case Unlock(h) => UserStays(s.users, h, s'.users[h], b);
      case Drop(h) => UserLeaves(s.users, h, b);
    }
  }

  lemma LocksKept(s: State, s': State, step: Step)
    requires Locks(s) && Next(s, s', step)
    ensures Locks(s')
  {
  }

  lemma UniqueKept(s: State, s': State, step: Step)
    requires Unique(s) && Next(s, s', step)
    ensures Unique(s')
  {
  }

  lemma KeysKept(s: State, s': State, step: Step, disk0: map<Key, Block>)
    requires Counts(s) && Keys(s, disk0) && Uses(s) && Next(s, s', step)
    ensures Keys(s', disk0)
  {
    if step.Recycle? { Unreferenced(s, step.b); }
  }

  /** A step that gives no buffer a new user or a new block. */
  ghost predicate SameUses(s: State, s': State) {
    && s'.disk.Keys == s.disk.Keys && |s'.bufs| == |s.bufs|
    && (forall b :: 0 <= b < |s.bufs| ==> s'.bufs[b].key == s.bufs[b].key)
    && (forall h :: h in s'.users ==> h in s.users && s'.users[h].buf == s.users[h].buf)
  }

  lemma SameUsesSteps(s: State, s': State, step: Step)
    requires Next(s, s', step) && !step.Hit? && !step.Recycle?
    ensures SameUses(s, s')
  {
  }

  lemma UsesKept(s: State, s': State, step: Step)
    requires Counts(s) && Uses(s) && Next(s, s', step)
    ensures Uses(s')
  {
    if step.Recycle? {
      Unreferenced(s, step.b);
    } else if !step.Hit? {
      SameUsesSteps(s, s', step);
    }
  }

  lemma NotDirty(s: State, h: nat)
    requires Locks(s) && h in s.users && s.users[h].phase == Owner(false)
    ensures !Dirty(s, s.users[h].buf)
  {
  }

  /** A step that leaves contents, disk, pins and history alone. */
  ghost predicate Quiet(s: State, s': State) {
    && s'.disk == s.disk && s'.pinned == s.pinned && s'.updates == s.updates && |s'.bufs| == |s.bufs|
    && (forall b :: 0 <= b < |s.bufs| ==>
          s'.bufs[b].key == s.bufs[b].key && s'.bufs[b].valid == s.bufs[b].valid && s'.bufs[b].data == s.bufs[b].data)
    && (forall h :: h in s.users && s.users[h].phase == Owner(true) ==> h in s'.users && s'.users[h] == s.users[h])
  }

  lemma QuietSteps(s: State, s': State, step: Step)
    requires Next(s, s', step) && (step.Hit? || step.Lock? || step.Unlock? || step.Drop?)
    ensures Quiet(s, s')
  {
  }

  lemma QuietKept(s: State, s': State, disk0: map<Key, Block>)
    requires Quiet(s, s') && Current(s, disk0) && OnDisk(s, disk0)
    ensures Current(s', disk0) && OnDisk(s', disk0)
  {
    forall b | 0 <= b < |s.bufs| && Dirty(s, b) ensures Dirty(s', b) {
      var h :| h in s.users && s.users[h].buf == b && s.users[h].phase == Owner(true);
      assert s'.users[h] == s.users[h];
    }
    forall k | PinnedKey(s, k) ensures PinnedKey(s', k) {
      var b :| b in s.pinned && b < |s.bufs| && s.bufs[b].key == k;
      assert s'.bufs[b].key == k;
    }
  }

  /** Who was changing another buffer still is. */
  lemma DirtyElsewhere(s: State, s': State, h: nat, c: nat)
    requires h in s.users && s.users[h].buf != c
    requires forall g :: g in s.users && g != h ==> g in s'.users && s'.users[g] == s.users[g]
    ensures Dirty(s, c) ==> Dirty(s', c)
  {
    if Dirty(s, c) {
      var g :| g in s.users && s.users[g].buf == c && s.users[g].phase == Owner(true);
      assert s'.users[g] == s.users[g];
    }
  }

  lemma DirtyStay(s: State, s': State)
    requires |s'.bufs| == |s.bufs| && forall g :: g in s.users ==> g in s'.users && s'.users[g] == s.users[g]
    ensures forall c :: 0 <= c < |s.bufs| && Dirty(s, c) ==> Dirty(s', c)
  {
    forall c | 0 <= c < |s.bufs| && Dirty(s, c) ensures Dirty(s', c) {
      var g :| g in s.users && s.users[g].buf == c && s.users[g].phase == Owner(true);
      assert s'.users[g] == s.users[g];
    }
  }

  /** A block that was pinned still is. */
  lemma PinsStay(s: State, s': State)
    requires |s'.bufs| == |s.bufs|
    requires forall b :: b in s.pinned && b < |s.bufs| ==> b in s'.pinned && s'.bufs[b].key == s.bufs[b].key
    ensures forall k :: PinnedKey(s, k) ==> PinnedKey(s', k)
  {
    forall k | PinnedKey(s, k) ensures PinnedKey(s', k) {
      var b :| b in s.pinned && b < |s.bufs| && s.bufs[b].key == k;
      assert s'.bufs[b].key == k;
    }
  }

  lemma RecycleKept(s: State, s': State, h: nat, key: Key, b: nat, disk0: map<Key, Block>)
    requires Inv(s, disk0) && RecycleStep(s, s', h, key, b)
    ensures Current(s', disk0) && OnDisk(s', disk0)
  {
    Unreferenced(s, b);
    DirtyStay(s, s');
    PinsStay(s, s');
  }

  /** bread() of an invalid buffer gets the latest contents: the block is not in the
      log, or it would be in a valid buffer. */
  lemma FillGetsLatest(s: State, h: nat, disk0: map<Key, Block>)
    requires Inv(s, disk0) && Holds(s, h) && !BufOf(s, h).valid
    ensures BufOf(s, h).key in s.disk && BufOf(s, h).key in disk0
    ensures s.disk[BufOf(s, h).key] == Latest(disk0, s.updates, BufOf(s, h).key)
  {
    var k := BufOf(s, h).key;
    forall c | c in s.pinned && c < |s.bufs| ensures s.bufs[c].key != k {
      assert c != s.users[h].buf;
    }
  }

  lemma FillKept(s: State, s': State, h: nat, disk0: map<Key, Block>)
    requires Inv(s, disk0) && FillStep(s, s', h)
    ensures Current(s', disk0) && OnDisk(s', disk0)
  {
    FillGetsLatest(s, h, disk0);
    forall c: nat | c < |s.bufs| && c != s.users[h].buf ensures Dirty(s, c) ==> Dirty(s', c) {
      DirtyElsewhere(s, s', h, c);
    }
    PinsStay(s, s');
  }

  lemma ModifyKept(s: State, s': State, h: nat, data: Block, disk0: map<Key, Block>)
    requires Current(s, disk0) && OnDisk(s, disk0) && ModifyStep(s, s', h, data)
    ensures Current(s', disk0) && OnDisk(s', disk0)
  {
    assert s'.users[h].buf == s.users[h].buf && s'.users[h].phase == Owner(true);
    assert Dirty(s', s.users[h].buf);
    forall c: nat | c < |s.bufs| && c != s.users[h].buf ensures Dirty(s, c) ==> Dirty(s', c) {
      DirtyElsewhere(s, s', h, c);
    }
    PinsStay(s, s');
  }

  /** What logging or writing a buffer does to the latest contents. */
  ghost predicate Records(s: State, s': State, h: nat) {
    && Holds(s, h) && |s'.bufs| == |s.bufs|
    && s'.updates == s.updates + [Update(BufOf(s, h).key, BufOf(s, h).data)]
    && (forall c :: 0 <= c < |s.bufs| ==>
          s'.bufs[c].key == s.bufs[c].key && s'.bufs[c].valid == s.bufs[c].valid && s'.bufs[c].data == s.bufs[c].data)
    && (forall g :: g in s.users && g != h ==> g in s'.users && s'.users[g] == s.users[g])
  }

  lemma RecordSteps(s: State, s': State, h: nat)
    requires LogWriteStep(s, s', h) || BwriteStep(s, s', h)
    ensures Records(s, s', h)
  {
  }

  lemma RecordsCurrent(s: State, s': State, h: nat, disk0: map<Key, Block>)
    requires Unique(s) && Uses(s) && Current(s, disk0) && Records(s, s', h)
    ensures Current(s', disk0)
  {
    var b, u := s.users[h].buf, Update(BufOf(s, h).key, BufOf(s, h).data);
    forall c | 0 <= c < |s.bufs| && s.bufs[c].valid && s.bufs[c].key in disk0 && !Dirty(s', c)
      ensures s'.bufs[c].data == Latest(disk0, s'.updates, s'.bufs[c].key)
    {
      LatestAfter(disk0, s.updates, u, s.bufs[c].key);
      if c != b {
        DirtyElsewhere(s, s', h, c);
        assert s.bufs[c].key != s.bufs[b].key;
      }
    }
  }

  lemma LogWriteOnDisk(s: State, s': State, h: nat, disk0: map<Key, Block>)
    requires OnDisk(s, disk0) && LogWriteStep(s, s', h)
    ensures OnDisk(s', disk0)
  {
    var b, u := s.users[h].buf, Update(BufOf(s, h).key, BufOf(s, h).data);
    assert s'.bufs[b].key == u.key && b in s'.pinned;
    PinsStay(s, s');
    forall k | k in s'.disk && k in disk0 && !PinnedKey(s', k) ensures s'.disk[k] == Latest(disk0, s'.updates, k) {
      LatestAfter(disk0, s.updates, u, k);
    }
  }

  lemma BwriteOnDisk(s: State, s': State, h: nat, disk0: map<Key, Block>)
    requires OnDisk(s, disk0) && BwriteStep(s, s', h)
    ensures OnDisk(s', disk0)
  {
    var u := Update(BufOf(s, h).key, BufOf(s, h).data);
    PinsStay(s, s');
    forall k | k in s'.disk && k in disk0 && !PinnedKey(s', k) ensures s'.disk[k] == Latest(disk0, s'.updates, k) {
      LatestAfter(disk0, s.updates, u, k);
    }
  }

  lemma UnpinKept(s: State, s': State, h: nat, disk0: map<Key, Block>)
    requires Locks(s) && Current(s, disk0) && OnDisk(s, disk0) && s.disk.Keys == disk0.Keys && UnpinStep(s, s', h)
    requires BufOf(s, h).valid
    ensures Current(s', disk0) && OnDisk(s', disk0)
  {
    var b := s.users[h].buf;
    NotDirty(s, h);
    forall c | 0 <= c < |s.bufs| && Dirty(s, c) ensures Dirty(s', c) {
      var g :| g in s.users && s.users[g].buf == c && s.users[g].phase == Owner(true);
      assert s'.users[g] == s.users[g];
    }
    forall k | k != s.bufs[b].key && PinnedKey(s, k) ensures PinnedKey(s', k) {
      var c :| c in s.pinned && c < |s.bufs| && s.bufs[c].key == k;
      assert s'.bufs[c].key == k && c in s'.pinned;
    }
  }

  lemma ContentsKept(s: State, s': State, step: Step, disk0: map<Key, Block>)
    requires Inv(s, disk0) && Next(s, s', step)
    ensures Current(s', disk0) && OnDisk(s', disk0)
  {
    match step
    case Hit(_, _, _) => QuietSteps(s, s', step); QuietKept(s, s', disk0);
    case Recycle(h, key, b) => RecycleKept(s, s', h, key, b, disk0);
    case Lock(_) => QuietSteps(s, s', step); QuietKept(s, s', disk0);
    case Fill(h) => FillKept(s, s', h, disk0);
    case Modify(h, data) => ModifyKept(s, s', h, data, disk0);
    case LogWrite(h) => RecordSteps(s, s', h); RecordsCurrent(s, s', h, disk0); LogWriteOnDisk(s, s', h, disk0);
    case Bwrite(h) => RecordSteps(s, s', h); RecordsCurrent(s, s', h, disk0); BwriteOnDisk(s, s', h, disk0);
    case Unpin(h) => UnpinKept(s, s', h, disk0);
    case Unlock(_) => QuietSteps(s, s', step); QuietKept(s, s', disk0);
    case Drop(_) => QuietSteps(s, s', step); QuietKept(s, s', disk0);
  }

  lemma NextInv(s: State, s': State, step: Step, disk0: map<Key, Block>)
    requires Inv(s, disk0) && Next(s, s', step)
    ensures Inv(s', disk0)
  {
    CountsKept(s, s', step);
    LocksKept(s, s', step);
    UniqueKept(s, s', step);
    KeysKept(s, s', step, disk0);
    UsesKept(s, s', step);
    ContentsKept(s, s', step, disk0);
  }

  // ----- Whole runs ----------------------------------------------------------------------------

  ghost predicate IsRun(run: seq<State>, steps: seq<Step>) {
    && |run| == |steps| + 1 && Init(run[0])
    && forall i :: 0 <= i < |steps| ==> Next(run[i], run[i + 1], steps[i])
  }

  lemma {:induction false} RunInv(run: seq<State>, steps: seq<Step>, i: nat)
    requires IsRun(run, steps) && i < |run|
    ensures Inv(run[i], run[0].disk)
    decreases i
  {
    if i == 0 {
      forall b | 0 <= b < |run[0].bufs| ensures |UsersOf(run[0].users, b)| == 0 {
        assert UsersOf(run[0].users, b) == {};
      }
    } else {
      RunInv(run, steps, i - 1);
      NextInv(run[i - 1], run[i], steps[i - 1], run[0].disk);
    }
  }

  /** Cache transparency: in every run, whoever holds a buffer that bread() has made
      valid and has not changed it sees what an uncached disk would hold, the
      contents last logged or written there. */
  lemma BreadReturnsLatest(run: seq<State>, steps: seq<Step>, i: nat, h: nat)
    requires IsRun(run, steps) && i < |run| && Holds(run[i], h) && BufOf(run[i], h).valid
    requires run[i].users[h].phase == Owner(false)
    ensures BufOf(run[i], h).key in run[0].disk
    ensures BufOf(run[i], h).data == Latest(run[0].disk, run[i].updates, BufOf(run[i], h).key)
  {
    RunInv(run, steps, i);
    NotDirty(run[i], h);
  }

  /** In every run, an unreferenced buffer that is valid equals the disk, which has
      the latest contents: recycling it loses nothing. */
  lemma RecyclingLosesNothing(run: seq<State>, steps: seq<Step>, i: nat, b: nat)
    requires IsRun(run, steps) && i < |run| && b < |run[i].bufs| && run[i].bufs[b].refcnt == 0 && run[i].bufs[b].valid
    requires run[i].bufs[b].key.dev != 0
    ensures run[i].bufs[b].key in run[i].disk && run[i].bufs[b].key in run[0].disk
    ensures run[i].bufs[b].data == run[i].disk[run[i].bufs[b].key]
    ensures run[i].disk[run[i].bufs[b].key] == Latest(run[0].disk, run[i].updates, run[i].bufs[b].key)
  {
    RunInv(run, steps, i);
    var s := run[i];
    Unreferenced(s, b);
    forall c | c in s.pinned && c < |s.bufs| ensures s.bufs[c].key != s.bufs[b].key {
      assert c != b;
    }
  }

  /** In every run, the reference count is the number of users plus the pin. */
  lemma CountsAreExact(run: seq<State>, steps: seq<Step>, i: nat, b: nat)
    requires IsRun(run, steps) && i < |run| && b < |run[i].bufs|
    ensures run[i].bufs[b].refcnt == |UsersOf(run[i].users, b)| + if b in run[i].pinned then 1 else 0
  {
    RunInv(run, steps, i);
  }
}
