/** The disk driver of kernel/virtio_disk.c and the device behind it, sharing a table
    of descriptors and two rings (sections 2.6 and 5.2 of the virtio 1.1
    specification). The driver's methods run under vdisk_lock; the device's may
    come in between in any order. What one method leaves the next one finds:
    Valid() is an invariant of every interleaving. */
module VirtioDisk {
  import opened VirtioRing

  /** What a descriptor points to: the request header of chain h, the data of buffer
      b, the status byte of chain h. */
  datatype Addr = Null | Header(h: nat) | Data(b: nat) | Status(h: nat)

  /** `more` is VRING_DESC_F_NEXT, `write` is VRING_DESC_F_WRITE. */
  datatype Desc = Desc(addr: Addr, more: bool, write: bool, next: nat)

  /** ops[h]: the type of the request and its first sector. */
  datatype Op = Op(write: bool, sector: nat)

  /** info[h] and ops[h]: the buffer of the request, -1 for none, the status byte, and
      the request header. */
  datatype Info = Info(b: int, status: nat, op: Op)

  /** A request: put in the available ring; fetched by the device; put in the used
      ring; seen by the interrupt handler. */
  datatype Stage = Submitted | Taken | Done | Noted

  /** The chain with head h: its other descriptors, its buffer, its direction, the block
      of the disk it is about. */
  datatype Chain = Chain(d1: nat, d2: nat, b: nat, read: bool, blockno: nat, stage: Stage)

  /** Sectors of 512 bytes per block. */
  const SECTORS: nat := 2

  function OpOf(c: Chain): Op {
    Op(!c.read, SECTORS * c.blockno)
  }

  const EMPTY: Desc := Desc(Null, false, false, 0)

  // ----- Ownership of descriptors ---------------------------------------------------------

  ghost predicate IsMember(chains: map<nat, Chain>, h: nat, i: nat) {
    h in chains && (i == h || i == chains[h].d1 || i == chains[h].d2)
  }

  /** Chain h consists of three different descriptors, and they are its own. */
  ghost predicate OwnsThree(chains: map<nat, Chain>, owner: map<nat, nat>, h: nat)
    requires h in chains
  {
    var c := chains[h];
    && h in owner && owner[h] == h && c.d1 in owner && owner[c.d1] == h && c.d2 in owner && owner[c.d2] == h
    && h != c.d1 && h != c.d2 && c.d1 != c.d2
  }

  /** Every descriptor is free or in exactly one chain. */
  ghost predicate OwnerOk(free: seq<bool>, chains: map<nat, Chain>, owner: map<nat, nat>) {
    && |free| == NUM
    && (forall i :: 0 <= i < NUM ==> (free[i] <==> i !in owner))
    && (forall i :: i in owner ==> i < NUM && IsMember(chains, owner[i], i))
    && (forall h :: h in chains ==> OwnsThree(chains, owner, h))
  }

  /** Two requests have no descriptor in common. */
  lemma ChainsDisjoint(free: seq<bool>, chains: map<nat, Chain>, owner: map<nat, nat>, h: nat, k: nat)
    requires OwnerOk(free, chains, owner) && h in chains && k in chains && h != k
    ensures {h, chains[h].d1, chains[h].d2} !! {k, chains[k].d1, chains[k].d2}
  {
    assert OwnsThree(chains, owner, h) && OwnsThree(chains, owner, k);
  }

  function Marked(free: seq<bool>, a: nat, b: nat, c: nat, v: bool): seq<bool>
    requires a < |free| && b < |free| && c < |free|
  {
    free[a := v][b := v][c := v]
  }

  lemma OwnerStart(free: seq<bool>, chains: map<nat, Chain>, owner: map<nat, nat>, h: nat, c: Chain)
    requires OwnerOk(free, chains, owner) && h < NUM && c.d1 < NUM && c.d2 < NUM && free[h] && free[c.d1] && free[c.d2]
    requires h != c.d1 && h != c.d2 && c.d1 != c.d2
    ensures h !in chains
    ensures OwnerOk(Marked(free, h, c.d1, c.d2, false), chains[h := c], owner[h := h][c.d1 := h][c.d2 := h])
  {
    forall k | k in chains ensures k != h && OwnsThree(chains, owner, k) { assert OwnsThree(chains, owner, k); }
  }

  lemma OwnerFinish(free: seq<bool>, chains: map<nat, Chain>, owner: map<nat, nat>, h: nat)
    requires OwnerOk(free, chains, owner) && h in chains
    ensures h < NUM && chains[h].d1 < NUM && chains[h].d2 < NUM
    ensures OwnerOk(Marked(free, h, chains[h].d1, chains[h].d2, true), chains - {h},
                    owner - {h, chains[h].d1, chains[h].d2})
  {
    assert OwnsThree(chains, owner, h);
    var c, chains', owner' := chains[h], chains - {h}, owner - {h, chains[h].d1, chains[h].d2};
    forall k | k in chains' ensures OwnsThree(chains', owner', k) { assert OwnsThree(chains, owner, k); }
    forall i | i in owner' ensures IsMember(chains', owner'[i], i) { assert IsMember(chains, owner[i], i); }
  }

  lemma OwnerStage(free: seq<bool>, chains: map<nat, Chain>, owner: map<nat, nat>, h: nat, stage: Stage)
    requires OwnerOk(free, chains, owner) && h in chains
    ensures OwnerOk(free, chains[h := chains[h].(stage := stage)], owner)
  {
    var chains' := chains[h := chains[h].(stage := stage)];
    forall k | k in chains' ensures OwnsThree(chains', owner, k) { assert OwnsThree(chains, owner, k); }
    forall i | i in owner ensures IsMember(chains', owner[i], i) { assert IsMember(chains, owner[i], i); }
  }

  // ----- What the descriptors and the bookkeeping say ------------------------------------------

  ghost predicate ChainDesc(desc: seq<Desc>, h: nat, c: Chain) {
    && |desc| == NUM && h < NUM && c.d1 < NUM && c.d2 < NUM
    && desc[h] == Desc(Header(h), true, false, c.d1) && desc[c.d1] == Desc(Data(c.b), true, c.read, c.d2)
    && desc[c.d2] == Desc(Status(h), false, true, 0)
  }

  ghost predicate DescsOk(desc: seq<Desc>, chains: map<nat, Chain>) {
    |desc| == NUM && forall h :: h in chains ==> ChainDesc(desc, h, chains[h])
  }

  predicate InfoOk(x: Info, c: Chain) {
    x.b == c.b && x.op == OpOf(c) && (c.stage == Done ==> x.status == 0)
  }

  ghost predicate InfosOk(info: seq<Info>, chains: map<nat, Chain>) {
    && |info| == NUM
    && (forall h :: h in chains && h < NUM ==> InfoOk(info[h], chains[h]))
  }

  /** The rings hold the requests of the stage, each once. */
  ghost predicate RingOk(q: seq<nat>, chains: map<nat, Chain>, stage: Stage) {
    Distinct(q) && forall h :: h in q <==> h in chains && chains[h].stage == stage
  }

  /** A buffer belongs to the disk while its request is under way; no buffer is in two
      requests. */
  ghost predicate BusyOk(busy: set<nat>, chains: map<nat, Chain>, user: map<nat, nat>) {
    && (forall h :: h in chains ==>
          chains[h].b in user && user[chains[h].b] == h && (chains[h].b in busy <==> chains[h].stage != Noted))
    && (forall b :: b in user ==> user[b] in chains && chains[user[b]].b == b)
    && busy <= user.Keys
  }

  lemma RingStage(q: seq<nat>, chains: map<nat, Chain>, stage: Stage, h: nat, to: Stage)
    requires RingOk(q, chains, stage) && h in chains && chains[h].stage != stage && to != stage
    ensures RingOk(q, chains[h := chains[h].(stage := to)], stage)
  {
  }

  lemma RingPush(q: seq<nat>, chains: map<nat, Chain>, chains': map<nat, Chain>, stage: Stage, h: nat)
    requires RingOk(q, chains, stage) && h !in q && h in chains' && chains'[h].stage == stage
    requires forall k :: k != h ==>
              ((k in chains' && chains'[k].stage == stage) <==> (k in chains && chains[k].stage == stage))
    ensures RingOk(q + [h], chains', stage)
  {
  }

  lemma RingPop(q: seq<nat>, chains: map<nat, Chain>, stage: Stage, to: Stage)
    requires RingOk(q, chains, stage) && q != [] && to != stage
    ensures q[0] in chains && chains[q[0]].stage == stage
    ensures RingOk(q[1..], chains[q[0] := chains[q[0]].(stage := to)], stage)
  {
    var h, rest := q[0], q[1..];
    assert h in q;
    forall k ensures k in rest <==> k in q && k != h {
      if k in q && k != h {
        var i :| 0 <= i < |q| && q[i] == k;
        assert rest[i - 1] == k;
      }
    }
  }

  /** Descriptors in no chain may change. */
  lemma DescsFrame(desc: seq<Desc>, desc': seq<Desc>, free: seq<bool>, chains: map<nat, Chain>, owner: map<nat, nat>)
    requires DescsOk(desc, chains) && OwnerOk(free, chains, owner) && |desc'| == NUM
    requires forall i :: 0 <= i < NUM && !free[i] ==> desc'[i] == desc[i]
    ensures DescsOk(desc', chains)
  {
    forall h | h in chains ensures ChainDesc(desc', h, chains[h]) {
      assert OwnsThree(chains, owner, h) && ChainDesc(desc, h, chains[h]);
    }
  }

  function Formatted(desc: seq<Desc>, h: nat, c: Chain): seq<Desc>
    requires h < |desc| && c.d1 < |desc| && c.d2 < |desc|
  {
    desc[h := Desc(Header(h), true, false, c.d1)]
        [c.d1 := Desc(Data(c.b), true, c.read, c.d2)]
        [c.d2 := Desc(Status(h), false, true, 0)]
  }

  /** Formatting three free descriptors leaves the other chains alone. */
  lemma DescsStart(desc: seq<Desc>, free: seq<bool>, chains: map<nat, Chain>, owner: map<nat, nat>, h: nat, c: Chain)
    requires DescsOk(desc, chains) && OwnerOk(free, chains, owner) && h < NUM && c.d1 < NUM && c.d2 < NUM
    requires free[h] && free[c.d1] && free[c.d2] && h != c.d1 && h != c.d2 && c.d1 != c.d2
    ensures DescsOk(Formatted(desc, h, c), chains[h := c])
  {
    DescsFrame(desc, Formatted(desc, h, c), free, chains, owner);
  }

  lemma BusyStart(busy: set<nat>, chains: map<nat, Chain>, user: map<nat, nat>, h: nat, c: Chain)
    requires BusyOk(busy, chains, user) && h !in chains && c.b !in user && c.stage != Noted
    ensures BusyOk(busy + {c.b}, chains[h := c], user[c.b := h])
  {
  }

  lemma BusyStage(busy: set<nat>, chains: map<nat, Chain>, user: map<nat, nat>, h: nat, to: Stage)
    requires BusyOk(busy, chains, user) && h in chains && chains[h].stage != Noted
    ensures BusyOk(if to == Noted then busy - {chains[h].b} else busy, chains[h := chains[h].(stage := to)], user)
  {
  }

  lemma BusyFinish(busy: set<nat>, chains: map<nat, Chain>, user: map<nat, nat>, h: nat)
    requires BusyOk(busy, chains, user) && h in chains && chains[h].stage == Noted
    ensures BusyOk(busy, chains - {h}, user - {chains[h].b})
  {
  }

  lemma AllBelow(free: seq<bool>, chains: map<nat, Chain>, owner: map<nat, nat>, q: seq<nat>)
    requires OwnerOk(free, chains, owner) && forall h :: h in q ==> h in chains
    ensures forall h :: h in q ==> h < NUM
  {
    forall h | h in q ensures h < NUM { assert OwnsThree(chains, owner, h); }
  }

  /** The buffers whose requests are among q. */
  ghost function Bufs(chains: map<nat, Chain>, q: seq<nat>): set<nat> {
    set h | h in q && h in chains :: chains[h].b
  }

  /** The completions q have been seen. */
  ghost predicate Progress(chains0: map<nat, Chain>, chains: map<nat, Chain>, busy0: set<nat>, busy: set<nat>,
                           q: seq<nat>) {
    && chains.Keys == chains0.Keys && busy == busy0 - Bufs(chains0, q)
    && forall h :: h in chains0 ==> chains[h] == chains0[h].(stage := if h in q then Noted else chains0[h].stage)
  }

  lemma ProgressOne(chains0: map<nat, Chain>, chains1: map<nat, Chain>, chains2: map<nat, Chain>,
                    busy0: set<nat>, busy1: set<nat>, busy2: set<nat>, q: seq<nat>, h: nat)
    requires Progress(chains0, chains1, busy0, busy1, q) && h in chains1
    requires chains2 == chains1[h := chains1[h].(stage := Noted)] && busy2 == busy1 - {chains1[h].b}
    ensures Progress(chains0, chains2, busy0, busy2, q + [h])
  {
    assert Bufs(chains0, q + [h]) == Bufs(chains0, q) + {chains0[h].b} by {
      assert h in q + [h] && h in chains0;
    }
  }

  /** The first n descriptors of a chain cleared, and free. */
  function Cleared(desc: seq<Desc>, h: nat, c: Chain, n: nat): seq<Desc>
    requires h < |desc| && c.d1 < |desc| && c.d2 < |desc|
  {
    if n == 0 then desc
    else if n == 1 then desc[h := EMPTY]
    else if n == 2 then desc[h := EMPTY][c.d1 := EMPTY]
    else desc[h := EMPTY][c.d1 := EMPTY][c.d2 := EMPTY]
  }

  function Freed(free: seq<bool>, h: nat, c: Chain, n: nat): seq<bool>
    requires h < |free| && c.d1 < |free| && c.d2 < |free|
  {
    if n == 0 then free
    else if n == 1 then free[h := true]
    else if n == 2 then free[h := true][c.d1 := true]
    else free[h := true][c.d1 := true][c.d2 := true]
  }

  lemma MoveOver(a: seq<nat>, b: seq<nat>)
    requires b != []
    ensures (a + [b[0]]) + b[1..] == a + b
  {
  }

  // ----- States ------------------------------------------------------------------------------

  /** The memory that driver and device share, their indices, and the buffers that
      belong to the disk (b->disk). usedRing, usedRingIdx and lastAvail, how far it
      has read the available ring, are the device's. */
  datatype Memory = Memory(
    free: seq<bool>, desc: seq<Desc>, info: seq<Info>, availRing: seq<nat>, availIdx: nat, usedIdx: nat, busy: set<nat>,
    usedRing: seq<nat>, usedRingIdx: nat, lastAvail: nat)

  /** History variables: the requests, the chain of each descriptor and of each buffer,
      the unread part of each ring. */
  datatype Requests = Requests(
    chains: map<nat, Chain>, owner: map<nat, nat>, user: map<nat, nat>, pending: seq<nat>, done: seq<nat>)

  datatype DiskState = DiskState(m: Memory, r: Requests)

  ghost predicate TablesOk(d: DiskState) {
    OwnerOk(d.m.free, d.r.chains, d.r.owner) && DescsOk(d.m.desc, d.r.chains) && InfosOk(d.m.info, d.r.chains)
  }

  ghost predicate RingsOk(d: DiskState) {
    && Queue(d.m.availRing, d.m.lastAvail, d.m.availIdx, d.r.pending) && RingOk(d.r.pending, d.r.chains, Submitted)
    && Queue(d.m.usedRing, d.m.usedIdx, d.m.usedRingIdx, d.r.done) && RingOk(d.r.done, d.r.chains, Done)
  }

  ghost predicate Sound(d: DiskState) {
    TablesOk(d) && RingsOk(d) && BusyOk(d.m.busy, d.r.chains, d.r.user)
  }

  function Staged(chains: map<nat, Chain>, h: nat, to: Stage): map<nat, Chain>
    requires h in chains
  {
    chains[h := chains[h].(stage := to)]
  }

  lemma StagedDescs(desc: seq<Desc>, chains: map<nat, Chain>, h: nat, to: Stage)
    requires DescsOk(desc, chains) && h in chains
    ensures DescsOk(desc, Staged(chains, h, to))
  {
    forall k | k in chains
      ensures ChainDesc(desc, k, Staged(chains, h, to)[k]) { assert ChainDesc(desc, k, chains[k]); }
  }

  lemma StagedInfos(info: seq<Info>, chains: map<nat, Chain>, h: nat, to: Stage)
    requires InfosOk(info, chains) && h in chains && (to == Done && h < NUM ==> info[h].status == 0)
    ensures InfosOk(info, Staged(chains, h, to))
  {
  }

  lemma StagedTables(d: DiskState, h: nat, to: Stage)
    requires TablesOk(d) && h in d.r.chains && to != Done
    ensures TablesOk(d.(r := d.r.(chains := Staged(d.r.chains, h, to))))
  {
    OwnerStage(d.m.free, d.r.chains, d.r.owner, h, to);
    StagedDescs(d.m.desc, d.r.chains, h, to);
    StagedInfos(d.m.info, d.r.chains, h, to);
  }

  /** The driver has put a request together and in the available ring. */
  function Submit(d: DiskState, h: nat, c: Chain): DiskState
    requires h < |d.m.desc| && c.d1 < |d.m.desc| && c.d2 < |d.m.desc| && h < |d.m.info| && |d.m.availRing| == NUM
    requires |d.m.free| == |d.m.desc|
  {
    DiskState(
      d.m.(free := Marked(d.m.free, h, c.d1, c.d2, false), desc := Formatted(d.m.desc, h, c),
           info := d.m.info[h := Info(c.b, 0xff, OpOf(c))], busy := d.m.busy + {c.b},
           availRing := d.m.availRing[Here(d.m.availIdx) := h], availIdx := Inc(d.m.availIdx)),
      d.r.(chains := d.r.chains[h := c], owner := d.r.owner[h := h][c.d1 := h][c.d2 := h], user := d.r.user[c.b := h],
           pending := d.r.pending + [h]))
  }

  ghost predicate CanSubmit(d: DiskState, h: nat, c: Chain) {
    && |d.m.free| == NUM && h < NUM && c.d1 < NUM && c.d2 < NUM && d.m.free[h] && d.m.free[c.d1] && d.m.free[c.d2]
    && h != c.d1 && h != c.d2 && c.d1 != c.d2 && c.b !in d.r.user && c.stage == Submitted
  }

  lemma SubmitTables(d: DiskState, h: nat, c: Chain)
    requires TablesOk(d) && CanSubmit(d, h, c) && |d.m.availRing| == NUM
    ensures h !in d.r.chains && TablesOk(Submit(d, h, c))
  {
    OwnerStart(d.m.free, d.r.chains, d.r.owner, h, c);
    DescsStart(d.m.desc, d.m.free, d.r.chains, d.r.owner, h, c);
    InfosStart(d.m.info, d.r.chains, h, c);
  }

  lemma InfosStart(info: seq<Info>, chains: map<nat, Chain>, h: nat, c: Chain)
    requires InfosOk(info, chains) && h < NUM && c.stage != Done
    ensures InfosOk(info[h := Info(c.b, 0xff, OpOf(c))], chains[h := c])
  {
  }

  lemma SubmitRings(d: DiskState, h: nat, c: Chain)
    requires RingsOk(d) && |d.m.free| == |d.m.desc| == |d.m.info| == NUM && h < NUM && c.d1 < NUM && c.d2 < NUM
    requires h !in d.r.chains && c.stage == Submitted && forall k :: k in d.r.pending ==> k < NUM
    ensures RingsOk(Submit(d, h, c))
  {
    RoomForOne(d.r.pending, h);
    RingPush(d.r.pending, d.r.chains, d.r.chains[h := c], Submitted, h);
    QueuePush(d.m.availRing, d.m.lastAvail, d.m.availIdx, d.r.pending, h);
  }

  lemma SubmitSound(d: DiskState, h: nat, c: Chain)
    requires Sound(d) && CanSubmit(d, h, c)
    ensures h !in d.r.chains && Sound(Submit(d, h, c))
  {
    SubmitTables(d, h, c);
    AllBelow(d.m.free, d.r.chains, d.r.owner, d.r.pending);
    SubmitRings(d, h, c);
    BusyStart(d.m.busy, d.r.chains, d.r.user, h, c);
  }

  /** The device has fetched the next request. */
  function Fetch(d: DiskState): DiskState
    requires d.r.pending != [] && d.r.pending[0] in d.r.chains
  {
    DiskState(d.m.(lastAvail := Inc(d.m.lastAvail)),
              d.r.(chains := Staged(d.r.chains, d.r.pending[0], Taken), pending := d.r.pending[1..]))
  }

  lemma FetchSound(d: DiskState)
    requires Sound(d) && d.r.pending != []
    ensures d.r.pending[0] in d.r.chains && d.r.chains[d.r.pending[0]].stage == Submitted
    ensures d.m.availRing[Here(d.m.lastAvail)] == d.r.pending[0]
    ensures Sound(Fetch(d))
  {
    RingPop(d.r.pending, d.r.chains, Submitted, Taken);
    var h := d.r.pending[0];
    QueuePop(d.m.availRing, d.m.lastAvail, d.m.availIdx, d.r.pending);
    RingStage(d.r.done, d.r.chains, Done, h, Taken);
    StagedTables(d, h, Taken);
    BusyStage(d.m.busy, d.r.chains, d.r.user, h, Taken);
  }

  /** The device has completed request h. */
  function Complete(d: DiskState, h: nat): DiskState
    requires h in d.r.chains && h < |d.m.info| && |d.m.usedRing| == NUM
  {
    DiskState(
      d.m.(info := d.m.info[h := d.m.info[h].(status := 0)], usedRing := d.m.usedRing[Here(d.m.usedRingIdx) := h],
           usedRingIdx := Inc(d.m.usedRingIdx)),
      d.r.(chains := Staged(d.r.chains, h, Done), done := d.r.done + [h]))
  }

  lemma CompleteTables(d: DiskState, h: nat)
    requires TablesOk(d) && h in d.r.chains && |d.m.usedRing| == NUM
    ensures h < NUM && TablesOk(Complete(d, h))
  {
    assert OwnsThree(d.r.chains, d.r.owner, h);
    OwnerStage(d.m.free, d.r.chains, d.r.owner, h, Done);
    StagedDescs(d.m.desc, d.r.chains, h, Done);
    StagedInfos(d.m.info[h := d.m.info[h].(status := 0)], d.r.chains, h, Done);
  }

  lemma CompleteRings(d: DiskState, h: nat)
    requires RingsOk(d) && h in d.r.chains && d.r.chains[h].stage == Taken && |d.m.info| == NUM && h < NUM
    requires forall k :: k in d.r.done ==> k < NUM
    ensures RingsOk(Complete(d, h))
  {
    RoomForOne(d.r.done, h);
    RingStage(d.r.pending, d.r.chains, Submitted, h, Done);
    RingPush(d.r.done, d.r.chains, Staged(d.r.chains, h, Done), Done, h);
    QueuePush(d.m.usedRing, d.m.usedIdx, d.m.usedRingIdx, d.r.done, h);
  }

  lemma CompleteSound(d: DiskState, h: nat)
    requires Sound(d) && h in d.r.chains && d.r.chains[h].stage == Taken
    ensures h < NUM && Sound(Complete(d, h))
  {
    CompleteTables(d, h);
    AllBelow(d.m.free, d.r.chains, d.r.owner, d.r.done);
    CompleteRings(d, h);
    BusyStage(d.m.busy, d.r.chains, d.r.user, h, Done);
  }

  /** The interrupt handler has seen the next completion. */
  function Note(d: DiskState): DiskState
    requires d.r.done != [] && d.r.done[0] in d.r.chains
  {
    DiskState(
      d.m.(usedIdx := Inc(d.m.usedIdx), busy := d.m.busy - {d.r.chains[d.r.done[0]].b}),
      d.r.(chains := Staged(d.r.chains, d.r.done[0], Noted), done := d.r.done[1..]))
  }

  lemma NoteSound(d: DiskState)
    requires Sound(d) && d.r.done != []
    ensures d.r.done[0] < NUM && d.r.done[0] in d.r.chains && d.r.chains[d.r.done[0]].stage == Done
    ensures d.m.usedRing[Here(d.m.usedIdx)] == d.r.done[0]
    ensures d.m.info[d.r.done[0]] == Info(d.r.chains[d.r.done[0]].b, 0, OpOf(d.r.chains[d.r.done[0]])) && Sound(Note(d))
  {
    RingPop(d.r.done, d.r.chains, Done, Noted);
    var h := d.r.done[0];
    assert OwnsThree(d.r.chains, d.r.owner, h);
    QueuePop(d.m.usedRing, d.m.usedIdx, d.m.usedRingIdx, d.r.done);
    RingStage(d.r.pending, d.r.chains, Submitted, h, Noted);
    StagedTables(d, h, Noted);
    BusyStage(d.m.busy, d.r.chains, d.r.user, h, Noted);
  }

  /** The waiting process has freed the chain of request h. */
  function Finish(d: DiskState, h: nat): DiskState
    requires h in d.r.chains && h < |d.m.free| && d.r.chains[h].d1 < |d.m.free|
    requires d.r.chains[h].d2 < |d.m.free| == |d.m.desc| && h < |d.m.info|
  {
    var c := d.r.chains[h];
    DiskState(
      d.m.(free := Marked(d.m.free, h, c.d1, c.d2, true), desc := d.m.desc[h := EMPTY][c.d1 := EMPTY][c.d2 := EMPTY],
           info := d.m.info[h := d.m.info[h].(b := -1)]),
      d.r.(chains := d.r.chains - {h}, owner := d.r.owner - {h, c.d1, c.d2}, user := d.r.user - {c.b}))
  }

  lemma FinishTables(d: DiskState, h: nat)
    requires TablesOk(d) && h in d.r.chains
    ensures h < NUM && d.r.chains[h].d1 < NUM && d.r.chains[h].d2 < NUM && TablesOk(Finish(d, h))
  {
    OwnerFinish(d.m.free, d.r.chains, d.r.owner, h);
    FinishDescs(d.m.desc, d.m.free, d.r.chains, d.r.owner, h);
  }

  lemma FinishDescs(desc: seq<Desc>, free: seq<bool>, chains: map<nat, Chain>, owner: map<nat, nat>, h: nat)
    requires DescsOk(desc, chains) && OwnerOk(free, chains, owner) && h in chains
    ensures h < |desc| && chains[h].d1 < |desc| && chains[h].d2 < |desc|
    ensures DescsOk(desc[h := EMPTY][chains[h].d1 := EMPTY][chains[h].d2 := EMPTY], chains - {h})
  {
    assert ChainDesc(desc, h, chains[h]);
    var desc' := desc[h := EMPTY][chains[h].d1 := EMPTY][chains[h].d2 := EMPTY];
    forall k | k in chains && k != h ensures ChainDesc(desc', k, chains[k]) {
      assert ChainDesc(desc, k, chains[k]);
      ChainsDisjoint(free, chains, owner, h, k);
    }
  }

  lemma FinishSound(d: DiskState, h: nat)
    requires Sound(d) && h in d.r.chains && d.r.chains[h].stage == Noted
    ensures h < NUM && d.r.chains[h].d1 < NUM && d.r.chains[h].d2 < NUM && Sound(Finish(d, h))
  {
    FinishTables(d, h);
    BusyFinish(d.m.busy, d.r.chains, d.r.user, h);
  }

  // ----- Driver and device ---------------------------------------------------------------------

  /** Fewer than three descriptors are free. */
  predicate NoThree(free: seq<bool>) {
    forall i, j, k :: 0 <= i < j < k < |free| ==> !(free[i] && free[j] && free[k])
  }

  class Disk {
    var m: Memory
    ghost var r: Requests

    ghost function S(): DiskState
      reads this
    {
      DiskState(m, r)
    }

    ghost predicate Valid()
      reads this
    {
      Sound(S())
    }

    /** The driver's part of virtio_disk_init(): nothing under way. */
    constructor ()
      ensures Valid() && r.chains == map[] && m.busy == {}
    {
      m := Memory(seq(NUM, _ => true), seq(NUM, _ => EMPTY), seq(NUM, _ => Info(-1, 0, Op(false, 0))),
                  seq(NUM, _ => 0), 0, 0, {}, seq(NUM, _ => 0), 0, 0);
      r := Requests(map[], map[], map[], [], []);
    }

    /** alloc_desc(): the first free descriptor, NUM if there is none. */
    method AllocDesc() returns (i: nat)
      requires |m.free| == NUM
      modifies `m
      ensures i <= NUM
      ensures i < NUM ==> old(m).free[i] && m == old(m).(free := old(m).free[i := false]) && forall j :: 0 <= j < i ==>
                !old(m).free[j]
      ensures i == NUM ==> m == old(m) && forall j :: 0 <= j < NUM ==> !m.free[j]
    {
      i := 0;
      while i < NUM
        invariant i <= NUM && m == old(m) && forall j :: 0 <= j < i ==> !m.free[j]
      {
        if m.free[i] {
          m := m.(free := m.free[i := false]);
          return;
        }
        i := i + 1;
      }
    }

    /** free_desc() */
    method FreeDesc(i: nat)
      requires |m.free| == |m.desc| == NUM && i < NUM && !m.free[i]
      modifies `m
      ensures m == old(m).(free := old(m).free[i := true], desc := old(m).desc[i := EMPTY])
    {
      m := m.(desc := m.desc[i := EMPTY]);
      m := m.(free := m.free[i := true]);
    }

    /** alloc3_desc(): three descriptors, or none. */
    method Alloc3() returns (ok: bool, d0: nat, d1: nat, d2: nat)
      requires |m.free| == |m.desc| == NUM
      modifies `m
      ensures |m.desc| == NUM && forall i :: 0 <= i < NUM && !old(m).free[i] ==> m.desc[i] == old(m).desc[i]
      ensures ok ==> d0 < NUM && d1 < NUM && d2 < NUM && d0 != d1 && d0 != d2 && d1 != d2
      ensures ok ==> old(m).free[d0] && old(m).free[d1] && old(m).free[d2]
      ensures ok ==> m == old(m).(desc := m.desc, free := Marked(old(m).free, d0, d1, d2, false))
      ensures !ok ==> m == old(m).(desc := m.desc) && NoThree(m.free)
    {
      d0, d1, d2 := NUM, NUM, NUM;
      d0 := AllocDesc();
      if d0 == NUM {
        return false, d0, d1, d2;
      }
      d1 := AllocDesc();
      if d1 == NUM {
        FreeDesc(d0);
        assert m.free == old(m).free;
        return false, d0, d1, d2;
      }
      d2 := AllocDesc();
      if d2 == NUM {
        FreeDesc(d0);
        FreeDesc(d1);
        assert m.free == old(m).free;
        return false, d0, d1, d2;
      }
      ok := true;
    }

    /** Formats the descriptors, notes the buffer and puts the chain in the available
        ring. */
    method Enqueue(h: nat, d1: nat, d2: nat, b: nat, blockno: nat, write: bool, ghost c: Chain, ghost s: DiskState)
      requires |m.desc| == |m.info| == |m.availRing| == |s.m.free| == NUM && h < NUM && d1 < NUM && d2 < NUM
      requires c == Chain(d1, d2, b, !write, blockno, Submitted) && r == s.r
      requires m == s.m.(free := Marked(s.m.free, h, d1, d2, false))
      modifies this
      ensures S() == Submit(s, h, c)
    {
      m := m.(info := m.info[h := m.info[h].(op := Op(write, SECTORS * blockno))]);
      m := m.(desc := m.desc[h := Desc(Header(h), true, false, d1)]);
      m := m.(desc := m.desc[d1 := Desc(Data(b), true, !write, d2)]);
      m := m.(info := m.info[h := m.info[h].(status := 0xff)]);
      m := m.(desc := m.desc[d2 := Desc(Status(h), false, true, 0)]);
      m := m.(busy := m.busy + {b});
      m := m.(info := m.info[h := m.info[h].(b := b)]);
      m := m.(availRing := m.availRing[Here(m.availIdx) := h]);
      m := m.(availIdx := Inc(m.availIdx));
      assert m.info == s.m.info[h := Info(b, 0xff, OpOf(c))];
      r := Submit(s, h, c).r;
    }

    /** virtio_disk_rw() up to the wait, for a buffer with no request under way;
        without three free descriptors the caller has to sleep. */
    method Start(b: nat, blockno: nat, write: bool) returns (ok: bool, h: nat)
      requires Valid() && b !in r.user
      modifies this
      ensures Valid()
      ensures ok ==> h !in old(r).chains && h in r.chains && r.chains == old(r).chains[h := r.chains[h]]
      ensures ok ==> r.chains[h].b == b && r.chains[h].read == !write && r.chains[h].blockno == blockno
      ensures ok ==> r.chains[h].stage == Submitted
      ensures ok ==> r.pending == old(r).pending + [h] && r.done == old(r).done && m.busy == old(m).busy + {b}
      ensures !ok ==> r == old(r) && m.busy == old(m).busy && NoThree(m.free)
    {
      var d1, d2;
      ok, h, d1, d2 := Alloc3();
      DescsFrame(old(m).desc, m.desc, old(m).free, r.chains, r.owner);
      if ok {
        ghost var c := Chain(d1, d2, b, !write, blockno, Submitted);
        ghost var s := DiskState(old(m).(desc := m.desc), r);
        SubmitSound(s, h, c);
        Enqueue(h, d1, d2, b, blockno, write, c, s);
      }
    }

    /** The device reads a request through the descriptors. */
    method ReadRequest(h: nat, ghost c: Chain) returns (op: Op, data: nat, read: bool)
      requires ChainDesc(m.desc, h, c) && |m.info| == NUM && m.info[h].op == OpOf(c)
      ensures op == OpOf(c) && data == c.b && read == c.read
    {
      op := m.info[m.desc[h].addr.h].op;
      var d := m.desc[m.desc[h].next];
      data, read := d.addr.b, d.write;
    }

    method TakeNext()
      requires r.pending != [] && r.pending[0] in r.chains
      modifies this
      ensures S() == Fetch(old(S()))
    {
      m := m.(lastAvail := Inc(m.lastAvail));
      r := r.(chains := Staged(r.chains, r.pending[0], Taken), pending := r.pending[1..]);
    }

    /** The device fetches the next request and finds in the descriptors just what the
        driver asked for. */
    method DeviceTake() returns (h: nat, op: Op, data: nat, read: bool)
      requires Valid() && m.lastAvail != m.availIdx
      modifies this
      ensures old(r).pending != [] && h == old(r).pending[0] && h in old(r).chains
      ensures old(r).chains[h].stage == Submitted
      ensures data == old(r).chains[h].b && read == old(r).chains[h].read
      ensures op == Op(!read, SECTORS * old(r).chains[h].blockno)
      ensures Valid() && S() == Fetch(old(S()))
    {
      QueueEmpty(m.availRing, m.lastAvail, m.availIdx, r.pending);
      FetchSound(S());
      h := m.availRing[Here(m.lastAvail)];
      op, data, read := ReadRequest(h, r.chains[h]);
      TakeNext();
    }

    method PutUsed(h: nat)
      requires h in r.chains && h < |m.info| && |m.usedRing| == NUM
      modifies this
      ensures S() == Complete(old(S()), h)
    {
      m := m.(info := m.info[h := m.info[h].(status := 0)]);
      m := m.(usedRing := m.usedRing[Here(m.usedRingIdx) := h]);
      m := m.(usedRingIdx := Inc(m.usedRingIdx));
      r := r.(chains := Staged(r.chains, h, Done), done := r.done + [h]);
    }

    /** The device completes any request it has fetched. */
    method DeviceComplete(h: nat)
      requires Valid() && h in r.chains && r.chains[h].stage == Taken
      modifies this
      ensures Valid() && r == old(r).(chains := Staged(old(r).chains, h, Done), done := old(r).done + [h])
      ensures m.busy == old(m).busy
    {
      CompleteSound(S(), h);
      PutUsed(h);
    }

    method GiveBack(id: nat)
      requires r.done != [] && r.done[0] == id && id in r.chains && id < |m.info| && m.info[id].b == r.chains[id].b
      modifies this
      ensures S() == Note(old(S()))
    {
      m := m.(busy := m.busy - {m.info[id].b});
      m := m.(usedIdx := Inc(m.usedIdx));
      r := r.(chains := Staged(r.chains, id, Noted), done := r.done[1..]);
    }

    /** One pass of virtio_disk_intr(): the status is good, and the buffer that is given
        back is that of the request that finished. */
    method IntrOne()
      requires Valid() && m.usedIdx != m.usedRingIdx
      modifies this
      ensures old(r).done != [] && old(r).done[0] in old(r).chains && old(r).chains[old(r).done[0]].stage == Done
      ensures Valid() && S() == Note(old(S()))
    {
      QueueEmpty(m.usedRing, m.usedIdx, m.usedRingIdx, r.done);
      NoteSound(S());
      var id := m.usedRing[Here(m.usedIdx)];
      assert m.info[id].status == 0;
      GiveBack(id);
    }

    /** virtio_disk_intr(): every completion in the ring is seen, and exactly the
        buffers of those requests are given back. */
    method Intr()
      requires Valid()
      modifies this
      ensures Valid() && r.done == [] && r.pending == old(r).pending
      ensures Progress(old(r).chains, r.chains, old(m).busy, m.busy, old(r).done)
    {
      ghost var seen: seq<nat> := [];
      while m.usedIdx != m.usedRingIdx
        invariant Valid() && seen + r.done == old(r).done && r.pending == old(r).pending
        invariant Progress(old(r).chains, r.chains, old(m).busy, m.busy, seen)
        decreases |r.done|
      {
        ghost var r1, busy1 := r, m.busy;
        IntrOne();
        ghost var h := r1.done[0];
        ProgressOne(old(r).chains, r1.chains, r.chains, old(m).busy, busy1, m.busy, seen, h);
        MoveOver(seen, r1.done);
        seen := seen + [h];
      }
      QueueEmpty(m.usedRing, m.usedIdx, m.usedRingIdx, r.done);
      assert seen == old(r).done;
    }

    /** free_chain(): follows the chain through the descriptors. */
    method FreeChain(h: nat, ghost c: Chain)
      requires ChainDesc(m.desc, h, c) && |m.free| == NUM && !m.free[h] && !m.free[c.d1] && !m.free[c.d2]
      requires h != c.d1 && h != c.d2 && c.d1 != c.d2
      modifies `m
      ensures m == old(m).(free := Marked(old(m).free, h, c.d1, c.d2, true), desc := Cleared(old(m).desc, h, c, 3))
    {
      var i, more := h, true;
      ghost var n := 0;
      while more
        invariant 0 <= n <= 3 && (more <==> n < 3)
        invariant i == if n == 0 then h else if n == 1 then c.d1 else c.d2
        invariant m == old(m).(free := Freed(old(m).free, h, c, n), desc := Cleared(old(m).desc, h, c, n))
        decreases 3 - n
      {
        more := m.desc[i].more;
        var next := m.desc[i].next;
        FreeDesc(i);
        if more {
          i := next;
        }
        n := n + 1;
      }
    }

    /** virtio_disk_rw() after the wait: b->disk is clear, so the request has been seen
        to finish; its descriptors are freed. */
    method End(h: nat)
      requires Valid() && h in r.chains && r.chains[h].b !in m.busy
      modifies this
      ensures old(r).chains[h].stage == Noted && r.chains == old(r).chains - {h}
      ensures r.user == old(r).user - {old(r).chains[h].b}
      ensures Valid() && r.pending == old(r).pending && r.done == old(r).done && m.busy == old(m).busy
    {
      FinishSound(S(), h);
      assert OwnsThree(r.chains, r.owner, h) && ChainDesc(m.desc, h, r.chains[h]);
      Clean(h);
    }

    method Clean(h: nat)
      requires h in r.chains && ChainDesc(m.desc, h, r.chains[h]) && |m.free| == |m.info| == NUM
      requires !m.free[h] && !m.free[r.chains[h].d1] && !m.free[r.chains[h].d2]
      requires h != r.chains[h].d1 && h != r.chains[h].d2 && r.chains[h].d1 != r.chains[h].d2
      modifies this
      ensures S() == Finish(old(S()), h)
    {
      m := m.(info := m.info[h := m.info[h].(b := -1)]);
      FreeChain(h, r.chains[h]);
      r := Finish(old(S()), h).r;
    }
  }
}
