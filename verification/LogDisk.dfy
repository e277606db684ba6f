/** The on-disk redo log of kernel/log.c: the block writes that commit() and
    recover_from_log() issue, in order, and what a crash between any two of
    them leaves on the disk. */
module LogDisk {
  import opened Blocks

  const MAXOPBLOCKS: nat := 10
  const LOGBLOCKS: nat := 30

  type Disk = map<nat, Block>

  /** One synchronous write of a whole block, the unit of crash atomicity. */
  datatype Write = Write(b: nat, data: Block)

  /** The log region: the header block at `start` and LOGBLOCKS data blocks. */
  predicate InLog(start: nat, b: nat) {
    start <= b <= start + LOGBLOCKS
  }

  // ----- The header block -------------------------------------------------

  function HeaderCount(h: Block): word {
    WordAt(h, 0)
  }

  function HeaderBlocks(h: Block): seq<word>
    requires HeaderCount(h) <= LOGBLOCKS
  {
    seq(HeaderCount(h), i requires 0 <= i < HeaderCount(h) => WordAt(h, 1 + i))
  }

  function PutEntries(h: Block, lh: seq<word>, k: nat): Block
    requires k <= |lh| <= LOGBLOCKS
  {
    if k == 0 then h else SetWord(PutEntries(h, lh, k - 1), k, lh[k - 1])
  }

  /** The header block after write_head(): the count and the entries in use are
      overwritten, every other word keeps what the block held before. */
  function PutHeader(h: Block, lh: seq<word>): Block
    requires |lh| <= LOGBLOCKS
  {
    PutEntries(SetWord(h, 0, |lh|), lh, |lh|)
  }

  lemma {:induction false} PutEntriesWord(h: Block, lh: seq<word>, k: nat, j: nat)
    requires k <= |lh| <= LOGBLOCKS && j < WORDS
    ensures WordAt(PutEntries(h, lh, k), j) == if 1 <= j <= k then lh[j - 1] else WordAt(h, j)
  {
    if k > 0 {
      PutEntriesWord(h, lh, k - 1, j);
      SetWordFrame(PutEntries(h, lh, k - 1), k, lh[k - 1], j);
    }
  }

  /** read_head() after write_head() gives back the same block list. */
  lemma HeaderRoundTrip(h: Block, lh: seq<word>)
    requires |lh| <= LOGBLOCKS
    ensures HeaderCount(PutHeader(h, lh)) == |lh|
    ensures HeaderBlocks(PutHeader(h, lh)) == lh
  {
    var h0 := SetWord(h, 0, |lh|);
    PutEntriesWord(h0, lh, |lh|, 0);
    forall i | 0 <= i < |lh| ensures WordAt(PutHeader(h, lh), 1 + i) == lh[i] {
      PutEntriesWord(h0, lh, |lh|, 1 + i);
    }
  }

  // ----- Sequences of block writes ----------------------------------------

  function ApplyWrites(d: Disk, ws: seq<Write>): Disk {
    if ws == [] then d
    else
      var n := |ws| - 1;
      ApplyWrites(d, ws[..n])[ws[n].b := ws[n].data]
  }

  ghost predicate DistinctTargets(ws: seq<Write>) {
    forall i, j :: 0 <= i < j < |ws| ==> ws[i].b != ws[j].b
  }

  lemma {:induction false} ApplyConcat(d: Disk, us: seq<Write>, ws: seq<Write>)
    ensures ApplyWrites(d, us + ws) == ApplyWrites(ApplyWrites(d, us), ws)
  {
    if ws == [] {
      assert us + ws == us;
    } else {
      var n := |ws| - 1;
      ApplyConcat(d, us, ws[..n]);
      assert (us + ws)[..|us + ws| - 1] == us + ws[..n];
    }
  }

  lemma ApplyOne(d: Disk, ws: seq<Write>, k: nat)
    requires k < |ws|
    ensures ApplyWrites(d, ws[..k + 1]) == ApplyWrites(d, ws[..k])[ws[k].b := ws[k].data]
  {
    assert ws[..k + 1][..k] == ws[..k];
  }

  lemma {:induction false} ApplyDistinct(d: Disk, ws: seq<Write>)
    requires DistinctTargets(ws)
    ensures forall i :: 0 <= i < |ws| ==> ws[i].b in ApplyWrites(d, ws) && ApplyWrites(d, ws)[ws[i].b] == ws[i].data
    ensures forall b :: b in ApplyWrites(d, ws) <==> b in d || exists i :: 0 <= i < |ws| && ws[i].b == b
    ensures forall b :: b in d && (forall i :: 0 <= i < |ws| ==> ws[i].b != b) ==> ApplyWrites(d, ws)[b] == d[b]
  {
    if ws != [] {
      var n := |ws| - 1;
      ApplyDistinct(d, ws[..n]);
      var d' := ApplyWrites(d, ws[..n]);
      forall b | b in d && (forall i :: 0 <= i < |ws| ==> ws[i].b != b)
        ensures ApplyWrites(d, ws)[b] == d[b]
      {
        assert forall i :: 0 <= i < n ==> ws[..n][i].b == ws[i].b;
      }
      forall b ensures b in ApplyWrites(d, ws) <==> b in d || exists i :: 0 <= i < |ws| && ws[i].b == b
      {
        if i :| 0 <= i < |ws| && ws[i].b == b && i < n { assert ws[..n][i].b == b; }
      }
      forall i | 0 <= i < |ws| ensures ws[i].b in ApplyWrites(d, ws) && ApplyWrites(d, ws)[ws[i].b] == ws[i].data
      {
        if i < n { assert ws[..n][i] == ws[i]; }
      }
    }
  }

  // ----- What the log says the disk should hold ---------------------------

  ghost predicate HasLog(start: nat, d: Disk) {
    forall b :: InLog(start, b) ==> b in d
  }

  /** A list of logged block numbers as log_write() builds it: distinct blocks
      that exist and lie outside the log region. */
  ghost predicate GoodList(start: nat, d: Disk, lh: seq<word>) {
    && |lh| <= LOGBLOCKS
    && (forall i :: 0 <= i < |lh| ==> lh[i] in d && !InLog(start, lh[i]))
    && (forall i, j :: 0 <= i < j < |lh| ==> lh[i] != lh[j])
  }

  ghost predicate GoodLog(start: nat, d: Disk) {
    && HasLog(start, d)
    && HeaderCount(d[start]) <= LOGBLOCKS
    && GoodList(start, d, HeaderBlocks(d[start]))
  }

  /** The blocks outside the log region. */
  function Home(start: nat, d: Disk): Disk {
    map b | b in d && !InLog(start, b) :: d[b]
  }

  /** `v` is what the home blocks hold once the blocks listed in `hb` have been
      copied from the log. */
  ghost predicate RedoneTo(start: nat, d: Disk, hb: seq<word>, v: Disk)
    requires HasLog(start, d) && GoodList(start, d, hb)
  {
    && (forall b :: b in v <==> b in d && !InLog(start, b))
    && (forall i {:trigger hb[i]} :: 0 <= i < |hb| ==> InLog(start, start + 1 + i) && v[hb[i]] == d[start + 1 + i])
    && (forall b :: b in v && b !in hb ==> v[b] == d[b])
  }

  /** `v` is what recovery from disk `d` must leave in the home blocks. */
  ghost predicate RecoversTo(start: nat, d: Disk, v: Disk)
    requires GoodLog(start, d)
  {
    RedoneTo(start, d, HeaderBlocks(d[start]), v)
  }

  // ----- The writes of commit() and recover_from_log() --------------------

  /** write_log(): copy the cached blocks into the log. */
  function LogCopies(start: nat, lh: seq<word>, cache: Disk): seq<Write>
    requires forall b :: b in lh ==> b in cache
  {
    seq(|lh|, i requires 0 <= i < |lh| => assert lh[i] in lh; Write(start + 1 + i, cache[lh[i]]))
  }

  /** install_trans(): copy log blocks to their home locations. */
  function Installs(start: nat, lh: seq<word>, d: Disk): seq<Write>
    requires |lh| <= LOGBLOCKS && HasLog(start, d)
  {
    seq(|lh|, i requires 0 <= i < |lh| => assert InLog(start, start + 1 + i); Write(lh[i], d[start + 1 + i]))
  }

  /** The same copies, with the data still taken from the cached blocks. */
  function CacheInstalls(lh: seq<word>, cache: Disk): seq<Write>
    requires forall b :: b in lh ==> b in cache
  {
    seq(|lh|, i requires 0 <= i < |lh| => assert lh[i] in lh; Write(lh[i], cache[lh[i]]))
  }

  function CommitWrites(start: nat, lh: seq<word>, cache: Disk, d: Disk): seq<Write>
    requires HasLog(start, d) && |lh| <= LOGBLOCKS
    requires forall b :: b in lh ==> b in cache
  {
    if lh == [] then []
    else
      assert InLog(start, start);
      var h := PutHeader(d[start], lh);
      LogCopies(start, lh, cache) + [Write(start, h)]
      + CacheInstalls(lh, cache)
      + [Write(start, PutHeader(h, []))]
  }

  function RecoveryWrites(start: nat, d: Disk): seq<Write>
    requires GoodLog(start, d)
  {
    assert InLog(start, start);
    Installs(start, HeaderBlocks(d[start]), d) + [Write(start, PutHeader(d[start], []))]
  }

  // ----- Recovery is idempotent under crashes -----------------------------

  lemma ApplyPrefix(d: Disk, ws: seq<Write>, k: nat)
    requires DistinctTargets(ws) && k <= |ws|
    requires forall i :: 0 <= i < |ws| ==> ws[i].b in d
    ensures ApplyWrites(d, ws[..k]).Keys == d.Keys
    ensures forall i :: 0 <= i < k ==> ApplyWrites(d, ws[..k])[ws[i].b] == ws[i].data
    ensures forall b :: b in d && (forall i :: 0 <= i < k ==> ws[i].b != b) ==> ApplyWrites(d, ws[..k])[b] == d[b]
  {
    var p := ws[..k];
    ApplyDistinct(d, p);
    forall i | 0 <= i < k ensures ApplyWrites(d, p)[ws[i].b] == ws[i].data {
      assert p[i] == ws[i];
    }
  }

  lemma InstallPrefixAt(start: nat, d: Disk, hb: seq<word>, k: nat)
    requires HasLog(start, d) && GoodList(start, d, hb) && k <= |hb|
    ensures
      var d' := ApplyWrites(d, Installs(start, hb, d)[..k]);
      && d'.Keys == d.Keys
      && (forall b :: b in d && b !in hb[..k] ==> d'[b] == d[b])
      && (forall i {:trigger hb[i]} :: 0 <= i < k ==> InLog(start, start + 1 + i) && d'[hb[i]] == d[start + 1 + i])
  {
    var ws := Installs(start, hb, d);
    ApplyPrefix(d, ws, k);
    var d' := ApplyWrites(d, ws[..k]);
    forall b | b in d && b !in hb[..k] ensures d'[b] == d[b] {
      forall i | 0 <= i < k ensures ws[i].b != b {
        assert hb[..k][i] == hb[i];
      }
    }
    forall i {:trigger hb[i]} | 0 <= i < k ensures InLog(start, start + 1 + i) && d'[hb[i]] == d[start + 1 + i] {
      assert ws[i].b == hb[i];
    }
  }

  /** Redoing any number of the listed blocks keeps what the log recovers to,
      and leaves the log itself in place. */
  lemma RedoPrefix(start: nat, d: Disk, hb: seq<word>, v: Disk, k: nat)
    requires HasLog(start, d) && GoodList(start, d, hb) && RedoneTo(start, d, hb, v)
    requires k <= |hb|
    ensures
      var d' := ApplyWrites(d, Installs(start, hb, d)[..k]);
      && d'.Keys == d.Keys
      && (forall b :: InLog(start, b) ==> b in d' && d'[b] == d[b])
      && GoodList(start, d', hb) && RedoneTo(start, d', hb, v)
      && (k == |hb| ==> Home(start, d') == v)
  {
    InstallPrefixAt(start, d, hb, k);
    PartlyRedone(start, d, hb, v, k, ApplyWrites(d, Installs(start, hb, d)[..k]));
  }

  lemma PartlyRedone(start: nat, d: Disk, hb: seq<word>, v: Disk, k: nat, d': Disk)
    requires HasLog(start, d) && GoodList(start, d, hb) && RedoneTo(start, d, hb, v)
    requires k <= |hb| && d'.Keys == d.Keys
    requires forall b :: b in d && b !in hb[..k] ==> d'[b] == d[b]
    requires forall i {:trigger hb[i]} :: 0 <= i < k ==> InLog(start, start + 1 + i) && d'[hb[i]] == d[start + 1 + i]
    ensures forall b :: InLog(start, b) ==> d'[b] == d[b]
    ensures GoodList(start, d', hb) && RedoneTo(start, d', hb, v)
    ensures k == |hb| ==> Home(start, d') == v
  {
    forall b: nat | InLog(start, b) ensures d'[b] == d[b] {
      if b in hb[..k] { assert false; }
    }
    if k == |hb| {
      assert hb[..k] == hb;
      forall b | b in v ensures d'[b] == v[b] {
        if b in hb {
          var i :| 0 <= i < |hb| && hb[i] == b;
        }
      }
    }
  }

  lemma InstallPrefix(start: nat, d: Disk, v: Disk, k: nat)
    requires GoodLog(start, d) && RecoversTo(start, d, v)
    requires k <= HeaderCount(d[start])
    ensures
      var d' := ApplyWrites(d, Installs(start, HeaderBlocks(d[start]), d)[..k]);
      && d'.Keys == d.Keys && HasLog(start, d') && d'[start] == d[start]
      && GoodLog(start, d') && RecoversTo(start, d', v)
      && (k == HeaderCount(d[start]) ==> Home(start, d') == v)
  {
    RedoPrefix(start, d, HeaderBlocks(d[start]), v, k);
    assert InLog(start, start);
  }

  /** Clearing the count makes the home blocks themselves the recovered state. */
  lemma EraseHeader(start: nat, d: Disk, v: Disk, h: Block)
    requires HasLog(start, d)
    requires Home(start, d) == v
    ensures
      var d' := d[start := PutHeader(h, [])];
      && GoodLog(start, d') && HeaderCount(d'[start]) == 0
      && RecoversTo(start, d', v) && Home(start, d') == v
  {
    var d' := d[start := PutHeader(h, [])];
    HeaderRoundTrip(h, []);
    assert InLog(start, start);
    assert Home(start, d') == Home(start, d);
  }

  /** A crash after any number of recovery's block writes leaves a disk that
      still recovers to the same state; recovery that runs to the end puts that
      state in the home blocks and empties the log. */
  lemma RecoveryPrefix(start: nat, d: Disk, v: Disk, k: nat)
    requires GoodLog(start, d) && RecoversTo(start, d, v)
    requires k <= |RecoveryWrites(start, d)|
    ensures
      var d' := ApplyWrites(d, RecoveryWrites(start, d)[..k]);
      && GoodLog(start, d') && RecoversTo(start, d', v)
      && d'.Keys == d.Keys
      && (k == |RecoveryWrites(start, d)| ==> Home(start, d') == v && HeaderCount(d'[start]) == 0)
  {
    var n := HeaderCount(d[start]);
    var ws := RecoveryWrites(start, d);
    var ins := Installs(start, HeaderBlocks(d[start]), d);
    if k <= n {
      assert ws[..k] == ins[..k];
      InstallPrefix(start, d, v, k);
    } else {
      InstallPrefix(start, d, v, n);
      assert ins[..n] == ins;
      assert ws[..k] == ws[..n + 1] && ws[..n] == ins;
      ApplyOne(d, ws, n);
      EraseHeader(start, ApplyWrites(d, ins), v, d[start]);
      assert InLog(start, start);
    }
  }

  /** The state every good log recovers to. */
  function Redo(start: nat, d: Disk): (v: Disk)
    requires GoodLog(start, d)
    ensures RecoversTo(start, d, v)
  {
    var ws := Installs(start, HeaderBlocks(d[start]), d);
    RedoRecovers(start, d);
    Home(start, ApplyWrites(d, ws))
  }

  lemma RedoRecovers(start: nat, d: Disk)
    requires GoodLog(start, d)
    ensures RecoversTo(start, d, Home(start, ApplyWrites(d, Installs(start, HeaderBlocks(d[start]), d))))
  {
    var hb := HeaderBlocks(d[start]);
    InstallPrefixAt(start, d, hb, |hb|);
    assert Installs(start, hb, d)[..|hb|] == Installs(start, hb, d);
    assert hb[..|hb|] == hb;
  }

  /** Boot: recovery is cut short after crashes[0] writes, restarted, cut short
      after crashes[1] writes, and so on, and at last runs to the end. */
  ghost function Boot(start: nat, d: Disk, crashes: seq<nat>): Disk
    requires GoodLog(start, d)
    decreases |crashes|
  {
    var ws := RecoveryWrites(start, d);
    if crashes == [] then ApplyWrites(d, ws)
    else
      var k := if crashes[0] <= |ws| then crashes[0] else |ws|;
      RecoveryPrefix(start, d, Redo(start, d), k);
      Boot(start, ApplyWrites(d, ws[..k]), crashes[1..])
  }

  lemma {:induction false} BootRecovers(start: nat, d: Disk, crashes: seq<nat>, v: Disk)
    requires GoodLog(start, d) && RecoversTo(start, d, v)
    ensures
      var d' := Boot(start, d, crashes);
      GoodLog(start, d') && Home(start, d') == v && HeaderCount(d'[start]) == 0
    decreases |crashes|
  {
    var ws := RecoveryWrites(start, d);
    if crashes == [] {
      assert ws[..|ws|] == ws;
      RecoveryPrefix(start, d, v, |ws|);
    } else {
      var k := if crashes[0] <= |ws| then crashes[0] else |ws|;
      RecoveryPrefix(start, d, v, k);
      BootRecovers(start, ApplyWrites(d, ws[..k]), crashes[1..], v);
    }
  }

  // ----- Commit is atomic under crashes -----------------------------------

  /** The home blocks with the pending cached blocks written over them. */
  function Overlay(start: nat, d: Disk, cache: Disk): Disk {
    map b | b in d && !InLog(start, b) :: if b in cache then cache[b] else d[b]
  }

  /** A transaction about to commit: the on-disk log is empty and the pending
      blocks are exactly the listed ones. */
  ghost predicate ReadyToCommit(start: nat, d: Disk, lh: seq<word>, cache: Disk) {
    && GoodLog(start, d) && HeaderCount(d[start]) == 0
    && GoodList(start, d, lh)
    && (forall b :: b in cache <==> b in lh)
  }

  /** Writing log blocks leaves the header and the home blocks alone. */
  lemma LogCopyPrefix(start: nat, d: Disk, lh: seq<word>, cache: Disk, k: nat)
    requires HasLog(start, d) && k <= |lh| <= LOGBLOCKS
    requires forall b :: b in lh ==> b in cache
    ensures
      var d' := ApplyWrites(d, LogCopies(start, lh, cache)[..k]);
      && d'.Keys == d.Keys
      && (forall b :: b in d && !(start < b <= start + LOGBLOCKS) ==> d'[b] == d[b])
      && (forall i :: 0 <= i < k ==> InLog(start, start + 1 + i) && d'[start + 1 + i] == cache[lh[i]])
  {
    var ws := LogCopies(start, lh, cache);
    forall i | 0 <= i < |ws| ensures ws[i].b in d { assert InLog(start, start + 1 + i); }
    ApplyPrefix(d, ws, k);
    forall i | 0 <= i < k ensures ApplyWrites(d, ws[..k])[start + 1 + i] == cache[lh[i]] {
      assert ws[i] == Write(start + 1 + i, cache[lh[i]]);
    }
  }

  /** A disk whose header is empty recovers to its own home blocks. */
  lemma EmptyHeaderRecovers(start: nat, d: Disk, d': Disk)
    requires GoodLog(start, d) && HeaderCount(d[start]) == 0
    requires d'.Keys == d.Keys && HasLog(start, d') && d'[start] == d[start]
    requires forall b :: b in d && !InLog(start, b) ==> d'[b] == d[b]
    ensures GoodLog(start, d') && RecoversTo(start, d', Home(start, d))
  {
    assert InLog(start, start);
  }

  /** The header write is the commit point: it turns the recovered state from
      the old home blocks into the new ones in a single block write. */
  lemma CommitPoint(start: nat, d: Disk, lh: seq<word>, cache: Disk, d1: Disk)
    requires HasLog(start, d) && GoodList(start, d, lh)
    requires forall b :: b in cache <==> b in lh
    requires d1.Keys == d.Keys
    requires forall b :: b in d && !InLog(start, b) ==> d1[b] == d[b]
    requires forall i :: 0 <= i < |lh| ==> InLog(start, start + 1 + i) && d1[start + 1 + i] == cache[lh[i]]
    ensures
      var d2 := d1[start := PutHeader(d[start], lh)];
      && d2.Keys == d.Keys
      && GoodLog(start, d2) && HeaderBlocks(d2[start]) == lh
      && RecoversTo(start, d2, Overlay(start, d, cache))
      && Installs(start, lh, d2) == CacheInstalls(lh, cache)
  {
    HeaderRoundTrip(d[start], lh);
    assert InLog(start, start);
    var d2 := d1[start := PutHeader(d[start], lh)];
    assert d2.Keys == d.Keys;
    var v := Overlay(start, d, cache);
    OverlayRedone(start, d, lh, cache, d2);
    InstallsFromCache(start, lh, cache, d2);
  }

  lemma OverlayRedone(start: nat, d: Disk, lh: seq<word>, cache: Disk, d2: Disk)
    requires HasLog(start, d) && GoodList(start, d, lh)
    requires forall b :: b in cache <==> b in lh
    requires d2.Keys == d.Keys
    requires forall b :: b in d && !InLog(start, b) ==> d2[b] == d[b]
    requires forall i :: 0 <= i < |lh| ==> InLog(start, start + 1 + i) && d2[start + 1 + i] == cache[lh[i]]
    ensures HasLog(start, d2) && GoodList(start, d2, lh)
    ensures RedoneTo(start, d2, lh, Overlay(start, d, cache))
  {
  }

  lemma ApplyTail(d: Disk, copies: seq<Write>, h: Write, rest: seq<Write>, k: nat)
    requires |copies| < k <= |copies| + 1 + |rest|
    ensures
      var d2 := ApplyWrites(d, copies)[h.b := h.data];
      ApplyWrites(d, (copies + [h] + rest)[..k]) == ApplyWrites(d2, rest[..k - |copies| - 1])
  {
    var n := |copies|;
    var head := copies + [h];
    ApplyOne(d, head, n);
    assert head[..n] == copies && head[..n + 1] == head;
    assert (head + rest)[..k] == head + rest[..k - n - 1];
    ApplyConcat(d, head, rest[..k - n - 1]);
  }

  /** Installing from the log writes the same data as installing from the cache. */
  lemma InstallsFromCache(start: nat, lh: seq<word>, cache: Disk, d: Disk)
    requires |lh| <= LOGBLOCKS && HasLog(start, d)
    requires forall b :: b in lh ==> b in cache
    requires forall i :: 0 <= i < |lh| ==> d[start + 1 + i] == cache[lh[i]]
    ensures Installs(start, lh, d) == CacheInstalls(lh, cache)
  {
    forall i | 0 <= i < |lh| ensures Installs(start, lh, d)[i] == CacheInstalls(lh, cache)[i] {
      assert InLog(start, start + 1 + i);
    }
  }

  /** What a crash after the first k block writes of commit() leaves: the old
      state up to the header write, the new state from it on. */
  lemma CommitPrefix(start: nat, d: Disk, lh: seq<word>, cache: Disk, k: nat)
    requires ReadyToCommit(start, d, lh, cache)
    requires k <= |CommitWrites(start, lh, cache, d)|
    ensures
      var d' := ApplyWrites(d, CommitWrites(start, lh, cache, d)[..k]);
      && d'.Keys == d.Keys && GoodLog(start, d')
      && (k <= |lh| ==> RecoversTo(start, d', Home(start, d)))
      && (k > |lh| || lh == [] ==> RecoversTo(start, d', Overlay(start, d, cache)))
      && (k == |CommitWrites(start, lh, cache, d)| ==>
            Home(start, d') == Overlay(start, d, cache) && HeaderCount(d'[start]) == 0)
  {
    if lh == [] {
      assert Home(start, d) == Overlay(start, d, cache);
      EmptyHeaderRecovers(start, d, d);
    } else if k <= |lh| {
      assert CommitWrites(start, lh, cache, d)[..k] == LogCopies(start, lh, cache)[..k];
      LogCopyPrefix(start, d, lh, cache, k);
      EmptyHeaderRecovers(start, d, ApplyWrites(d, LogCopies(start, lh, cache)[..k]));
    } else {
      CommittedPrefix(start, d, lh, cache, k);
    }
  }

  /** From the commit point on, commit() writes exactly what recovery would. */
  lemma CommitTail(start: nat, d: Disk, lh: seq<word>, cache: Disk) returns (d2: Disk)
    requires HasLog(start, d) && GoodList(start, d, lh) && lh != []
    requires forall b :: b in cache <==> b in lh
    ensures d2 == ApplyWrites(d, LogCopies(start, lh, cache))[start := PutHeader(d[start], lh)]
    ensures start in d && start in ApplyWrites(d, LogCopies(start, lh, cache))
    ensures ApplyWrites(d, LogCopies(start, lh, cache))[start] == d[start]
    ensures GoodLog(start, d2) && RecoversTo(start, d2, Overlay(start, d, cache)) && d2.Keys == d.Keys
    ensures HeaderBlocks(d2[start]) == lh
    ensures CommitWrites(start, lh, cache, d) ==
              LogCopies(start, lh, cache) + [Write(start, PutHeader(d[start], lh))] + RecoveryWrites(start, d2)
  {
    var copies := LogCopies(start, lh, cache);
    LogCopyPrefix(start, d, lh, cache, |lh|);
    assert copies[..|lh|] == copies;
    assert InLog(start, start);
    CommitPoint(start, d, lh, cache, ApplyWrites(d, copies));
    d2 := ApplyWrites(d, copies)[start := PutHeader(d[start], lh)];
    assert RecoveryWrites(start, d2) ==
             CacheInstalls(lh, cache) + [Write(start, PutHeader(PutHeader(d[start], lh), []))];
  }

  lemma CommittedAt(start: nat, d: Disk, copies: seq<Write>, h: Write, d2: Disk, v: Disk, k: nat)
    requires d2 == ApplyWrites(d, copies)[h.b := h.data]
    requires GoodLog(start, d2) && RecoversTo(start, d2, v)
    requires |copies| < k <= |copies| + 1 + |RecoveryWrites(start, d2)|
    ensures
      var ws := copies + [h] + RecoveryWrites(start, d2);
      var d' := ApplyWrites(d, ws[..k]);
      && d'.Keys == d2.Keys && GoodLog(start, d')
      && RecoversTo(start, d', v)
      && (k == |ws| ==> Home(start, d') == v && HeaderCount(d'[start]) == 0)
  {
    ApplyTail(d, copies, h, RecoveryWrites(start, d2), k);
    RecoveryPrefix(start, d2, v, k - |copies| - 1);
  }

  lemma CommittedPrefix(start: nat, d: Disk, lh: seq<word>, cache: Disk, k: nat)
    requires HasLog(start, d) && GoodList(start, d, lh) && lh != []
    requires forall b :: b in cache <==> b in lh
    requires |lh| < k <= |CommitWrites(start, lh, cache, d)|
    ensures
      var d' := ApplyWrites(d, CommitWrites(start, lh, cache, d)[..k]);
      && d'.Keys == d.Keys && GoodLog(start, d')
      && RecoversTo(start, d', Overlay(start, d, cache))
      && (k == |CommitWrites(start, lh, cache, d)| ==>
            Home(start, d') == Overlay(start, d, cache) && HeaderCount(d'[start]) == 0)
  {
    var d2 := CommitTail(start, d, lh, cache);
    CommittedAt(start, d, LogCopies(start, lh, cache), Write(start, PutHeader(d[start], lh)), d2,
                Overlay(start, d, cache), k);
  }

  /** Crash atomicity: wherever commit() is cut short, and however often the
      recovery that follows is itself cut short, the home blocks end up exactly
      as before the transaction or exactly as after it. */
  lemma CrashAtomicity(start: nat, d: Disk, lh: seq<word>, cache: Disk, k: nat, crashes: seq<nat>)
    requires ReadyToCommit(start, d, lh, cache)
    requires k <= |CommitWrites(start, lh, cache, d)|
    ensures
      var crashed := ApplyWrites(d, CommitWrites(start, lh, cache, d)[..k]);
      && GoodLog(start, crashed)
      && GoodLog(start, Boot(start, crashed, crashes))
      && HeaderCount(Boot(start, crashed, crashes)[start]) == 0
      && Home(start, Boot(start, crashed, crashes)) ==
           if k <= |lh| then Home(start, d) else Overlay(start, d, cache)
  {
    CommitPrefix(start, d, lh, cache, k);
    var crashed := ApplyWrites(d, CommitWrites(start, lh, cache, d)[..k]);
    var v := if k <= |lh| then Home(start, d) else Overlay(start, d, cache);
    BootRecovers(start, crashed, crashes, v);
  }
}
