/** The code of kernel/log.c on its own state: `struct log`, the disk, and the
    buffers that log_write() has pinned. Each routine is tied to the write lists
    of LogDisk; LogSteps ties them to the steps of LogMachine. */
module LogCode {
  import opened Blocks
  import opened LogDisk

  /** The pinned buffers left when those of the listed blocks are unpinned. */
  function Unpin(cache: Disk, bs: seq<word>): Disk {
    if bs == [] then cache else Unpin(cache, bs[..|bs| - 1]) - {bs[|bs| - 1] as nat}
  }

  lemma {:induction false} UnpinKeys(cache: Disk, bs: seq<word>)
    ensures forall b :: b in Unpin(cache, bs) <==> b in cache && b !in bs
  {
    if bs != [] {
      UnpinKeys(cache, bs[..|bs| - 1]);
      assert bs == bs[..|bs| - 1] + [bs[|bs| - 1]];
    }
  }

  lemma UnpinStep(cache: Disk, lh: seq<word>, tail: nat, next: nat)
    requires tail < |lh| && next == tail + 1
    ensures Unpin(cache, lh[..next]) == Unpin(cache, lh[..tail]) - {lh[tail] as nat}
    ensures forall b :: b in Unpin(cache, lh[..tail]) ==> b in cache
  {
    assert lh[..next][..tail] == lh[..tail];
    UnpinKeys(cache, lh[..tail]);
  }

  lemma TraceStep(t: seq<Write>, ws: seq<Write>, tail: nat, next: nat)
    requires tail < |ws| && next == tail + 1
    ensures t + ws[..next] == t + ws[..tail] + [ws[tail]]
  {
  }

  lemma LogCopyStep(start: nat, d: Disk, lh: seq<word>, cache: Disk, tail: nat)
    requires HasLog(start, d) && tail < |lh| <= LOGBLOCKS
    requires forall b :: b in lh ==> b in cache
    ensures
      var ws := LogCopies(start, lh, cache);
      && ApplyWrites(d, ws[..tail + 1]) == ApplyWrites(d, ws[..tail])[start + 1 + tail := cache[lh[tail]]]
      && ApplyWrites(d, ws[..tail]).Keys == d.Keys
      && ws[..tail + 1] == ws[..tail] + [Write(start + 1 + tail, cache[lh[tail]])]
  {
    ApplyOne(d, LogCopies(start, lh, cache), tail);
    LogCopyPrefix(start, d, lh, cache, tail);
  }

  lemma LogBlockKept(start: nat, d: Disk, lh: seq<word>, tail: nat, from: nat)
    requires HasLog(start, d) && GoodList(start, d, lh) && tail < |lh| && from == start + 1 + tail
    ensures InLog(start, from) && from !in lh && from in d
  {
  }

  lemma InstallStep(start: nat, d: Disk, lh: seq<word>, tail: nat, next: nat, from: nat)
    requires HasLog(start, d) && GoodList(start, d, lh) && tail < |lh| && next == tail + 1 && from == start + 1 + tail
    ensures InLog(start, from) && from in d && |Installs(start, lh, d)| == |lh|
    ensures
      var ws := Installs(start, lh, d);
      && from in ApplyWrites(d, ws[..tail]) && ApplyWrites(d, ws[..tail])[from] == d[from]
      && ApplyWrites(d, ws[..next]) == ApplyWrites(d, ws[..tail])[lh[tail] as nat := d[from]]
      && ws[tail] == Write(lh[tail], d[from])
  {
    var ws := Installs(start, lh, d);
    LogBlockKept(start, d, lh, tail, from);
    InstallPrefixAt(start, d, lh, tail);
    assert from !in lh[..tail];
    assert ws[tail] == Write(lh[tail], d[from]);
    ApplyOne(d, ws, tail);
  }

  lemma ApplyThree(d: Disk, a: seq<Write>, w: Write, b: seq<Write>)
    ensures ApplyWrites(d, a + [w] + b) == ApplyWrites(ApplyWrites(d, a)[w.b := w.data], b)
  {
    ApplyConcat(d, a + [w], b);
    ApplyConcat(d, a, [w]);
  }

  lemma ConcatAssoc(t: seq<Write>, a: seq<Write>, b: seq<Write>, c: seq<Write>)
    ensures t + a + b + c == t + (a + b + c)
  {
  }

  lemma PinsAreListed(start: nat, d: Disk, lh: seq<word>, cache: Disk)
    requires GoodList(start, d, lh) && forall b :: b in cache <==> b in lh
    ensures Unpin(cache, lh) == map[] && start !in cache
    ensures forall b :: b in cache ==> !InLog(start, b)
  {
    UnpinKeys(cache, lh);
    assert InLog(start, start);
  }

  lemma InstallPlan(start: nat, d2: Disk, lh: seq<word>, v: Disk) returns (d3: Disk, d4: Disk)
    requires GoodLog(start, d2) && HeaderBlocks(d2[start]) == lh && RecoversTo(start, d2, v)
    ensures d3 == ApplyWrites(d2, Installs(start, lh, d2))
    ensures start in d3 && d3[start] == d2[start]
    ensures d4 == d3[start := PutHeader(d2[start], [])]
    ensures ReadyToCommit(start, d4, [], map[]) && Home(start, d4) == v
    ensures RecoveryWrites(start, d2) == Installs(start, lh, d2) + [Write(start, PutHeader(d2[start], []))]
    ensures d4 == ApplyWrites(d2, RecoveryWrites(start, d2))
  {
    assert InLog(start, start);
    InstallPrefix(start, d2, v, |lh|);
    assert Installs(start, lh, d2)[..|lh|] == Installs(start, lh, d2);
    d3 := ApplyWrites(d2, Installs(start, lh, d2));
    EraseHeader(start, d3, v, d2[start]);
    d4 := d3[start := PutHeader(d2[start], [])];
    ApplyConcat(d2, Installs(start, lh, d2), [Write(start, PutHeader(d2[start], []))]);
  }

  class Log {
    const start: nat
    var outstanding: int
    var committing: bool
    var lh: seq<word>            // the first n entries of lh.block
    var blocks: Disk             // the disk
    var cache: Disk              // contents of the pinned buffers
    ghost var trace: seq<Write>  // every block write issued so far

    /** The transaction so far is listed, pinned and not yet on the disk. */
    ghost predicate Open()
      reads this
    {
      ReadyToCommit(start, blocks, lh, cache)
    }

    /** What bread() returns: the pinned buffer if there is one, else the disk block. */
    function Bread(b: nat): Block
      requires b in cache || b in blocks
      reads this
    {
      if b in cache then cache[b] else blocks[b]
    }

    method Bwrite(b: nat, data: Block)
      modifies this`blocks, this`trace
      ensures blocks == old(blocks)[b := data]
      ensures trace == old(trace) + [Write(b, data)]
    {
      blocks := blocks[b := data];
      trace := trace + [Write(b, data)];
    }

    /** begin_op(): one pass of the admission test; `false` means sleep and retry. */
    method BeginOp() returns (admitted: bool)
      modifies this`outstanding
      ensures admitted <==> !committing && |lh| + (old(outstanding) + 1) * MAXOPBLOCKS <= LOGBLOCKS
      ensures outstanding == old(outstanding) + if admitted then 1 else 0
    {
      if committing {
        return false;
      } else if |lh| + (outstanding + 1) * MAXOPBLOCKS > LOGBLOCKS {
        return false;
      } else {
        outstanding := outstanding + 1;
        return true;
      }
    }

    /** log_write() on a buffer for block b that now holds `data`. */
    method LogWrite(b: word, data: Block) returns (panicked: bool)
      requires Open() && b in blocks && !InLog(start, b)
      modifies this`lh, this`cache
      ensures panicked <==> |old(lh)| >= LOGBLOCKS || outstanding < 1
      ensures panicked ==> lh == old(lh) && cache == old(cache)
      ensures !panicked ==>
                && Open()
                && lh == (if b in old(lh) then old(lh) else old(lh) + [b])
                && cache == old(cache)[b as nat := data]
    {
      if |lh| >= LOGBLOCKS {
        return true;
      }
      if outstanding < 1 {
        return true;
      }
      var i := 0;
      while i < |lh|
        invariant i <= |lh|
        invariant b !in lh[..i]
      {
        if lh[i] == b {
          break;
        }
        i := i + 1;
      }
      cache := cache[b as nat := data];
      if i == |lh| {
        assert lh[..i] == lh;
        lh := lh + [b];
      } else {
        assert lh[i := b] == lh;
        lh := lh[i := b];
      }
      assert forall x :: x in cache <==> x in lh;
      return false;
    }

    /** write_log(): the listed blocks go to the log. */
    method WriteLog()
      requires |lh| <= LOGBLOCKS && HasLog(start, blocks)
      requires forall b :: b in lh ==> b in cache
      modifies this`blocks, this`trace
      ensures blocks == ApplyWrites(old(blocks), LogCopies(start, lh, cache))
      ensures trace == old(trace) + LogCopies(start, lh, cache)
    {
      ghost var ws := LogCopies(start, lh, cache);
      var tail := 0;
      while tail < |lh|
        invariant tail <= |lh|
        invariant blocks == ApplyWrites(old(blocks), ws[..tail])
        invariant trace == old(trace) + ws[..tail]
      {
        LogCopyStep(start, old(blocks), lh, cache, tail);
        Bwrite(start + tail + 1, Bread(lh[tail]));
        tail := tail + 1;
      }
      assert ws[..|lh|] == ws;
    }

    /** write_head(): the in-memory list goes to the header block. */
    method WriteHead()
      requires |lh| <= LOGBLOCKS && start in blocks && start !in cache
      modifies this`blocks, this`trace
      ensures
        var h := PutHeader(old(blocks)[start], lh);
        blocks == old(blocks)[start := h] && trace == old(trace) + [Write(start, h)]
    {
      var hb := Bread(start);
      hb := SetWord(hb, 0, |lh|);
      var i := 0;
      while i < |lh|
        invariant i <= |lh|
        invariant hb == PutEntries(SetWord(blocks[start], 0, |lh|), lh, i)
      {
        hb := SetWord(hb, i + 1, lh[i]);
        i := i + 1;
      }
      Bwrite(start, hb);
    }

    /** install_trans(): log blocks go to their home locations and, unless
        recovering, the pins are dropped. */
    method InstallTrans(recovering: bool)
      requires HasLog(start, blocks) && GoodList(start, blocks, lh)
      requires forall b :: b in cache ==> !InLog(start, b)
      modifies this`blocks, this`trace, this`cache
      ensures blocks == ApplyWrites(old(blocks), Installs(start, lh, old(blocks)))
      ensures trace == old(trace) + Installs(start, lh, old(blocks))
      ensures cache == if recovering then old(cache) else Unpin(old(cache), lh)
    {
      ghost var ws := Installs(start, lh, old(blocks));
      var tail := 0;
      while tail < |lh|
        invariant tail <= |lh| == |ws|
        invariant blocks == ApplyWrites(old(blocks), ws[..tail])
        invariant trace == old(trace) + ws[..tail]
        invariant cache == if recovering then old(cache) else Unpin(old(cache), lh[..tail])
      {
        var next, from := tail + 1, start + 1 + tail;
        InstallStep(start, old(blocks), lh, tail, next, from);
        UnpinStep(old(cache), lh, tail, next);
        TraceStep(old(trace), ws, tail, next);
        Bwrite(lh[tail], Bread(from));
        if !recovering {
          cache := cache - {lh[tail] as nat};
        }
        tail := next;
      }
      assert ws[..|lh|] == ws && lh[..|lh|] == lh;
    }

    /** read_head(): the header block's list becomes the in-memory list. */
    method ReadHead()
      requires start in blocks && start !in cache
      requires HeaderCount(blocks[start]) <= LOGBLOCKS
      modifies this`lh
      ensures lh == HeaderBlocks(blocks[start])
    {
      var hb := Bread(start);
      var n := WordAt(hb, 0);
      lh := [];
      var i := 0;
      while i < n
        invariant i <= n && |lh| == i
        invariant forall k :: 0 <= k < i ==> lh[k] == WordAt(hb, 1 + k)
      {
        lh := lh + [WordAt(hb, 1 + i)];
        i := i + 1;
      }
      assert lh == HeaderBlocks(blocks[start]);
    }

    /** The last three steps of both commit() and recover_from_log(): install,
        empty the in-memory list, write the header. */
    method InstallAndClear(recovering: bool, ghost v: Disk)
      requires GoodLog(start, blocks) && RecoversTo(start, blocks, v)
      requires lh == HeaderBlocks(blocks[start])
      requires if recovering then cache == map[] else forall b :: b in cache <==> b in lh
      modifies this`blocks, this`trace, this`cache, this`lh
      ensures Open() && lh == [] && cache == map[]
      ensures trace == old(trace) + RecoveryWrites(start, old(blocks))
      ensures blocks == ApplyWrites(old(blocks), RecoveryWrites(start, old(blocks)))
      ensures Home(start, blocks) == v
    {
      ghost var d3, d4 := InstallPlan(start, blocks, lh, v);
      if !recovering { PinsAreListed(start, blocks, lh, cache); }
      InstallTrans(recovering);
      lh := [];
      WriteHead();
      assert blocks == d4;
    }

    /** recover_from_log() issues exactly the writes of RecoveryWrites. */
    method RecoverFromLog()
      requires GoodLog(start, blocks) && cache == map[]
      modifies this`blocks, this`trace, this`cache, this`lh
      ensures Open() && lh == [] && cache == map[]
      ensures trace == old(trace) + RecoveryWrites(start, old(blocks))
      ensures blocks == ApplyWrites(old(blocks), RecoveryWrites(start, old(blocks)))
      ensures Home(start, blocks) == Redo(start, old(blocks))
    {
      assert InLog(start, start);
      ReadHead();
      InstallAndClear(true, Redo(start, blocks));
    }

    /** commit() issues exactly the writes of CommitWrites. */
    method Commit()
      requires Open()
      modifies this`blocks, this`trace, this`cache, this`lh
      ensures Open() && lh == [] && cache == map[]
      ensures trace == old(trace) + CommitWrites(start, old(lh), old(cache), old(blocks))
      ensures blocks == ApplyWrites(old(blocks), CommitWrites(start, old(lh), old(cache), old(blocks)))
      ensures Home(start, blocks) == Overlay(start, old(blocks), old(cache))
    {
      if |lh| > 0 {
        ghost var d2 := CommitTail(start, blocks, lh, cache);
        PinsAreListed(start, blocks, lh, cache);
        WriteLog();
        WriteHead();
        assert blocks == d2;
        InstallAndClear(false, Overlay(start, old(blocks), cache));
        ConcatAssoc(old(trace), LogCopies(start, old(lh), old(cache)),
                    [Write(start, PutHeader(old(blocks)[start], old(lh)))], RecoveryWrites(start, d2));
        ApplyThree(old(blocks), LogCopies(start, old(lh), old(cache)),
                   Write(start, PutHeader(old(blocks)[start], old(lh))), RecoveryWrites(start, d2));
      } else {
        assert Home(start, blocks) == Overlay(start, blocks, cache);
      }
    }

    /** end_op(): the last operation out commits. */
    method EndOp() returns (panicked: bool)
      requires Open()
      modifies this`blocks, this`trace, this`cache, this`lh, this`outstanding, this`committing
      ensures panicked <==> old(committing)
      ensures outstanding == old(outstanding) - 1
      ensures !panicked ==> Open() && !committing
      ensures !panicked && outstanding == 0 ==>
                && lh == [] && cache == map[]
                && trace == old(trace) + CommitWrites(start, old(lh), old(cache), old(blocks))
                && blocks == ApplyWrites(old(blocks), CommitWrites(start, old(lh), old(cache), old(blocks)))
                && Home(start, blocks) == Overlay(start, old(blocks), old(cache))
      ensures panicked || outstanding != 0 ==>
                lh == old(lh) && blocks == old(blocks) && cache == old(cache) && trace == old(trace)
    {
      var doCommit := false;
      outstanding := outstanding - 1;
      if committing {
        return true;
      }
      if outstanding == 0 {
        doCommit := true;
        committing := true;
      }
      if doCommit {
        Commit();
        committing := false;
      }
      return false;
    }
  }
}
