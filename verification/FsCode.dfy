/** The allocator and file code of kernel/fs.c on the file-system view of the
    disk (what bread() returns inside a transaction). `logged` collects the
    blocks handed to log_write(). */
module FsCode {
  import opened Blocks
  import opened Bitmap
  import opened FsLayout
  import opened FsEffects

  /** How a pass of the loop in writei() ends. */
  datatype Outcome = Stored | NoBlock | CopyFailed

  class FileSys {
    const sb: Super
    var blocks: Disk
    var inodes: map<nat, Inode>  // in-memory inodes
    var logged: set<nat>
    ghost var owner: map<nat, Slot>

    constructor (sb: Super, blocks: Disk, inodes: map<nat, Inode>, ghost owner: map<nat, Slot>)
      ensures this.sb == sb && this.blocks == blocks && this.inodes == inodes && this.owner == owner && logged == {}
    {
      this.sb, this.blocks, this.inodes, this.owner, logged := sb, blocks, inodes, owner, {};
    }

    ghost function St(): Store
      reads this
    {
      Store(blocks, owner, logged)
    }

    /** Bitmap and block map agree, except that the blocks in `loose` are marked
        in use but not yet held by any slot. */
    ghost predicate Sound(loose: set<nat>)
      reads this
    {
      && GoodSuper(sb) && FullDisk(sb, blocks)
      && OwnerInv(sb, blocks, inodes, owner)
      && loose !! owner.Keys
      && BitInv(sb, blocks, owner.Keys + loose)
    }

    /** The search of balloc(): the lowest block whose bit is clear. */
    method FindClear() returns (found: bool, r: nat)
      requires GoodSuper(sb) && FullDisk(sb, blocks)
      ensures found ==> r < sb.size && !InUse(sb, blocks, r) && forall b :: 0 <= b < r ==> InUse(sb, blocks, b)
      ensures !found ==> DiskFull(sb, blocks)
    {
      var b := 0;
      while b < sb.size
        invariant b % BPB == 0
        invariant forall x :: 0 <= x < b && x < sb.size ==> InUse(sb, blocks, x)
      {
        var bm := BitmapBlock(sb, b);
        var bi := 0;
        while bi < BPB && b + bi < sb.size
          invariant bi <= BPB
          invariant forall x :: 0 <= x < b + bi && x < sb.size ==> InUse(sb, blocks, x)
        {
          BitmapGroup(sb, b, bi);
          if !BlockBit(blocks[bm], bi) {
            return true, b + bi;
          }
          bi := bi + 1;
        }
        b := b + BPB;
      }
      return false, 0;
    }

    /** balloc(): the lowest free block, marked and zeroed, or 0. */
    method Balloc() returns (r: word)
      requires Sound({})
      modifies this`blocks, this`logged
      ensures r == 0 ==> blocks == old(blocks) && logged == old(logged) && DiskFull(sb, blocks)
      ensures r != 0 ==>
                && sb.dataStart <= r < sb.size && r !in owner && Sound({r as nat})
                && blocks.Keys == old(blocks).Keys && blocks[r as nat] == ZeroBlock()
                && (forall b :: sb.dataStart <= b < sb.size && b != r ==> blocks[b] == old(blocks)[b])
                && logged == old(logged) + {BitmapBlock(sb, r), r}
                && (forall b :: 0 <= b < r ==> InUse(sb, old(blocks), b))
                && (forall x :: sb.dataStart <= x < r ==> x in owner)
                && Kept(sb, old(blocks), blocks, logged)
    {
      var found, b := FindClear();
      if !found {
        return 0;
      }
      assert owner.Keys + {} == owner.Keys;
      TakeBlock(sb, blocks, inodes, owner, b);
      blocks := PutUse(sb, blocks, b, true);
      logged := logged + {BitmapBlock(sb, b)};
      blocks := blocks[b := ZeroBlock()];
      logged := logged + {b};
      return b;
    }

    /** bfree() */
    method Bfree(b: nat, ghost used: set<nat>) returns (panicked: bool)
      requires GoodSuper(sb) && FullDisk(sb, blocks) && BitInv(sb, blocks, used)
      requires sb.dataStart <= b < sb.size
      modifies this`blocks, this`logged
      ensures FullDisk(sb, blocks) && Kept(sb, old(blocks), blocks, logged) && old(logged) <= logged
      ensures panicked <==> b !in used
      ensures panicked ==> blocks == old(blocks) && logged == old(logged)
      ensures !panicked ==> BitInv(sb, blocks, used - {b}) && logged == old(logged) + {BitmapBlock(sb, b)}
      ensures forall x :: sb.dataStart <= x < sb.size ==> blocks[x] == old(blocks)[x]
    {
      if !InUse(sb, blocks, b) {
        return true;
      }
      PutUseInv(sb, blocks, used, b, false);
      blocks := PutUse(sb, blocks, b, false);
      logged := logged + {BitmapBlock(sb, b)};
      return false;
    }

    method AllocDirect(inum: nat, bn: nat, ghost lo: nat, ghost hi: nat) returns (addr: word)
      requires Sound({}) && inum in inodes && bn < NDIRECT && inodes[inum].addrs[bn] == 0 && lo <= bn < hi
      modifies this`blocks, this`inodes, this`owner, this`logged
      ensures Sound({}) && Grown(old(blocks), old(inodes), old(owner), blocks, inodes, owner, inum)
      ensures forall k :: 0 <= k < MAXFILE ==>
                BlockOf(blocks, inodes[inum], k) == if k == bn then addr else BlockOf(old(blocks), old(inodes)[inum], k)
      ensures addr == 0 ==> DiskFull(sb, blocks) && logged == old(logged)
      ensures addr != 0 ==> addr in blocks && blocks[addr as nat] == ZeroBlock()
                            && logged == old(logged) + {BitmapBlock(sb, addr), addr}
      ensures Took(sb, inum, old(St()), St(), lo, hi)
    {
      addr := Balloc();
      if addr == 0 {
        TookNone(sb, inum, St(), lo, hi);
        return;
      }
      TakeGrown(sb, old(blocks), blocks, inodes, owner, addr, inum);
      AddDirect(sb, blocks, inodes, owner, inum, bn, addr);
      DirectGrown(blocks, inodes, owner, inum, bn, addr);
      ghost var i, o := inodes, owner;
      inodes := inodes[inum := inodes[inum].(addrs := inodes[inum].addrs[bn := addr])];
      owner := owner[addr as nat := Data(inum, bn)];
      assert owner.Keys + {} == o.Keys + {addr as nat};
      GrownTrans(old(blocks), i, o, blocks, i, o, blocks, inodes, owner, inum);
      TookOne(sb, inum, old(St()), St(), addr, Data(inum, bn), lo, hi);
    }
  
    method AllocIndirect(inum: nat, ghost lo: nat, ghost hi: nat) returns (addr: word)
      requires Sound({}) && inum in inodes && inodes[inum].addrs[NDIRECT] == 0
      modifies this`blocks, this`inodes, this`owner, this`logged
      ensures Sound({}) && Grown(old(blocks), old(inodes), old(owner), blocks, inodes, owner, inum)
      ensures inodes[inum].addrs[NDIRECT] == addr
      ensures forall k :: 0 <= k < MAXFILE ==>
                BlockOf(blocks, inodes[inum], k) == BlockOf(old(blocks), old(inodes)[inum], k)
      ensures addr == 0 ==> DiskFull(sb, blocks) && logged == old(logged)
      ensures addr != 0 ==> addr in blocks && logged == old(logged) + {BitmapBlock(sb, addr), addr}
      ensures Took(sb, inum, old(St()), St(), lo, hi)
    {
      addr := Balloc();
      if addr == 0 {
        TookNone(sb, inum, St(), lo, hi);
        return;
      }
      TakeGrown(sb, old(blocks), blocks, inodes, owner, addr, inum);
      AddIndirect(sb, blocks, inodes, owner, inum, addr);
      IndirectGrown(blocks, inodes, owner, inum, addr);
      ghost var i, o := inodes, owner;
      inodes := inodes[inum := inodes[inum].(addrs := inodes[inum].addrs[NDIRECT := addr])];
      owner := owner[addr as nat := Indirect(inum)];
      assert owner.Keys + {} == o.Keys + {addr as nat};
      GrownTrans(old(blocks), i, o, blocks, i, o, blocks, inodes, owner, inum);
      TookOne(sb, inum, old(St()), St(), addr, Indirect(inum), lo, hi);
    }

    method AllocEntry(inum: nat, j: nat, ghost lo: nat, ghost hi: nat) returns (addr: word)
      requires Sound({}) && inum in inodes && j < NINDIRECT && lo <= NDIRECT + j < hi
      requires inodes[inum].addrs[NDIRECT] != 0 && BlockOf(blocks, inodes[inum], NDIRECT + j) == 0
      modifies this`blocks, this`owner, this`logged
      ensures Sound({}) && Grown(old(blocks), inodes, old(owner), blocks, inodes, owner, inum)
      ensures forall k :: 0 <= k < MAXFILE ==>
                BlockOf(blocks, inodes[inum], k) ==
                  if k == NDIRECT + j then addr else BlockOf(old(blocks), inodes[inum], k)
      ensures addr == 0 ==> DiskFull(sb, blocks) && logged == old(logged)
      ensures addr != 0 ==> addr in blocks && blocks[addr as nat] == ZeroBlock()
                            && logged == old(logged) + {BitmapBlock(sb, addr), addr, inodes[inum].addrs[NDIRECT]}
      ensures Took(sb, inum, old(St()), St(), lo, hi)
    {
      addr := Balloc();
      if addr == 0 {
        TookNone(sb, inum, St(), lo, hi);
        return;
      }
      EntryAllocated(sb, old(blocks), blocks, inodes, owner, inum, j, addr);
      ghost var b1, l1, s := blocks, logged, Data(inum, NDIRECT + j);
      var ind: nat := inodes[inum].addrs[NDIRECT];
      assert sb.bmapstart <= ind by { assert ValidSlot(inodes, Indirect(inum)); }
      blocks := blocks[ind := SetWord(blocks[ind], j, addr)];
      logged := logged + {ind};
      owner := owner[addr as nat := s];
      TookEntry(sb, inum, old(St()), b1, l1, St(), ind, blocks[ind], addr, s, lo, hi);
    }

    /** The entry of an existing indirect block, allocated if missing. */
    method EntryBlock(inum: nat, j: nat, ghost lo: nat, ghost hi: nat) returns (addr: word, ghost bms: set<nat>)
      requires Sound({}) && inum in inodes && j < NINDIRECT && inodes[inum].addrs[NDIRECT] != 0
      requires lo <= NDIRECT + j < hi
      modifies this`blocks, this`owner, this`logged
      ensures Sound({}) && Grown(old(blocks), inodes, old(owner), blocks, inodes, owner, inum)
      ensures forall k :: 0 <= k < MAXFILE ==>
                BlockOf(blocks, inodes[inum], k) ==
                  if k == NDIRECT + j then addr else BlockOf(old(blocks), inodes[inum], k)
      ensures BlockOf(old(blocks), inodes[inum], NDIRECT + j) != 0 ==>
                blocks == old(blocks) && owner == old(owner) && logged == old(logged)
      ensures addr == 0 ==> DiskFull(sb, blocks)
      ensures addr != 0 && BlockOf(old(blocks), inodes[inum], NDIRECT + j) == 0 ==>
                addr in blocks && blocks[addr as nat] == ZeroBlock()
      ensures logged <= old(logged) + bms + NonZero(addr) + NonZero(inodes[inum].addrs[NDIRECT])
      ensures |bms| <= if BlockOf(old(blocks), inodes[inum], NDIRECT + j) == 0 then 1 else 0
      ensures Took(sb, inum, old(St()), St(), lo, hi)
    {
      bms := {};
      TookNone(sb, inum, St(), lo, hi);
      var ind := inodes[inum].addrs[NDIRECT];
      assert ValidSlot(inodes, Indirect(inum)) && SlotAddr(blocks, inodes, Indirect(inum)) == ind;
      addr := WordAt(blocks[ind as nat], j);
      if addr == 0 {
        addr := AllocEntry(inum, j, lo, hi);
        if addr != 0 {
          bms := {BitmapBlock(sb, addr)};
        }
      }
    }

    /** The part of bmap() beyond the direct blocks. */
    method BmapIndirect(inum: nat, j: nat, ghost lo: nat, ghost hi: nat) returns (addr: word, ghost bms: set<nat>)
      requires Sound({}) && inum in inodes && j < NINDIRECT && lo <= NDIRECT + j < hi
      modifies this`blocks, this`inodes, this`owner, this`logged
      ensures Sound({}) && Grown(old(blocks), old(inodes), old(owner), blocks, inodes, owner, inum)
      ensures forall k :: 0 <= k < MAXFILE ==>
                BlockOf(blocks, inodes[inum], k) ==
                  if k == NDIRECT + j then addr else BlockOf(old(blocks), old(inodes)[inum], k)
      ensures BlockOf(old(blocks), old(inodes)[inum], NDIRECT + j) != 0 ==>
                blocks == old(blocks) && inodes == old(inodes) && owner == old(owner) && logged == old(logged)
      ensures addr == 0 ==> DiskFull(sb, blocks)
      ensures addr != 0 && BlockOf(old(blocks), old(inodes)[inum], NDIRECT + j) == 0 ==>
                addr in blocks && blocks[addr as nat] == ZeroBlock()
      ensures logged <= old(logged) + bms + NonZero(addr) + NonZero(inodes[inum].addrs[NDIRECT])
      ensures |bms| <= (if old(inodes)[inum].addrs[NDIRECT] == 0 && inodes[inum].addrs[NDIRECT] != 0 then 1 else 0)
                       + (if BlockOf(old(blocks), old(inodes)[inum], NDIRECT + j) == 0 then 1 else 0)
      ensures Took(sb, inum, old(St()), St(), lo, hi)
    {
      bms := {};
      var ind := inodes[inum].addrs[NDIRECT];
      if ind == 0 {
        ind := AllocIndirect(inum, lo, hi);
        if ind == 0 {
          return 0, {};
        }
        bms := {BitmapBlock(sb, ind)};
      } else {
        TookNone(sb, inum, St(), lo, hi);
      }
      ghost var b, i, o, s := blocks, inodes, owner, St();
      ghost var more;
      addr, more := EntryBlock(inum, j, lo, hi);
      GrownTrans(old(blocks), old(inodes), old(owner), b, i, o, blocks, inodes, owner, inum);
      TookTrans(sb, inum, old(St()), s, St(), lo, hi);
      bms := bms + more;
    }

    /** bmap(): the block that holds block bn of the file, allocated if missing;
        0 if the disk is full. `bms` are the bitmap blocks it logged. */
    method Bmap(inum: nat, bn: nat, ghost lo: nat, ghost hi: nat) returns (addr: word, ghost bms: set<nat>)
      requires Sound({}) && inum in inodes && bn < MAXFILE && lo <= bn < hi
      modifies this`blocks, this`inodes, this`owner, this`logged
      ensures Sound({}) && Grown(old(blocks), old(inodes), old(owner), blocks, inodes, owner, inum)
      ensures forall k :: 0 <= k < MAXFILE ==>
                BlockOf(blocks, inodes[inum], k) == if k == bn then addr else BlockOf(old(blocks), old(inodes)[inum], k)
      ensures BlockOf(old(blocks), old(inodes)[inum], bn) != 0 ==>
                blocks == old(blocks) && inodes == old(inodes) && owner == old(owner) && logged == old(logged)
      ensures addr == 0 ==> DiskFull(sb, blocks)
      ensures addr != 0 && BlockOf(old(blocks), old(inodes)[inum], bn) == 0 ==>
                addr in blocks && blocks[addr as nat] == ZeroBlock()
      ensures logged <= old(logged) + bms + NonZero(addr) + NonZero(inodes[inum].addrs[NDIRECT])
      ensures |bms| <= (if old(inodes)[inum].addrs[NDIRECT] == 0 && inodes[inum].addrs[NDIRECT] != 0 then 1 else 0)
                       + (if BlockOf(old(blocks), old(inodes)[inum], bn) == 0 then 1 else 0)
      ensures Took(sb, inum, old(St()), St(), lo, hi)
    {
      TookNone(sb, inum, St(), lo, hi);
      if bn < NDIRECT {
        bms := {};
        addr := inodes[inum].addrs[bn];
        if addr == 0 {
          addr := AllocDirect(inum, bn, lo, hi);
          if addr != 0 {
            bms := {BitmapBlock(sb, addr)};
          }
        }
      } else {
        addr, bms := BmapIndirect(inum, bn - NDIRECT, lo, hi);
      }
    }
  
    /** Between operations: nothing loose, no hole below any file's size, and
        every in-memory inode written back. */
    ghost predicate Consistent()
      reads this
    {
      Sound({}) && InodeArea(sb, blocks, inodes) && NoHolesAnywhere(blocks, inodes)
    }

    /** Copy the next m bytes into the mapped block and log it. */
    method StorePiece(inum: nat, off: nat, src: seq<byte>, tot: nat, cur: nat, m: nat, ghost tot': nat, addr: word,
                      ghost b0: Disk, ghost i0: map<nat, Inode>, ghost o0: map<nat, Slot>)
      requires Sound({}) && inum in inodes && inum in i0 && tot + m <= |src| && off + |src| <= MAXBYTES
      requires Written(b0, i0, o0, blocks, inodes, owner, inum, off, src, tot)
      requires cur == off + tot && 0 < m <= BSIZE - cur % BSIZE
      requires addr != 0 && BlockOf(blocks, inodes[inum], cur / BSIZE) == addr && tot' == tot + m
      requires StoresLogged(blocks, inodes[inum], logged, off, tot)
      modifies this`blocks, this`logged
      ensures Sound({}) && Written(b0, i0, o0, blocks, inodes, owner, inum, off, src, tot')
      ensures logged == old(logged) + {addr as nat}
      ensures Kept(sb, old(blocks), blocks, logged) && StoresLogged(blocks, inodes[inum], logged, off, tot')
    {
      assert owner.Keys + {} == owner.Keys;
      PieceStored(sb, b0, i0, o0, blocks, inodes, owner, logged, inum, off, src, tot, cur, m, tot', addr);
      blocks := blocks[addr as nat := Patch(blocks[addr as nat], cur % BSIZE, src[tot..tot + m])];
      logged := logged + {addr as nat};
    }

    /** The block at offset cur, allocated if need be; 0 if the disk is full. */
    method MapPiece(inum: nat, off: nat, src: seq<byte>, tot: nat, cur: nat, ghost lo: nat, ghost hi: nat,
                    ghost b0: Disk, ghost i0: map<nat, Inode>, ghost o0: map<nat, Slot>)
      returns (addr: word, ghost data: set<nat>, ghost bms: set<nat>)
      requires Sound({}) && inum in inodes && inum in i0 && tot < |src| && off + |src| <= MAXBYTES && cur == off + tot
      requires Written(b0, i0, o0, blocks, inodes, owner, inum, off, src, tot)
      requires lo <= cur / BSIZE < hi && StoresLogged(blocks, inodes[inum], logged, off, tot)
      modifies this`blocks, this`inodes, this`owner, this`logged
      ensures Sound({}) && inum in inodes && BlockOf(blocks, inodes[inum], cur / BSIZE) == addr
      ensures Written(b0, i0, o0, blocks, inodes, owner, inum, off, src, tot)
      ensures Took(sb, inum, old(St()), St(), lo, hi) && StoresLogged(blocks, inodes[inum], logged, off, tot)
      ensures data == NonZero(addr)
      ensures PieceCost(old(logged), logged, old(inodes)[inum].addrs[NDIRECT], inodes[inum].addrs[NDIRECT],
                        data, bms, Aligned(cur))
      ensures addr == 0 ==> Boundary(i0[inum].size, off, tot) && HoleAt(blocks, inodes[inum], off, tot)
      ensures addr == 0 ==> DiskFull(sb, blocks)
    {
      HoleIsAligned(blocks, inodes[inum], Max(inodes[inum].size, cur), cur);
      addr, bms := Bmap(inum, cur / BSIZE, lo, hi);
      data := NonZero(addr);
      StoresKept(old(blocks), old(inodes)[inum], old(logged), blocks, inodes[inum], logged, off, tot,
                 Max(i0[inum].size, off + tot));
      WrittenGrown(sb, b0, i0, o0, old(blocks), old(inodes), old(owner), blocks, inodes, owner, inum, off, src, tot);
      BoundaryAt(blocks, inodes[inum], i0[inum].size, off, tot, cur);
    }

    /** One pass of writei()'s loop: map the block at offset cur, copy, log it. */
    method WritePiece(inum: nat, off: nat, src: seq<byte>, tot: nat, cur: nat, m: nat, copyOk: bool,
                      ghost lo: nat, ghost hi: nat,
                      ghost b0: Disk, ghost i0: map<nat, Inode>, ghost o0: map<nat, Slot>)
      returns (out: Outcome, tot': nat, cur': nat, ghost data: set<nat>, ghost bms: set<nat>)
      requires Sound({}) && inum in inodes && inum in i0 && tot + m <= |src| && off + |src| <= MAXBYTES
      requires Written(b0, i0, o0, blocks, inodes, owner, inum, off, src, tot)
      requires cur == off + tot && 0 < m <= BSIZE - cur % BSIZE
      requires lo <= cur / BSIZE < hi && StoresLogged(blocks, inodes[inum], logged, off, tot)
      modifies this`blocks, this`inodes, this`owner, this`logged
      ensures Sound({}) && inum in inodes
      ensures Took(sb, inum, old(St()), St(), lo, hi) && StoresLogged(blocks, inodes[inum], logged, off, tot')
      ensures tot' == (if out.Stored? then tot + m else tot) && cur' == off + tot'
      ensures Written(b0, i0, o0, blocks, inodes, owner, inum, off, src, tot')
      ensures out.CopyFailed? ==> !copyOk
      ensures PieceCost(old(logged), logged, old(inodes)[inum].addrs[NDIRECT], inodes[inum].addrs[NDIRECT],
                        data, bms, Aligned(cur))
      ensures out.NoBlock? ==> Boundary(i0[inum].size, off, tot') && HoleAt(blocks, inodes[inum], off, tot')
      ensures out.NoBlock? ==> DiskFull(sb, blocks)
    {
      var addr;
      addr, data, bms := MapPiece(inum, off, src, tot, cur, lo, hi, b0, i0, o0);
      if addr == 0 {
        return NoBlock, tot, cur, data, bms;
      }
      if !copyOk {
        return CopyFailed, tot, cur, data, bms;
      }
      tot' := tot + m;
      ghost var s := St();
      StorePiece(inum, off, src, tot, cur, m, tot', addr, b0, i0, o0);
      TookSame(sb, inum, s, St(), lo, hi);
      TookTrans(sb, inum, old(St()), s, St(), lo, hi);
      return Stored, tot', cur + m, data, bms;
    }

    /** What holds after each pass of the loop of writei(). */
    ghost predicate AtLoop(inum: nat, off: nat, src: seq<byte>, tot: nat, out: Outcome, cur: nat, passes: nat,
                           data: set<nat>, bms: set<nat>,
                           b0: Disk, i0: map<nat, Inode>, o0: map<nat, Slot>, l0: set<nat>)
      reads this
    {
      && Sound({}) && inum in inodes && inum in i0 && off + |src| <= MAXBYTES
      && AtPass(off, |src|, tot, cur, passes, out.Stored?) && (!out.Stored? ==> tot < |src|)
      && Written(b0, i0, o0, blocks, inodes, owner, inum, off, src, tot)
      && LoopCost(l0, logged, i0[inum].addrs[NDIRECT], inodes[inum].addrs[NDIRECT], data, bms, passes, Aligned(off))
      && Took(sb, inum, Store(b0, o0, l0), St(), FirstBlock(off), PastBlock(off, |src|))
      && StoresLogged(blocks, inodes[inum], logged, off, tot)
      && (out.NoBlock? ==> Boundary(i0[inum].size, off, tot) && HoleAt(blocks, inodes[inum], off, tot))
      && (out.NoBlock? ==> DiskFull(sb, blocks))
    }

    /** One pass. */
    method WritePass(inum: nat, off: nat, src: seq<byte>, tot: nat, cur: nat, copyOk: bool, ghost passes: nat,
                     ghost data: set<nat>, ghost bms: set<nat>,
                     ghost b0: Disk, ghost i0: map<nat, Inode>, ghost o0: map<nat, Slot>, ghost l0: set<nat>)
      returns (out: Outcome, tot': nat, cur': nat, ghost next: nat, ghost data': set<nat>, ghost bms': set<nat>)
      requires AtLoop(inum, off, src, tot, Stored, cur, passes, data, bms, b0, i0, o0, l0) && tot < |src|
      modifies this`blocks, this`inodes, this`owner, this`logged
      ensures AtLoop(inum, off, src, tot', out, cur', next, data', bms', b0, i0, o0, l0)
      ensures (out.CopyFailed? ==> !copyOk) && (if out.Stored? then tot' > tot else tot' == tot) && next == passes + 1
    {
      ghost var l1, ind1, s1 := logged, inodes[inum].addrs[NDIRECT], St();
      ghost var lo, hi := FirstBlock(off), PastBlock(off, |src|);
      next := passes + 1;
      PieceInRange(off, |src|, tot, cur);
      var m := Piece(cur, |src| - tot);
      out, tot', cur', data', bms' := WritePiece(inum, off, src, tot, cur, m, copyOk, lo, hi, b0, i0, o0);
      TookTrans(sb, inum, Store(b0, o0, l0), s1, St(), lo, hi);
      PassStep(off, |src|, tot, cur, passes, tot', cur', next, out.Stored?);
      CostStep(l0, l1, logged, i0[inum].addrs[NDIRECT], ind1, inodes[inum].addrs[NDIRECT],
               data, bms, data', bms', passes, next, Aligned(off), Aligned(cur));
      data', bms' := data + data', bms + bms';
    }

    /** The loop of writei(). The first okCopies calls of either_copyin()
        succeed; a failing one copies nothing. */
    method WriteLoop(inum: nat, off: nat, src: seq<byte>, okCopies: nat)
      returns (tot: nat, out: Outcome, cur: nat, ghost data: set<nat>, ghost bms: set<nat>, ghost passes: nat)
      requires Sound({}) && inum in inodes && off + |src| <= MAXBYTES
      requires off <= inodes[inum].size && NoHoles(blocks, inodes[inum], inodes[inum].size)
      modifies this`blocks, this`inodes, this`owner, this`logged
      ensures AtLoop(inum, off, src, tot, out, cur, passes, data, bms,
                     old(blocks), old(inodes), old(owner), old(logged))
      ensures out.Stored? <==> tot == |src|
      ensures out.CopyFailed? ==> okCopies < Chunks(off, |src|)
    {
      tot, out, cur, data, bms, passes := 0, Stored, off, {}, {}, 0;
      var copies := okCopies;
      ghost var b0, i0, o0, l0 := blocks, inodes, owner, logged;
      PassStart(off, |src|);
      TookNone(sb, inum, St(), FirstBlock(off), PastBlock(off, |src|));
      while tot < |src| && out.Stored?
        invariant AtLoop(inum, off, src, tot, out, cur, passes, data, bms, b0, i0, o0, l0)
        invariant out.Stored? ==> copies + passes >= okCopies
        invariant out.CopyFailed? ==> okCopies < Chunks(off, |src|)
        decreases |src| - tot, out.Stored?
      {
        out, tot, cur, passes, data, bms :=
          WritePass(inum, off, src, tot, cur, copies > 0, passes, data, bms, b0, i0, o0, l0);
        copies := if copies > 0 then copies - 1 else 0;
      }
    }

    /** The block of the inode, with the inode stored in it. */
    method EncodeInode(inum: nat, ghost before: map<nat, Inode>) returns (data: Block)
      requires GoodSuper(sb) && FullDisk(sb, blocks) && InodeArea(sb, blocks, before)
      requires inum in before && inum in inodes && inodes[inum].size <= MAXBYTES
      ensures
        var x := InodeBlock(sb, inum);
        && sb.inodestart <= x < sb.bmapstart
        && FullDisk(sb, blocks[x := data]) && InodeArea(sb, blocks[x := data], before[inum := inodes[inum]])
    {
      AreaUpdated(sb, blocks, before, inum, inodes[inum]);
      data := PutInode(blocks[InodeBlock(sb, inum)], inum % IPB, inodes[inum]);
    }

    /** iupdate(), when the disk holds the inodes `before`. */
    method Iupdate(inum: nat, ghost before: map<nat, Inode>)
      requires GoodSuper(sb) && FullDisk(sb, blocks) && InodeArea(sb, blocks, before)
      requires inum in before && inum in inodes && inodes[inum].size <= MAXBYTES
      modifies this`blocks, this`logged
      ensures FullDisk(sb, blocks) && InodeArea(sb, blocks, before[inum := inodes[inum]])
      ensures
        var x := InodeBlock(sb, inum);
        && sb.inodestart <= x < sb.bmapstart && logged == old(logged) + {x}
        && x in blocks && blocks == old(blocks)[x := blocks[x]]
    {
      var x := InodeBlock(sb, inum);
      var data := EncodeInode(inum, before);
      blocks := blocks[x := data];
      logged := logged + {x};
    }

    /** The last lines of writei(): the size grows if need be, the inode is
        written back in any case. */
    method UpdateSize(inum: nat, cur: nat, ghost b0: Disk, ghost i0: map<nat, Inode>, ghost o0: map<nat, Slot>,
                      ghost off: nat, ghost src: seq<byte>, ghost tot: nat)
      requires Sound({}) && inum in inodes && inum in i0 && cur == off + tot && tot <= |src|
      requires Written(b0, i0, o0, blocks, inodes, owner, inum, off, src, tot)
      requires FullDisk(sb, b0) && OwnerInv(sb, b0, i0, o0) && NoHolesAnywhere(b0, i0) && InodeArea(sb, b0, i0)
      requires Kept(sb, b0, blocks, logged)
      modifies this`blocks, this`inodes, this`logged
      ensures Consistent() && Spliced(b0, i0, blocks, inodes, inum, off, src[..tot])
      ensures logged == old(logged) + {InodeBlock(sb, inum)} && LoggedOnly(b0, blocks, logged)
      ensures forall k :: 0 <= k < MAXFILE ==>
                BlockOf(blocks, inodes[inum], k) == BlockOf(old(blocks), old(inodes)[inum], k)
    {
      AreaSame(sb, b0, blocks, i0);
      ghost var i1, b1, l1, x := inodes, blocks, logged, InodeBlock(sb, inum);
      var size := if cur > inodes[inum].size then cur else inodes[inum].size;
      inodes := inodes[inum := inodes[inum].(size := size)];
      Iupdate(inum, i0);
      assert owner.Keys + {} == owner.Keys;
      InodeWritten(sb, b0, i0, o0, b1, i1, owner, l1, inodes, x, blocks[x], inum, off, src, tot, size);
    }

    /** writei(): splice src into the file at offset off. A short count means a
        full disk or a failed user copy; the bytes counted are exactly those
        written, every other file is as before, and no hole appears. */
    method Writei(inum: nat, off: word, src: seq<byte>, okCopies: nat) returns (r: int)
      requires Consistent() && inum in inodes && |src| < 0x1_0000_0000
      modifies this`blocks, this`inodes, this`owner, this`logged
      ensures Consistent()
      ensures r == -1 <==> off > old(inodes)[inum].size || off + |src| > MAXBYTES
      ensures r == -1 ==> blocks == old(blocks) && inodes == old(inodes) && logged == old(logged)
      ensures r != -1 ==> 0 <= r <= |src| && Spliced(old(blocks), old(inodes), blocks, inodes, inum, off, src[..r])
      ensures |src| > 0 ==> |logged - old(logged)| <= WriteCost(off, |src|)
      ensures LoggedOnly(old(blocks), blocks, logged)
      ensures r != -1 ==> WriteLogs(sb, inum, old(St()), St(), inodes[inum], off, |src|, r)
      ensures 0 <= r < |src| && Chunks(off, |src|) <= okCopies ==>
                Boundary(old(inodes)[inum].size, off, r) && HoleAt(blocks, inodes[inum], off, r)
      ensures 0 <= r < |src| && Chunks(off, |src|) <= okCopies ==> DiskFull(sb, blocks)
    {
      if off > inodes[inum].size || (off + |src|) % 0x1_0000_0000 < off {
        return -1;
      }
      if off + |src| > MAXBYTES {
        return -1;
      }
      r := WriteBytes(inum, off, src, okCopies);
    }

    /** writei() once its arguments have been checked. */
    method WriteBytes(inum: nat, off: nat, src: seq<byte>, okCopies: nat) returns (tot: nat)
      requires Consistent() && inum in inodes && off <= inodes[inum].size && off + |src| <= MAXBYTES
      modifies this`blocks, this`inodes, this`owner, this`logged
      ensures Consistent() && tot <= |src|
      ensures Spliced(old(blocks), old(inodes), blocks, inodes, inum, off, src[..tot])
      ensures |src| > 0 ==> |logged - old(logged)| <= WriteCost(off, |src|)
      ensures LoggedOnly(old(blocks), blocks, logged)
      ensures WriteLogs(sb, inum, old(St()), St(), inodes[inum], off, |src|, tot)
      ensures tot < |src| && Chunks(off, |src|) <= okCopies ==>
                Boundary(old(inodes)[inum].size, off, tot) && HoleAt(blocks, inodes[inum], off, tot)
      ensures tot < |src| && Chunks(off, |src|) <= okCopies ==> DiskFull(sb, blocks)
    {
      ghost var b0, i0, o0 := blocks, inodes, owner;
      var out, cur;
      ghost var data, bms, passes;
      tot, out, cur, data, bms, passes := WriteLoop(inum, off, src, okCopies);
      ghost var i1, l1, s1 := inodes, logged, St();
      UpdateSize(inum, cur, b0, i0, o0, off, src, tot);
      InodeLogged(sb, inum, old(St()), s1, St(), i1[inum], inodes[inum], off, |src|, tot);
      HoleSame(s1.blocks, i1[inum], blocks, inodes[inum], off, tot);
      if |src| > 0 {
        CostBound(old(logged), l1, i0[inum].addrs[NDIRECT], i1[inum].addrs[NDIRECT], data, bms, passes,
                  off, |src|, InodeBlock(sb, inum));
      }
    }
  
    /** readi(): the bytes from off on, at most n and not beyond the end of the
        file; -1 if a user copy fails. Nothing is allocated or changed. */
    method Readi(inum: nat, off: word, n: word, okCopies: nat) returns (r: int, dst: seq<byte>)
      requires Consistent() && inum in inodes
      modifies this`blocks, this`inodes, this`owner, this`logged
      ensures blocks == old(blocks) && inodes == old(inodes) && owner == old(owner) && logged == old(logged)
      ensures off > inodes[inum].size || off + n >= 0x1_0000_0000 ==> r == 0 && dst == []
      ensures off <= inodes[inum].size && off + n < 0x1_0000_0000 ==>
                var want := Min(n, inodes[inum].size - off);
                if r == -1 then okCopies < Chunks(off, want)
                else r == want && dst == FileBytes(blocks, inodes[inum])[off..off + want]
    {
      if off > inodes[inum].size || (off + n) % 0x1_0000_0000 < off {
        return 0, [];
      }
      var want: nat := n;
      if off + n > inodes[inum].size {
        want := inodes[inum].size - off;
      }
      r, dst := ReadBytes(inum, off, want, okCopies);
    }

    /** One pass of readi()'s loop: the m bytes at cur, all in one block. */
    method FetchPiece(inum: nat, cur: nat, m: nat) returns (piece: seq<byte>)
      requires Consistent() && inum in inodes
      requires cur + m <= inodes[inum].size && 0 < m <= BSIZE - cur % BSIZE
      modifies this`blocks, this`inodes, this`owner, this`logged
      ensures blocks == old(blocks) && inodes == old(inodes) && owner == old(owner) && logged == old(logged)
      ensures piece == FileBytes(blocks, inodes[inum])[cur..cur + m]
    {
      assert NoHoles(blocks, inodes[inum], inodes[inum].size);
      MappedBelow(blocks, inodes[inum], inodes[inum].size, cur);
      var addr;
      ghost var bms;
      addr, bms := Bmap(inum, cur / BSIZE, cur / BSIZE, cur / BSIZE + 1);
      assert ValidSlot(inodes, Data(inum, cur / BSIZE)) && SlotAddr(blocks, inodes, Data(inum, cur / BSIZE)) == addr;
      ReadPiece(blocks, inodes[inum], cur, m);
      piece := blocks[addr as nat][cur % BSIZE..cur % BSIZE + m];
    }

    /** The loop of readi(). */
    method ReadBytes(inum: nat, off: nat, want: nat, okCopies: nat) returns (r: int, dst: seq<byte>)
      requires Consistent() && inum in inodes && off + want <= inodes[inum].size
      modifies this`blocks, this`inodes, this`owner, this`logged
      ensures blocks == old(blocks) && inodes == old(inodes) && owner == old(owner) && logged == old(logged)
      ensures if r == -1 then okCopies < Chunks(off, want)
              else r == want && dst == FileBytes(blocks, inodes[inum])[off..off + want]
    {
      dst := [];
      assert NoHoles(blocks, inodes[inum], inodes[inum].size);
      ghost var file := FileBytes(blocks, inodes[inum]);
      var tot: nat, cur: nat, copies := 0, off, okCopies;
      ghost var passes := 0;
      PassStart(off, want);
      while tot < want
        invariant AtPass(off, want, tot, cur, passes, true) && copies + passes >= okCopies
        invariant blocks == old(blocks) && inodes == old(inodes) && owner == old(owner) && logged == old(logged)
        invariant dst == file[off..cur]
      {
        var m := Piece(cur, want - tot);
        var piece := FetchPiece(inum, cur, m);
        if copies == 0 {
          PassStep(off, want, tot, cur, passes, tot, cur, passes + 1, false);
          return -1, dst;
        }
        copies := copies - 1;
        dst := dst + piece;
        assert dst == file[off..cur + m];
        PassStep(off, want, tot, cur, passes, tot + m, cur + m, passes + 1, true);
        tot, cur, passes := tot + m, cur + m, passes + 1;
      }
      return tot, dst;
    }

    /** Free block k of the file, which is at address a if there is one; the
        blocks before it are free already. `b0` and `i0` are the disk and inodes
        before itrunc(). */
    method FreeNext(inum: nat, k: nat, a: word, ghost b0: Disk, ghost i0: map<nat, Inode>) returns (panicked: bool)
      requires GoodSuper(sb) && FullDisk(sb, blocks) && OwnerInv(sb, b0, i0, owner)
      requires inum in i0 && k < MAXFILE && a == BlockOf(b0, i0[inum], k)
      requires BitInv(sb, blocks, owner.Keys - DataBlocks(owner, inum, k))
      modifies this`blocks, this`logged
      ensures !panicked && FullDisk(sb, blocks)
      ensures BitInv(sb, blocks, owner.Keys - DataBlocks(owner, inum, k + 1))
      ensures Kept(sb, old(blocks), blocks, logged) && old(logged) <= logged
      ensures forall x :: sb.dataStart <= x < sb.size ==> blocks[x] == old(blocks)[x]
    {
      NextDataBlock(sb, b0, i0, owner, inum, k);
      ghost var used := owner.Keys - DataBlocks(owner, inum, k);
      assert used - NonZero(a) == owner.Keys - DataBlocks(owner, inum, k + 1);
      if a != 0 {
        panicked := Bfree(a, used);
      } else {
        assert used - {} == used;
        panicked := false;
      }
    }

    /** The first loop of itrunc(): the direct blocks. */
    method FreeDirect(inum: nat) returns (panicked: bool)
      requires Sound({}) && inum in inodes
      modifies this`blocks, this`inodes, this`logged
      ensures !panicked && FullDisk(sb, blocks)
      ensures BitInv(sb, blocks, owner.Keys - DataBlocks(owner, inum, NDIRECT))
      ensures forall x :: sb.dataStart <= x < sb.size ==> blocks[x] == old(blocks)[x]
      ensures inodes.Keys == old(inodes).Keys && forall n :: n in inodes && n != inum ==> inodes[n] == old(inodes)[n]
      ensures forall k :: 0 <= k < NDIRECT ==> inodes[inum].addrs[k] == 0
      ensures inodes[inum].addrs[NDIRECT] == old(inodes)[inum].addrs[NDIRECT]
      ensures Kept(sb, old(blocks), blocks, logged)
    {
      ghost var b0, i0 := blocks, inodes;
      var i := 0;
      assert owner.Keys - DataBlocks(owner, inum, 0) == owner.Keys + {};
      while i < NDIRECT
        invariant i <= NDIRECT && FullDisk(sb, blocks) && Kept(sb, b0, blocks, logged)
        invariant BitInv(sb, blocks, owner.Keys - DataBlocks(owner, inum, i))
        invariant forall x :: sb.dataStart <= x < sb.size ==> blocks[x] == b0[x]
        invariant inodes.Keys == i0.Keys && forall n :: n in inodes && n != inum ==> inodes[n] == i0[n]
        invariant forall k :: 0 <= k < i ==> inodes[inum].addrs[k] == 0
        invariant forall k :: i <= k <= NDIRECT ==> inodes[inum].addrs[k] == i0[inum].addrs[k]
      {
        var a := inodes[inum].addrs[i];
        ghost var b1, l1 := blocks, logged;
        panicked := FreeNext(inum, i, a, b0, i0);
        KeptTrans(sb, b0, b1, l1, blocks, logged);
        if a != 0 {
          inodes := inodes[inum := inodes[inum].(addrs := inodes[inum].addrs[i := 0])];
        }
        i := i + 1;
      }
      return false;
    }

    /** The second loop of itrunc(): the blocks listed in the indirect block,
        then that block. */
    method FreeIndirect(inum: nat, ghost b0: Disk, ghost i0: map<nat, Inode>) returns (panicked: bool)
      requires GoodSuper(sb) && FullDisk(sb, blocks) && FullDisk(sb, b0) && OwnerInv(sb, b0, i0, owner)
      requires inum in i0 && inum in inodes && inodes[inum].addrs[NDIRECT] == i0[inum].addrs[NDIRECT]
      requires BitInv(sb, blocks, owner.Keys - DataBlocks(owner, inum, NDIRECT)) && Kept(sb, b0, blocks, logged)
      requires forall x :: sb.dataStart <= x < sb.size ==> blocks[x] == b0[x]
      modifies this`blocks, this`logged
      ensures !panicked && FullDisk(sb, blocks)
      ensures BitInv(sb, blocks, OthersOnly(owner, inum).Keys) && Kept(sb, b0, blocks, logged)
      ensures forall x :: sb.dataStart <= x < sb.size ==> blocks[x] == b0[x]
    {
      AllFreed(sb, b0, i0, owner, inum);
      var ind := inodes[inum].addrs[NDIRECT];
      if ind == 0 {
        assert owner.Keys - DataBlocks(owner, inum, NDIRECT) - {} == owner.Keys - DataBlocks(owner, inum, NDIRECT);
        return false;
      }
      var j := 0;
      while j < NINDIRECT
        invariant j <= NINDIRECT && FullDisk(sb, blocks) && Kept(sb, b0, blocks, logged)
        invariant BitInv(sb, blocks, owner.Keys - DataBlocks(owner, inum, NDIRECT + j))
        invariant forall x :: sb.dataStart <= x < sb.size ==> blocks[x] == b0[x]
      {
        ghost var b1, l1 := blocks, logged;
        panicked := FreeNext(inum, NDIRECT + j, WordAt(blocks[ind as nat], j), b0, i0);
        KeptTrans(sb, b0, b1, l1, blocks, logged);
        j := j + 1;
      }
      ghost var b1, l1 := blocks, logged;
      panicked := Bfree(ind, owner.Keys - DataBlocks(owner, inum, MAXFILE));
      KeptTrans(sb, b0, b1, l1, blocks, logged);
    }

    /** The last lines of itrunc(). */
    method ClearInode(inum: nat, ghost b0: Disk, ghost i0: map<nat, Inode>)
      requires GoodSuper(sb) && FullDisk(sb, blocks) && FullDisk(sb, b0) && OwnerInv(sb, b0, i0, owner)
      requires NoHolesAnywhere(b0, i0) && inum in i0 && InodeArea(sb, b0, i0) && Kept(sb, b0, blocks, logged)
      requires BitInv(sb, blocks, OthersOnly(owner, inum).Keys)
      requires forall x :: sb.dataStart <= x < sb.size ==> blocks[x] == b0[x]
      requires inodes.Keys == i0.Keys && forall n :: n in inodes && n != inum ==> inodes[n] == i0[n]
      requires forall k :: 0 <= k < NDIRECT ==> inodes[inum].addrs[k] == 0
      modifies this`blocks, this`inodes, this`owner, this`logged
      ensures Consistent() && owner == OthersOnly(old(owner), inum)
      ensures Emptied(b0, i0, blocks, inodes, inum) && LoggedOnly(b0, blocks, logged)
    {
      var ip := inodes[inum].(addrs := inodes[inum].addrs[NDIRECT := 0], size := 0);
      assert inodes[inum := ip] == i0[inum := ip];
      inodes := inodes[inum := ip];
      AreaSame(sb, b0, blocks, i0);
      ghost var b1, l1, x, o2 := blocks, logged, InodeBlock(sb, inum), OthersOnly(owner, inum);
      Iupdate(inum, i0);
      InodeEmptied(sb, b0, i0, owner, b1, l1, x, blocks[x], inum, ip);
      owner := o2;
      assert o2.Keys + {} == o2.Keys;
    }

    /** itrunc(): exactly the inode's blocks are freed, "freeing free block" is
        never reached, the file is empty and every other file is as before. */
    method Itrunc(inum: nat) returns (panicked: bool)
      requires Consistent() && inum in inodes
      modifies this`blocks, this`inodes, this`owner, this`logged
      ensures !panicked && Consistent()
      ensures owner == OthersOnly(old(owner), inum)
      ensures Emptied(old(blocks), old(inodes), blocks, inodes, inum) && LoggedOnly(old(blocks), blocks, logged)
    {
      ghost var b0, i0 := blocks, inodes;
      panicked := FreeDirect(inum);
      panicked := FreeIndirect(inum, b0, i0);
      ClearInode(inum, b0, i0);
    }
  }
}
