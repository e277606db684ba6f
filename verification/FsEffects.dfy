/** What the steps of balloc(), bmap() and writei() do to the block map, the
    bitmap and the bytes of every file. */
module FsEffects {
  import opened Blocks
  import opened Bitmap
  import opened FsLayout
  import opened Sets

  /** Existing files and mappings survive: other inodes are untouched, owned
      blocks keep their owner, and only the inode's own indirect block may have
      changed among the blocks owned before. */
  ghost predicate Grown(b0: Disk, i0: map<nat, Inode>, o0: map<nat, Slot>,
                        b1: Disk, i1: map<nat, Inode>, o1: map<nat, Slot>, inum: nat)
  {
    && i1.Keys == i0.Keys && inum in i0 && b1.Keys == b0.Keys
    && (forall n :: n in i0 && n != inum ==> i1[n] == i0[n])
    && i1[inum].size == i0[inum].size
    && (i0[inum].addrs[NDIRECT] != 0 ==> i1[inum].addrs[NDIRECT] == i0[inum].addrs[NDIRECT])
    && (forall b :: b in o0 ==> b in o1 && o1[b] == o0[b])
    && (forall b :: b in o0 && b in b0 && o0[b] != Indirect(inum) ==> b1[b] == b0[b])
    && (forall bn :: 0 <= bn < MAXFILE && BlockOf(b0, i0[inum], bn) != 0 ==>
          BlockOf(b1, i1[inum], bn) == BlockOf(b0, i0[inum], bn))
  }

  function NonZero(b: word): set<nat> {
    if b == 0 then {} else {b as nat}
  }

  ghost predicate DiskFull(sb: Super, blocks: Disk)
    requires GoodSuper(sb) && FullDisk(sb, blocks)
  {
    forall b :: 0 <= b < sb.size ==> InUse(sb, blocks, b)
  }

  lemma BitmapGroup(sb: Super, b: nat, bi: nat)
    requires b % BPB == 0 && bi < BPB
    ensures BitmapBlock(sb, b + bi) == BitmapBlock(sb, b) && (b + bi) % BPB == bi
  {
  }

  lemma GrownTrans(b0: Disk, i0: map<nat, Inode>, o0: map<nat, Slot>, b1: Disk, i1: map<nat, Inode>, o1: map<nat, Slot>,
                   b2: Disk, i2: map<nat, Inode>, o2: map<nat, Slot>, inum: nat)
    requires Grown(b0, i0, o0, b1, i1, o1, inum) && Grown(b1, i1, o1, b2, i2, o2, inum)
    ensures Grown(b0, i0, o0, b2, i2, o2, inum)
  {
  }

  /** Marking a clear block and zeroing it. */
  lemma TakeBlock(sb: Super, blocks: Disk, inodes: map<nat, Inode>, owner: map<nat, Slot>, b: nat)
    requires GoodSuper(sb) && FullDisk(sb, blocks) && OwnerInv(sb, blocks, inodes, owner)
    requires BitInv(sb, blocks, owner.Keys)
    requires b < sb.size && !InUse(sb, blocks, b)
    ensures sb.dataStart <= b && b !in owner
    ensures
      var blocks' := PutUse(sb, blocks, b, true)[b := ZeroBlock()];
      && FullDisk(sb, blocks') && BitInv(sb, blocks', owner.Keys + {b}) && OwnerInv(sb, blocks', inodes, owner)
      && blocks'.Keys == blocks.Keys
      && (forall x :: sb.dataStart <= x < sb.size && x != b ==> blocks'[x] == blocks[x])
  {
    PutUseInv(sb, blocks, owner.Keys, b, true);
    var marked := PutUse(sb, blocks, b, true);
    DataWriteBits(sb, marked, owner.Keys + {b}, b, ZeroBlock());
    SameMap(sb, blocks, marked[b := ZeroBlock()], inodes, owner);
  }

  /** Allocation alone changes no file. */
  lemma TakeGrown(sb: Super, b0: Disk, b1: Disk, i: map<nat, Inode>, o: map<nat, Slot>, r: nat, inum: nat)
    requires GoodSuper(sb) && FullDisk(sb, b0) && b1.Keys == b0.Keys && OwnerInv(sb, b0, i, o) && inum in i && r !in o
    requires forall b :: sb.dataStart <= b < sb.size && b != r ==> b1[b] == b0[b]
    ensures Grown(b0, i, o, b1, i, o, inum) && OwnerInv(sb, b1, i, o)
    ensures forall k :: 0 <= k < MAXFILE ==> BlockOf(b1, i[inum], k) == BlockOf(b0, i[inum], k)
  {
    SameMap(sb, b0, b1, i, o);
    forall k | 0 <= k < MAXFILE ensures BlockOf(b1, i[inum], k) == BlockOf(b0, i[inum], k) {
      assert ValidSlot(i, Data(inum, k));
      assert SlotAddr(b1, i, Data(inum, k)) == SlotAddr(b0, i, Data(inum, k));
    }
  }

  lemma DirectGrown(b: Disk, i: map<nat, Inode>, o: map<nat, Slot>, inum: nat, bn: nat, r: word)
    requires inum in i && bn < NDIRECT && i[inum].addrs[bn] == 0 && r !in o
    ensures
      var i' := i[inum := i[inum].(addrs := i[inum].addrs[bn := r])];
      && Grown(b, i, o, b, i', o[r as nat := Data(inum, bn)], inum)
      && (forall k :: 0 <= k < MAXFILE ==> BlockOf(b, i'[inum], k) == if k == bn then r else BlockOf(b, i[inum], k))
  {
  }

  lemma IndirectGrown(b: Disk, i: map<nat, Inode>, o: map<nat, Slot>, inum: nat, r: word)
    requires inum in i && i[inum].addrs[NDIRECT] == 0 && r !in o
    requires forall bn :: 0 <= bn < MAXFILE ==>
               BlockOf(b, i[inum].(addrs := i[inum].addrs[NDIRECT := r]), bn) == BlockOf(b, i[inum], bn)
    ensures
      var i' := i[inum := i[inum].(addrs := i[inum].addrs[NDIRECT := r])];
      Grown(b, i, o, b, i', o[r as nat := Indirect(inum)], inum)
  {
  }

  lemma EntryGrown(sb: Super, b: Disk, b': Disk, i: map<nat, Inode>, o: map<nat, Slot>, inum: nat, j: nat, r: word)
    requires OwnerInv(sb, b, i, o) && inum in i && j < NINDIRECT && r !in o
    requires i[inum].addrs[NDIRECT] in b && i[inum].addrs[NDIRECT] != 0
    requires b' == b[i[inum].addrs[NDIRECT] as nat := SetWord(b[i[inum].addrs[NDIRECT] as nat], j, r)]
    requires BlockOf(b, i[inum], NDIRECT + j) == 0
    requires forall s :: ValidSlot(i, s) ==>
               SlotAddr(b', i, s) == if s == Data(inum, NDIRECT + j) then r else SlotAddr(b, i, s)
    ensures Grown(b, i, o, b', i, o[r as nat := Data(inum, NDIRECT + j)], inum)
    ensures forall k :: 0 <= k < MAXFILE ==>
              BlockOf(b', i[inum], k) == if k == NDIRECT + j then r else BlockOf(b, i[inum], k)
  {
    assert ValidSlot(i, Indirect(inum));
    forall k | 0 <= k < MAXFILE
      ensures BlockOf(b', i[inum], k) == if k == NDIRECT + j then r else BlockOf(b, i[inum], k)
    {
      assert ValidSlot(i, Data(inum, k));
    }
  }

  lemma EntryStep(sb: Super, blocks: Disk, inodes: map<nat, Inode>, owner: map<nat, Slot>, inum: nat, j: nat,
                  addr: word)
    requires GoodSuper(sb) && FullDisk(sb, blocks) && OwnerInv(sb, blocks, inodes, owner)
    requires inum in inodes && j < NINDIRECT && sb.dataStart <= addr < sb.size && addr !in owner
    requires BitInv(sb, blocks, owner.Keys + {addr as nat})
    requires inodes[inum].addrs[NDIRECT] != 0 && BlockOf(blocks, inodes[inum], NDIRECT + j) == 0
    ensures inodes[inum].addrs[NDIRECT] in owner && inodes[inum].addrs[NDIRECT] in blocks
    ensures
      var ind: nat := inodes[inum].addrs[NDIRECT];
      var blocks' := blocks[ind := SetWord(blocks[ind], j, addr)];
      var owner' := owner[addr as nat := Data(inum, NDIRECT + j)];
      && FullDisk(sb, blocks') && OwnerInv(sb, blocks', inodes, owner')
      && BitInv(sb, blocks', owner.Keys + {addr as nat})
      && Grown(blocks, inodes, owner, blocks', inodes, owner', inum)
      && (forall k :: 0 <= k < MAXFILE ==>
            BlockOf(blocks', inodes[inum], k) == if k == NDIRECT + j then addr else BlockOf(blocks, inodes[inum], k))
      && ind != addr
  {
    assert ValidSlot(inodes, Indirect(inum));
    var ind: nat := inodes[inum].addrs[NDIRECT];
    AddEntry(sb, blocks, inodes, owner, inum, j, addr);
    var blocks' := blocks[ind := SetWord(blocks[ind], j, addr)];
    DataWriteBits(sb, blocks, owner.Keys + {addr as nat}, ind, SetWord(blocks[ind], j, addr));
    EntryGrown(sb, blocks, blocks', inodes, owner, inum, j, addr);
  }

  /** The whole effect of allocating an indirect entry, from the state before balloc(). */
  lemma EntryAllocated(sb: Super, b0: Disk, b1: Disk, inodes: map<nat, Inode>, owner: map<nat, Slot>, inum: nat,
                       j: nat, addr: word)
    requires GoodSuper(sb) && FullDisk(sb, b0) && OwnerInv(sb, b0, inodes, owner)
    requires b1.Keys == b0.Keys && BitInv(sb, b1, owner.Keys + {addr as nat})
    requires forall x :: sb.dataStart <= x < sb.size && x != addr ==> b1[x] == b0[x]
    requires inum in inodes && j < NINDIRECT && sb.dataStart <= addr < sb.size && addr !in owner
    requires inodes[inum].addrs[NDIRECT] != 0 && BlockOf(b0, inodes[inum], NDIRECT + j) == 0
    ensures inodes[inum].addrs[NDIRECT] in b1 && inodes[inum].addrs[NDIRECT] != addr
    ensures
      var ind: nat := inodes[inum].addrs[NDIRECT];
      var b2 := b1[ind := SetWord(b1[ind], j, addr)];
      var owner' := owner[addr as nat := Data(inum, NDIRECT + j)];
      && FullDisk(sb, b2) && OwnerInv(sb, b2, inodes, owner') && BitInv(sb, b2, owner'.Keys + {})
      && Grown(b0, inodes, owner, b2, inodes, owner', inum)
      && (forall k :: 0 <= k < MAXFILE ==>
            BlockOf(b2, inodes[inum], k) == if k == NDIRECT + j then addr else BlockOf(b0, inodes[inum], k))
  {
    TakeGrown(sb, b0, b1, inodes, owner, addr, inum);
    EntryStep(sb, b1, inodes, owner, inum, j, addr);
    var ind: nat := inodes[inum].addrs[NDIRECT];
    var b2 := b1[ind := SetWord(b1[ind], j, addr)];
    var owner' := owner[addr as nat := Data(inum, NDIRECT + j)];
    GrownTrans(b0, inodes, owner, b1, inodes, owner, b2, inodes, owner', inum);
    assert owner'.Keys + {} == owner.Keys + {addr as nat};
  }

  // ----- Bytes ---------------------------------------------------------------

  function Max(a: int, b: int): int {
    if a < b then b else a
  }

  function Min(a: int, b: int): int {
    if a < b then a else b
  }

  /** A mapped byte survives growth of the file. */
  lemma GrownByte(sb: Super, b0: Disk, i0: map<nat, Inode>, o0: map<nat, Slot>,
                  b1: Disk, i1: map<nat, Inode>, o1: map<nat, Slot>, inum: nat, o: nat)
    requires OwnerInv(sb, b0, i0, o0) && Grown(b0, i0, o0, b1, i1, o1, inum)
    requires o < MAXBYTES && BlockOf(b0, i0[inum], o / BSIZE) != 0
    ensures ByteAt(b1, i1[inum], o) == ByteAt(b0, i0[inum], o)
  {
    assert ValidSlot(i0, Data(inum, o / BSIZE));
  }

  /** The block with `data` stored from byte `at` on. */
  function Patch(b: Block, at: nat, data: seq<byte>): (r: Block)
    requires at + |data| <= BSIZE
    ensures forall k :: 0 <= k < BSIZE ==> r[k] == if at <= k < at + |data| then data[k - at] else b[k]
  {
    b[..at] + data + b[at + |data|..]
  }

  /** Storing into one data block of the file changes the bytes of that block
      of that file and nothing else. */
  lemma PatchBytes(sb: Super, blocks: Disk, inodes: map<nat, Inode>, owner: map<nat, Slot>,
                   inum: nat, bn: nat, data: Block)
    requires OwnerInv(sb, blocks, inodes, owner) && inum in inodes && bn < MAXFILE
    requires BlockOf(blocks, inodes[inum], bn) != 0 && BlockOf(blocks, inodes[inum], bn) in blocks
    ensures
      var blocks' := blocks[BlockOf(blocks, inodes[inum], bn) as nat := data];
      && OwnerInv(sb, blocks', inodes, owner)
      && (forall k :: 0 <= k < MAXFILE ==> BlockOf(blocks', inodes[inum], k) == BlockOf(blocks, inodes[inum], k))
      && (forall o :: 0 <= o < MAXBYTES ==>
            ByteAt(blocks', inodes[inum], o) ==
              if o / BSIZE == bn then data[o % BSIZE] else ByteAt(blocks, inodes[inum], o))
  {
    var addr := BlockOf(blocks, inodes[inum], bn);
    var blocks' := blocks[addr as nat := data];
    assert ValidSlot(inodes, Data(inum, bn)) && SlotAddr(blocks, inodes, Data(inum, bn)) == addr;
    SameMap(sb, blocks, blocks', inodes, owner);
    forall k | 0 <= k < MAXFILE
      ensures BlockOf(blocks', inodes[inum], k) == BlockOf(blocks, inodes[inum], k)
      ensures k != bn ==> BlockOf(blocks, inodes[inum], k) != addr
    {
      assert ValidSlot(inodes, Data(inum, k));
      assert SlotAddr(blocks', inodes, Data(inum, k)) == SlotAddr(blocks, inodes, Data(inum, k));
    }
  }

  /** Blocks owned by other inodes keep owner and contents. */
  ghost predicate OthersKept(b0: Disk, i0: map<nat, Inode>, o0: map<nat, Slot>,
                             b1: Disk, i1: map<nat, Inode>, o1: map<nat, Slot>, inum: nat)
  {
    && i1.Keys == i0.Keys && b1.Keys == b0.Keys
    && (forall n :: n in i0 && n != inum ==> i1[n] == i0[n])
    && (forall b :: b in o0 && o0[b].inum != inum ==> b in o1 && o1[b] == o0[b])
    && (forall b :: b in o0 && o0[b].inum != inum && b in b0 ==> b1[b] == b0[b])
  }

  /** Then every other file reads as before. */
  lemma OtherFiles(sb: Super, b0: Disk, i0: map<nat, Inode>, o0: map<nat, Slot>,
                   b1: Disk, i1: map<nat, Inode>, o1: map<nat, Slot>, inum: nat, n: nat)
    requires OwnerInv(sb, b0, i0, o0) && OthersKept(b0, i0, o0, b1, i1, o1, inum)
    requires n in i0 && n != inum
    ensures forall bn :: 0 <= bn < MAXFILE ==> BlockOf(b1, i1[n], bn) == BlockOf(b0, i0[n], bn)
    ensures i0[n].size <= MAXBYTES ==> FileBytes(b1, i1[n]) == FileBytes(b0, i0[n])
  {
    assert ValidSlot(i0, Indirect(n));
    forall bn | 0 <= bn < MAXFILE ensures BlockOf(b1, i1[n], bn) == BlockOf(b0, i0[n], bn) {
      var ind := SlotAddr(b0, i0, Indirect(n));
      if ind != 0 { assert o0[ind as nat] == Indirect(n); }
    }
    if i0[n].size <= MAXBYTES {
      forall o | 0 <= o < i0[n].size ensures ByteAt(b1, i1[n], o) == ByteAt(b0, i0[n], o) {
        assert ValidSlot(i0, Data(n, o / BSIZE));
        var b := SlotAddr(b0, i0, Data(n, o / BSIZE));
        if b != 0 { assert o0[b as nat] == Data(n, o / BSIZE); }
      }
    }
  }

  /** Progress of writei(): src[..tot] has been written at offset off. The size
      field is only updated at the end. */
  ghost predicate Written(b0: Disk, i0: map<nat, Inode>, o0: map<nat, Slot>,
                          b1: Disk, i1: map<nat, Inode>, o1: map<nat, Slot>,
                          inum: nat, off: nat, src: seq<byte>, tot: nat)
    requires inum in i0 && tot <= |src|
  {
    var size := i0[inum].size;
    && OthersKept(b0, i0, o0, b1, i1, o1, inum)
    && i1[inum].size == size
    && off <= size && NoHoles(b1, i1[inum], Max(size, off + tot))
    && (forall o :: 0 <= o < Max(size, off + tot) ==>
          ByteAt(b1, i1[inum], o) == if off <= o < off + tot then src[o - off] else ByteAt(b0, i0[inum], o))
  }

  lemma MappedBelow(blocks: Disk, ip: Inode, len: nat, o: nat)
    requires NoHoles(blocks, ip, len) && o < len
    ensures o / BSIZE < MAXFILE && BlockOf(blocks, ip, o / BSIZE) != 0
  {
    assert o / BSIZE * BSIZE <= o;
  }

  predicate Aligned(o: nat) {
    o % BSIZE == 0
  }

  /** A write of tot bytes at off stops at a block boundary at or beyond the end
      of a file of `size` bytes: there the next block has to be allocated. */
  predicate Boundary(size: nat, off: nat, tot: nat) {
    Aligned(off + tot) && size <= off + tot
  }

  /** After tot bytes at off, the next block of the file is missing. */
  predicate HoleAt(blocks: Disk, ip: Inode, off: nat, tot: nat) {
    off + tot < MAXBYTES && BlockOf(blocks, ip, (off + tot) / BSIZE) == 0
  }

  lemma HoleSame(b0: Disk, ip0: Inode, b1: Disk, ip1: Inode, off: nat, tot: nat)
    requires forall k :: 0 <= k < MAXFILE ==> BlockOf(b1, ip1, k) == BlockOf(b0, ip0, k)
    ensures HoleAt(b0, ip0, off, tot) ==> HoleAt(b1, ip1, off, tot)
  {
  }

  lemma BoundaryAt(blocks: Disk, ip: Inode, size: nat, off: nat, tot: nat, cur: nat)
    requires cur == off + tot < MAXBYTES
    ensures Boundary(size, off, tot) == (Aligned(cur) && size <= cur)
    ensures HoleAt(blocks, ip, off, tot) == (BlockOf(blocks, ip, cur / BSIZE) == 0)
  {
  }

  /** Up to the mapped length, only its very end can be unmapped, and only if it
      is a block boundary. */
  lemma HoleIsAligned(blocks: Disk, ip: Inode, len: nat, cur: nat)
    requires NoHoles(blocks, ip, len) && cur <= len && cur / BSIZE < MAXFILE
    ensures BlockOf(blocks, ip, cur / BSIZE) == 0 ==> Aligned(cur) && len <= cur
  {
    if BlockOf(blocks, ip, cur / BSIZE) == 0 {
      assert cur / BSIZE * BSIZE >= len;
    }
  }

  /** Growing the file keeps what has been written. */
  lemma WrittenGrown(sb: Super, b0: Disk, i0: map<nat, Inode>, o0: map<nat, Slot>,
                     b1: Disk, i1: map<nat, Inode>, o1: map<nat, Slot>,
                     b2: Disk, i2: map<nat, Inode>, o2: map<nat, Slot>,
                     inum: nat, off: nat, src: seq<byte>, tot: nat)
    requires inum in i0 && tot <= |src|
    requires Written(b0, i0, o0, b1, i1, o1, inum, off, src, tot)
    requires OwnerInv(sb, b1, i1, o1) && Grown(b1, i1, o1, b2, i2, o2, inum)
    ensures Written(b0, i0, o0, b2, i2, o2, inum, off, src, tot)
  {
    var len := Max(i0[inum].size, off + tot);
    forall o | 0 <= o < len ensures ByteAt(b2, i2[inum], o) == ByteAt(b1, i1[inum], o) {
      MappedBelow(b1, i1[inum], len, o);
      GrownByte(sb, b1, i1, o1, b2, i2, o2, inum, o);
    }
  }

  /** Storing the next piece into the block at the current offset. */
  lemma WrittenPiece(sb: Super, b0: Disk, i0: map<nat, Inode>, o0: map<nat, Slot>,
                     b1: Disk, i1: map<nat, Inode>, o1: map<nat, Slot>,
                     inum: nat, off: nat, src: seq<byte>, tot: nat, cur: nat, m: nat)
    requires inum in i0 && tot + m <= |src|
    requires Written(b0, i0, o0, b1, i1, o1, inum, off, src, tot)
    requires OwnerInv(sb, b1, i1, o1)
    requires cur == off + tot && cur + m <= MAXBYTES && 0 < m <= BSIZE - cur % BSIZE
    requires BlockOf(b1, i1[inum], cur / BSIZE) != 0 && BlockOf(b1, i1[inum], cur / BSIZE) in b1
    ensures
      var addr: nat := BlockOf(b1, i1[inum], cur / BSIZE);
      var b2 := b1[addr := Patch(b1[addr], cur % BSIZE, src[tot..tot + m])];
      && OwnerInv(sb, b2, i1, o1) && Written(b0, i0, o0, b2, i1, o1, inum, off, src, tot + m)
      && (forall k :: 0 <= k < MAXFILE ==> BlockOf(b2, i1[inum], k) == BlockOf(b1, i1[inum], k))
  {
    var bn := cur / BSIZE;
    var addr: nat := BlockOf(b1, i1[inum], bn);
    var data := Patch(b1[addr], cur % BSIZE, src[tot..tot + m]);
    var b2 := b1[addr := data];
    PatchBytes(sb, b1, i1, o1, inum, bn, data);
    assert ValidSlot(i1, Data(inum, bn));
    PieceBytes(b0, i0[inum], b1, i1[inum], b2, off, src, tot, cur, m);
  }

  lemma PieceBytes(b0: Disk, ip0: Inode, b1: Disk, ip: Inode, b2: Disk, off: nat, src: seq<byte>, tot: nat, cur: nat,
                   m: nat)
    requires tot + m <= |src| && off <= ip0.size <= MAXBYTES && cur == off + tot && cur + m <= MAXBYTES
    requires 0 < m <= BSIZE - cur % BSIZE
    requires NoHoles(b1, ip, Max(ip0.size, off + tot))
    requires forall o :: 0 <= o < Max(ip0.size, off + tot) ==>
               ByteAt(b1, ip, o) == if off <= o < off + tot then src[o - off] else ByteAt(b0, ip0, o)
    requires BlockOf(b1, ip, cur / BSIZE) != 0 && BlockOf(b1, ip, cur / BSIZE) in b1
    requires forall k :: 0 <= k < MAXFILE ==> BlockOf(b2, ip, k) == BlockOf(b1, ip, k)
    requires
      var data := Patch(b1[BlockOf(b1, ip, cur / BSIZE) as nat], cur % BSIZE, src[tot..tot + m]);
      forall o :: 0 <= o < MAXBYTES ==>
        ByteAt(b2, ip, o) == if o / BSIZE == cur / BSIZE then data[o % BSIZE] else ByteAt(b1, ip, o)
    ensures NoHoles(b2, ip, Max(ip0.size, off + tot + m))
    ensures forall o :: 0 <= o < Max(ip0.size, off + tot + m) ==>
              ByteAt(b2, ip, o) == if off <= o < off + tot + m then src[o - off] else ByteAt(b0, ip0, o)
  {
    var bn := cur / BSIZE;
    forall k | 0 <= k < MAXFILE && k * BSIZE < Max(ip0.size, cur + m) ensures BlockOf(b2, ip, k) != 0 {
      if k * BSIZE >= Max(ip0.size, cur) { assert k == bn; }
    }
    forall o | 0 <= o < Max(ip0.size, cur + m)
      ensures ByteAt(b2, ip, o) == if off <= o < cur + m then src[o - off] else ByteAt(b0, ip0, o)
    {
      PieceByte(b0, ip0, b1, ip, b2, off, src, tot, cur, m, o);
    }
  }

  lemma PieceByte(b0: Disk, ip0: Inode, b1: Disk, ip: Inode, b2: Disk, off: nat, src: seq<byte>, tot: nat, cur: nat,
                  m: nat, o: nat)
    requires tot + m <= |src| && off <= ip0.size <= MAXBYTES && cur == off + tot && cur + m <= MAXBYTES
    requires 0 < m <= BSIZE - cur % BSIZE
    requires o < Max(ip0.size, off + tot + m)
    requires o < Max(ip0.size, off + tot) ==>
               ByteAt(b1, ip, o) == if off <= o < off + tot then src[o - off] else ByteAt(b0, ip0, o)
    requires BlockOf(b1, ip, cur / BSIZE) != 0 && BlockOf(b1, ip, cur / BSIZE) in b1
    requires
      var data := Patch(b1[BlockOf(b1, ip, cur / BSIZE) as nat], cur % BSIZE, src[tot..tot + m]);
      ByteAt(b2, ip, o) == if o / BSIZE == cur / BSIZE then data[o % BSIZE] else ByteAt(b1, ip, o)
    ensures ByteAt(b2, ip, o) == if off <= o < off + tot + m then src[o - off] else ByteAt(b0, ip0, o)
  {
    if o / BSIZE == cur / BSIZE {
      assert o - cur == o % BSIZE - cur % BSIZE;
    } else {
      assert !(cur <= o < cur + m);
    }
  }

  /** At the end of writei() the file is the old one with src[..tot] spliced in. */
  lemma WrittenFile(b0: Disk, i0: map<nat, Inode>, o0: map<nat, Slot>,
                    b1: Disk, i1: map<nat, Inode>, o1: map<nat, Slot>,
                    inum: nat, off: nat, src: seq<byte>, tot: nat)
    requires inum in i0 && tot <= |src|
    requires Written(b0, i0, o0, b1, i1, o1, inum, off, src, tot)
    ensures FileBytes(b1, i1[inum].(size := Max(i1[inum].size, off + tot))) ==
              Splice(FileBytes(b0, i0[inum]), off, src[..tot])
  {
    var ip := i1[inum].(size := Max(i1[inum].size, off + tot));
    forall o | 0 <= o < ip.size ensures ByteAt(b1, ip, o) == ByteAt(b1, i1[inum], o) { }
  }

  /** The size field plays no part in block ownership. */
  lemma Resize(sb: Super, blocks: Disk, inodes: map<nat, Inode>, owner: map<nat, Slot>, inum: nat, size: nat)
    requires OwnerInv(sb, blocks, inodes, owner) && inum in inodes
    ensures OwnerInv(sb, blocks, inodes[inum := inodes[inum].(size := size)], owner)
  {
    var inodes' := inodes[inum := inodes[inum].(size := size)];
    forall s ensures ValidSlot(inodes', s) == ValidSlot(inodes, s)
      ensures ValidSlot(inodes', s) ==> SlotAddr(blocks, inodes', s) == SlotAddr(blocks, inodes, s) { }
  }

  ghost predicate NoHolesAnywhere(blocks: Disk, inodes: map<nat, Inode>) {
    forall n :: n in inodes ==> NoHoles(blocks, inodes[n], inodes[n].size)
  }

  /** Exactly `data` has been spliced into the file, and no other file changed. */
  ghost predicate Spliced(b0: Disk, i0: map<nat, Inode>, b1: Disk, i1: map<nat, Inode>, inum: nat, off: nat,
                          data: seq<byte>)
    requires NoHolesAnywhere(b0, i0) && NoHolesAnywhere(b1, i1) && inum in i0
  {
    && i1.Keys == i0.Keys && off <= i0[inum].size
    && FileBytes(b1, i1[inum]) == Splice(FileBytes(b0, i0[inum]), off, data)
    && (forall n :: n in i0 && n != inum ==> i1[n] == i0[n] && FileBytes(b1, i1[n]) == FileBytes(b0, i0[n]))
  }

  /** The end of writei(): the size grows to cover what was written. */
  lemma FinishWrite(sb: Super, b0: Disk, i0: map<nat, Inode>, o0: map<nat, Slot>,
                    b1: Disk, i1: map<nat, Inode>, o1: map<nat, Slot>, i2: map<nat, Inode>,
                    inum: nat, off: nat, src: seq<byte>, tot: nat)
    requires inum in i0 && tot <= |src|
    requires OwnerInv(sb, b0, i0, o0) && OwnerInv(sb, b1, i1, o1) && NoHolesAnywhere(b0, i0)
    requires Written(b0, i0, o0, b1, i1, o1, inum, off, src, tot)
    requires i2 == i1[inum := i1[inum].(size := Max(i1[inum].size, off + tot))]
    ensures OwnerInv(sb, b1, i2, o1) && NoHolesAnywhere(b1, i2)
    ensures Spliced(b0, i0, b1, i2, inum, off, src[..tot])
    ensures i0[inum := i2[inum]] == i2
  {
    Resize(sb, b1, i1, o1, inum, Max(i1[inum].size, off + tot));
    WrittenFile(b0, i0, o0, b1, i1, o1, inum, off, src, tot);
    SizedNoHoles(b1, i1[inum], i2[inum], i2[inum].size);
    forall n | n in i0 && n != inum
      ensures NoHoles(b1, i2[n], i2[n].size) && i2[n] == i0[n] && FileBytes(b1, i2[n]) == FileBytes(b0, i0[n])
    {
      assert NoHoles(b0, i0[n], i0[n].size);
      OtherFiles(sb, b0, i0, o0, b1, i1, o1, inum, n);
    }
  }

  lemma SizedNoHoles(blocks: Disk, ip: Inode, ip': Inode, len: nat)
    requires NoHoles(blocks, ip, len) && ip'.addrs == ip.addrs
    ensures NoHoles(blocks, ip', len)
  {
    forall bn | 0 <= bn < MAXFILE ensures BlockOf(blocks, ip', bn) == BlockOf(blocks, ip, bn) { }
  }

  /** A piece of the file that lies in one block. */
  lemma ReadPiece(blocks: Disk, ip: Inode, off: nat, m: nat)
    requires ip.size <= MAXBYTES && off + m <= ip.size && 0 < m <= BSIZE - off % BSIZE
    requires BlockOf(blocks, ip, off / BSIZE) != 0 && BlockOf(blocks, ip, off / BSIZE) in blocks
    ensures blocks[BlockOf(blocks, ip, off / BSIZE) as nat][off % BSIZE..off % BSIZE + m] ==
              FileBytes(blocks, ip)[off..off + m]
  {
    var b := BlockOf(blocks, ip, off / BSIZE);
    var s := blocks[b as nat][off % BSIZE..off % BSIZE + m];
    forall k | 0 <= k < m ensures s[k] == FileBytes(blocks, ip)[off + k] {
      assert (off + k) / BSIZE == off / BSIZE && (off + k) % BSIZE == off % BSIZE + k;
    }
  }

  /** The owners left once an inode is truncated. */
  function OthersOnly(owner: map<nat, Slot>, inum: nat): map<nat, Slot> {
    map b | b in owner && owner[b].inum != inum :: owner[b]
  }

  /** Truncation: the inode's slots are emptied, every other slot stays. */
  lemma Truncated(sb: Super, b0: Disk, b1: Disk, i0: map<nat, Inode>, o0: map<nat, Slot>, inum: nat, ip: Inode)
    requires OwnerInv(sb, b0, i0, o0) && inum in i0 && b1.Keys == b0.Keys
    requires forall x :: sb.dataStart <= x < sb.size && x in b0 ==> b1[x] == b0[x]
    requires forall k :: 0 <= k <= NDIRECT ==> ip.addrs[k] == 0
    ensures OwnerInv(sb, b1, i0[inum := ip], OthersOnly(o0, inum))
  {
    var i1 := i0[inum := ip];
    SameMap(sb, b0, b1, i0, o0);
    forall s
      ensures ValidSlot(i1, s) == ValidSlot(i0, s)
      ensures ValidSlot(i1, s) ==> SlotAddr(b1, i1, s) == if s.inum == inum then 0 else SlotAddr(b0, i0, s)
    {
    }
    KeepOthers(sb, b0, i0, o0, b1, i1, inum);
  }

  lemma KeepOthers(sb: Super, b0: Disk, i0: map<nat, Inode>, o0: map<nat, Slot>, b1: Disk, i1: map<nat, Inode>,
                   inum: nat)
    requires OwnerInv(sb, b0, i0, o0)
    requires forall s :: ValidSlot(i1, s) == ValidSlot(i0, s)
    requires forall s :: ValidSlot(i1, s) ==> SlotAddr(b1, i1, s) == if s.inum == inum then 0 else SlotAddr(b0, i0, s)
    ensures OwnerInv(sb, b1, i1, OthersOnly(o0, inum))
  {
  }

  /** The data blocks of the inode below block number k. */
  ghost function DataBlocks(owner: map<nat, Slot>, inum: nat, k: nat): set<nat> {
    set b | b in owner && owner[b].Data? && owner[b].inum == inum && owner[b].bn < k
  }

  lemma NextDataBlock(sb: Super, blocks: Disk, inodes: map<nat, Inode>, owner: map<nat, Slot>, inum: nat, k: nat)
    requires OwnerInv(sb, blocks, inodes, owner) && inum in inodes && k < MAXFILE
    ensures
      var a := BlockOf(blocks, inodes[inum], k);
      && (a != 0 ==> a in owner && sb.dataStart <= a < sb.size && a !in DataBlocks(owner, inum, k))
      && DataBlocks(owner, inum, k + 1) == DataBlocks(owner, inum, k) + NonZero(a)
  {
    assert ValidSlot(inodes, Data(inum, k));
    var a := SlotAddr(blocks, inodes, Data(inum, k));
    forall b | b in DataBlocks(owner, inum, k + 1) ensures b in DataBlocks(owner, inum, k) + NonZero(a) { }
  }

  /** What remains marked once all data blocks and the indirect block are freed. */
  lemma AllFreed(sb: Super, blocks: Disk, inodes: map<nat, Inode>, owner: map<nat, Slot>, inum: nat)
    requires OwnerInv(sb, blocks, inodes, owner) && inum in inodes
    ensures
      var ind := inodes[inum].addrs[NDIRECT];
      && (ind != 0 ==> ind in owner && sb.dataStart <= ind < sb.size && ind !in DataBlocks(owner, inum, MAXFILE))
      && (ind == 0 ==> DataBlocks(owner, inum, NDIRECT) == DataBlocks(owner, inum, MAXFILE))
      && owner.Keys - DataBlocks(owner, inum, MAXFILE) - NonZero(ind) == OthersOnly(owner, inum).Keys
  {
    assert ValidSlot(inodes, Indirect(inum));
    forall b | b in owner && owner[b].inum == inum
      ensures b in DataBlocks(owner, inum, MAXFILE) || b in NonZero(inodes[inum].addrs[NDIRECT])
    {
      assert ValidSlot(inodes, owner[b]);
    }
  }

  /** The file has become empty, and no other file changed. */
  ghost predicate Emptied(b0: Disk, i0: map<nat, Inode>, b1: Disk, i1: map<nat, Inode>, inum: nat)
    requires NoHolesAnywhere(b0, i0) && NoHolesAnywhere(b1, i1) && inum in i0
  {
    && i1.Keys == i0.Keys && FileBytes(b1, i1[inum]) == []
    && (forall n :: n in i0 && n != inum ==> i1[n] == i0[n] && FileBytes(b1, i1[n]) == FileBytes(b0, i0[n]))
  }

  /** The blocks of other inodes survive truncation, and so do their files. */
  lemma TruncatedFiles(sb: Super, b0: Disk, b1: Disk, i0: map<nat, Inode>, o0: map<nat, Slot>, inum: nat, ip: Inode)
    requires OwnerInv(sb, b0, i0, o0) && inum in i0 && b1.Keys == b0.Keys && NoHolesAnywhere(b0, i0)
    requires forall x :: sb.dataStart <= x < sb.size && x in b0 ==> b1[x] == b0[x]
    requires forall k :: 0 <= k <= NDIRECT ==> ip.addrs[k] == 0
    requires ip.size == 0
    ensures
      var i1 := i0[inum := ip];
      OwnerInv(sb, b1, i1, OthersOnly(o0, inum)) && NoHolesAnywhere(b1, i1) && Emptied(b0, i0, b1, i1, inum)
  {
    var i1 := i0[inum := ip];
    Truncated(sb, b0, b1, i0, o0, inum, ip);
    forall n | n in i0 && n != inum
      ensures NoHoles(b1, i1[n], i1[n].size) && FileBytes(b1, i1[n]) == FileBytes(b0, i0[n])
    {
      assert NoHoles(b0, i0[n], i0[n].size);
      OtherFiles(sb, b0, i0, o0, b1, i1, OthersOnly(o0, inum), inum, n);
    }
  }

  /** The effect of write requests at `off` of which `data` got through: a start
      beyond the end of the file gets nothing through and changes nothing. */
  ghost predicate Wrote(b0: Disk, i0: map<nat, Inode>, b1: Disk, i1: map<nat, Inode>, inum: nat, off: nat,
                        data: seq<byte>) {
    && NoHolesAnywhere(b0, i0) && NoHolesAnywhere(b1, i1) && inum in i0 && inum in i1
    && if off <= i0[inum].size then Spliced(b0, i0, b1, i1, inum, off, data)
       else b1 == b0 && i1 == i0 && data == []
  }

  lemma WroteNothing(blocks: Disk, inodes: map<nat, Inode>, inum: nat, off: nat)
    requires NoHolesAnywhere(blocks, inodes) && inum in inodes
    ensures Wrote(blocks, inodes, blocks, inodes, inum, off, [])
  {
  }

  lemma SplicedMore(b0: Disk, i0: map<nat, Inode>, b1: Disk, i1: map<nat, Inode>, b2: Disk, i2: map<nat, Inode>,
                    inum: nat, off: nat, x: seq<byte>, off': nat, y: seq<byte>)
    requires NoHolesAnywhere(b0, i0) && NoHolesAnywhere(b1, i1) && NoHolesAnywhere(b2, i2) && inum in i0 && inum in i1
    requires off' == off + |x| && Spliced(b0, i0, b1, i1, inum, off, x) && Spliced(b1, i1, b2, i2, inum, off', y)
    ensures Spliced(b0, i0, b2, i2, inum, off, x + y)
  {
    SpliceTwice(FileBytes(b0, i0[inum]), off, x, off', y);
  }

  /** After a write the file reaches at least to its end. */
  lemma SplicedSize(b0: Disk, i0: map<nat, Inode>, b1: Disk, i1: map<nat, Inode>, inum: nat, off: nat, x: seq<byte>,
                    off': nat)
    requires NoHolesAnywhere(b0, i0) && NoHolesAnywhere(b1, i1) && inum in i0 && inum in i1
    requires off' == off + |x| && Spliced(b0, i0, b1, i1, inum, off, x)
    ensures off' <= i1[inum].size
  {
    assert |FileBytes(b1, i1[inum])| == i1[inum].size;
    SpliceTwice(FileBytes(b0, i0[inum]), off, x, off', []);
  }

  /** Consecutive writes add up to one. */
  lemma WroteMore(b0: Disk, i0: map<nat, Inode>, b1: Disk, i1: map<nat, Inode>, b2: Disk, i2: map<nat, Inode>,
                  inum: nat, off: nat, x: seq<byte>, off': nat, y: seq<byte>)
    requires Wrote(b0, i0, b1, i1, inum, off, x) && off' == off + |x|
    requires Wrote(b1, i1, b2, i2, inum, off', y)
    ensures Wrote(b0, i0, b2, i2, inum, off, x + y)
  {
    if off <= i0[inum].size {
      SplicedSize(b0, i0, b1, i1, inum, off, x, off');
      SplicedMore(b0, i0, b1, i1, b2, i2, inum, off, x, off', y);
    } else {
      assert x + y == [];
    }
  }

  // ----- Transaction size ----------------------------------------------------

  /** Blocks of the file that a write of n bytes at off touches. */
  function Chunks(off: nat, n: nat): nat {
    if n == 0 then 0 else (off + n - 1) / BSIZE - off / BSIZE + 1
  }

  /** Most blocks one writei() can log: each touched block, a bitmap block for
      each allocation, the indirect block and its bitmap block, the inode block.
      A write that starts inside a block starts in an allocated one. */
  function WriteCost(off: nat, n: nat): nat {
    2 * Chunks(off, n) + 3 - if !Aligned(off) && n > 0 then 1 else 0
  }

  /** Blocks logged from l1 to l2 by mapping one block: `data` and the indirect
      block, and `bms` for the allocations. */
  ghost predicate PieceCost(l1: set<nat>, l2: set<nat>, ind1: word, ind2: word, data: set<nat>, bms: set<nat>,
                            hole: bool) {
    && l2 <= l1 + bms + data + NonZero(ind2)
    && (ind1 != 0 ==> ind2 == ind1)
    && |data| <= 1
    && |bms| <= (if ind1 == 0 && ind2 != 0 then 1 else 0) + (if hole then 1 else 0)
  }

  /** The same over a number of passes of which the first found its block
      allocated if the write is not aligned. */
  ghost predicate LoopCost(l1: set<nat>, l2: set<nat>, ind1: word, ind2: word, data: set<nat>, bms: set<nat>,
                           passes: nat, aligned: bool)
  {
    && l2 <= l1 + bms + data + NonZero(ind2)
    && (ind1 != 0 ==> ind2 == ind1)
    && |data| <= passes
    && |bms| <= passes + (if ind1 == 0 && ind2 != 0 then 1 else 0) - (if !aligned && passes > 0 then 1 else 0)
  }

  lemma CostStep(l0: set<nat>, l1: set<nat>, l2: set<nat>, ind0: word, ind1: word, ind2: word,
                 data: set<nat>, bms: set<nat>, data': set<nat>, bms': set<nat>,
                 passes: nat, next: nat, aligned: bool, hole: bool)
    requires LoopCost(l0, l1, ind0, ind1, data, bms, passes, aligned)
    requires PieceCost(l1, l2, ind1, ind2, data', bms', hole)
    requires (passes == 0 && !aligned ==> !hole) && next == passes + 1
    ensures LoopCost(l0, l2, ind0, ind2, data + data', bms + bms', next, aligned)
  {
    UnionCard(data, data');
    UnionCard(bms, bms');
  }

  lemma CostBound(l1: set<nat>, l2: set<nat>, ind1: word, ind2: word, data: set<nat>, bms: set<nat>,
                  passes: nat, off: nat, n: nat, iblock: nat)
    requires LoopCost(l1, l2, ind1, ind2, data, bms, passes, Aligned(off)) && passes <= Chunks(off, n)
    requires n > 0
    ensures |l2 + {iblock} - l1| <= WriteCost(off, n)
  {
    var extra := bms + data + NonZero(ind2) + {iblock};
    SubsetCard(l2 + {iblock} - l1, extra);
    UnionCard(bms, data);
    UnionCard(bms + data, NonZero(ind2));
    UnionCard(bms + data + NonZero(ind2), {iblock});
  }

  /** The blocks of the file that a write of n bytes at off touches, if n > 0:
      FirstBlock up to, not including, PastBlock. */
  function FirstBlock(off: nat): nat {
    off / BSIZE
  }

  function PastBlock(off: nat, n: nat): nat {
    off / BSIZE + Chunks(off, n)
  }

  // ----- What is logged at least -----------------------------------------------

  /** The view of the disk, the owners of its blocks and the blocks handed to
      log_write() so far. */
  datatype Store = Store(blocks: Disk, owner: map<nat, Slot>, logged: set<nat>)

  /** Only logged blocks changed, and no inode block did. */
  ghost predicate Kept(sb: Super, b0: Disk, b1: Disk, logged: set<nat>) {
    && b1.Keys == b0.Keys
    && (forall b :: b in b0 && (b !in logged || b < sb.bmapstart) ==> b1[b] == b0[b])
  }

  lemma KeptTrans(sb: Super, b0: Disk, b1: Disk, l1: set<nat>, b2: Disk, l2: set<nat>)
    requires Kept(sb, b0, b1, l1) && Kept(sb, b1, b2, l2) && l1 <= l2
    ensures Kept(sb, b0, b2, l2)
  {
  }

  /** Only logged blocks changed. */
  ghost predicate LoggedOnly(b0: Disk, b1: Disk, logged: set<nat>) {
    && b1.Keys == b0.Keys
    && (forall b :: b in b0 && b !in logged ==> b1[b] == b0[b])
  }

  /** Block b was taken for a slot of the inode with block number in lo..hi: it and
      its bitmap block are logged, and no free block lies below it any more. */
  ghost predicate TakenBlock(sb: Super, inum: nat, s: Store, lo: nat, hi: nat, b: nat)
    requires b in s.owner
  {
    && (s.owner[b] == Indirect(inum) || (s.owner[b].Data? && s.owner[b].inum == inum && lo <= s.owner[b].bn < hi))
    && b in s.logged && BitmapBlock(sb, b) in s.logged
    && forall x :: sb.dataStart <= x < b ==> x in s.owner
  }

  /** From s0 to s1 blocks have been taken, lowest first, and logged. */
  ghost predicate Taken(sb: Super, inum: nat, s0: Store, s1: Store, lo: nat, hi: nat) {
    && s0.logged <= s1.logged
    && (forall b :: b in s0.owner ==> b in s1.owner && s1.owner[b] == s0.owner[b])
    && forall b :: b in s1.owner && b !in s0.owner ==> TakenBlock(sb, inum, s1, lo, hi, b)
  }

  /** And the inode blocks have not been touched. */
  ghost predicate Took(sb: Super, inum: nat, s0: Store, s1: Store, lo: nat, hi: nat) {
    Kept(sb, s0.blocks, s1.blocks, s1.logged) && Taken(sb, inum, s0, s1, lo, hi)
  }

  lemma TookTrans(sb: Super, inum: nat, s0: Store, s1: Store, s2: Store, lo: nat, hi: nat)
    requires Took(sb, inum, s0, s1, lo, hi) && Took(sb, inum, s1, s2, lo, hi)
    ensures Took(sb, inum, s0, s2, lo, hi)
  {
  }

  lemma TookOne(sb: Super, inum: nat, s0: Store, s1: Store, b: nat, s: Slot, lo: nat, hi: nat)
    requires Kept(sb, s0.blocks, s1.blocks, s1.logged) && s0.logged <= s1.logged && s1.owner == s0.owner[b := s]
    requires b !in s0.owner && (s == Indirect(inum) || (s.Data? && s.inum == inum && lo <= s.bn < hi))
    requires b in s1.logged && BitmapBlock(sb, b) in s1.logged
    requires forall x :: sb.dataStart <= x < b ==> x in s0.owner
    ensures Took(sb, inum, s0, s1, lo, hi)
  {
  }

  /** balloc() of addr followed by its entry in the indirect block. */
  lemma TookEntry(sb: Super, inum: nat, s0: Store, b1: Disk, l1: set<nat>, s1: Store, ind: nat, data: Block,
                  addr: nat, s: Slot,
                  lo: nat, hi: nat)
    requires Kept(sb, s0.blocks, b1, l1) && l1 == s0.logged + {BitmapBlock(sb, addr), addr}
    requires ind in b1 && sb.bmapstart <= ind && s1 == Store(b1[ind := data], s0.owner[addr := s], l1 + {ind})
    requires addr !in s0.owner && s.Data? && s.inum == inum && lo <= s.bn < hi
    requires forall x :: sb.dataStart <= x < addr ==> x in s0.owner
    ensures Took(sb, inum, s0, s1, lo, hi)
  {
    TookOne(sb, inum, s0, s1, addr, s, lo, hi);
  }

  lemma TookSame(sb: Super, inum: nat, s0: Store, s1: Store, lo: nat, hi: nat)
    requires Kept(sb, s0.blocks, s1.blocks, s1.logged) && s0.logged <= s1.logged && s1.owner == s0.owner
    ensures Took(sb, inum, s0, s1, lo, hi)
  {
  }

  lemma TookNone(sb: Super, inum: nat, s: Store, lo: nat, hi: nat)
    ensures Took(sb, inum, s, s, lo, hi)
  {
  }

  /** Every block that holds one of the tot bytes written at off is logged. */
  ghost predicate StoresLogged(blocks: Disk, ip: Inode, logged: set<nat>, off: nat, tot: nat) {
    tot > 0 ==> forall k :: off / BSIZE <= k < MAXFILE && k * BSIZE < off + tot ==> BlockOf(blocks, ip, k) in logged
  }

  /** What a write of n bytes at off, of which tot got through, has logged at least:
      the blocks it took with their bitmap blocks, those it stored into, the inode. */
  ghost predicate WriteLogs(sb: Super, inum: nat, s0: Store, s1: Store, ip: Inode, off: nat, n: nat, tot: nat) {
    && Taken(sb, inum, s0, s1, FirstBlock(off), PastBlock(off, n))
    && StoresLogged(s1.blocks, ip, s1.logged, off, tot)
    && InodeBlock(sb, inum) in s1.logged
  }

  /** The inode update at the end of a write. */
  lemma InodeLogged(sb: Super, inum: nat, s0: Store, s1: Store, s2: Store, ip1: Inode, ip2: Inode, off: nat, n: nat,
                    tot: nat)
    requires Taken(sb, inum, s0, s1, FirstBlock(off), PastBlock(off, n))
    requires StoresLogged(s1.blocks, ip1, s1.logged, off, tot)
    requires s2.owner == s1.owner && s2.logged == s1.logged + {InodeBlock(sb, inum)}
    requires forall k :: 0 <= k < MAXFILE ==> BlockOf(s2.blocks, ip2, k) == BlockOf(s1.blocks, ip1, k)
    ensures WriteLogs(sb, inum, s0, s2, ip2, off, n, tot)
  {
  }

  lemma StoresKept(b0: Disk, ip0: Inode, l0: set<nat>, b1: Disk, ip1: Inode, l1: set<nat>, off: nat, tot: nat, len: nat)
    requires StoresLogged(b0, ip0, l0, off, tot) && l0 <= l1 && NoHoles(b0, ip0, len) && off + tot <= len
    requires forall k :: 0 <= k < MAXFILE && BlockOf(b0, ip0, k) != 0 ==> BlockOf(b1, ip1, k) == BlockOf(b0, ip0, k)
    ensures StoresLogged(b1, ip1, l1, off, tot)
  {
  }

  lemma StoresMore(b0: Disk, b1: Disk, ip: Inode, l: set<nat>, off: nat, tot: nat, cur: nat, m: nat, tot': nat,
                   addr: nat)
    requires StoresLogged(b0, ip, l, off, tot) && cur == off + tot && 0 < m <= BSIZE - cur % BSIZE && tot' == tot + m
    requires cur / BSIZE < MAXFILE && BlockOf(b0, ip, cur / BSIZE) == addr
    requires forall k :: 0 <= k < MAXFILE ==> BlockOf(b1, ip, k) == BlockOf(b0, ip, k)
    ensures StoresLogged(b1, ip, l + {addr}, off, tot')
  {
    forall k | off / BSIZE <= k < MAXFILE && k * BSIZE < off + tot' ensures BlockOf(b1, ip, k) in l + {addr} {
      if k != cur / BSIZE { assert k * BSIZE < cur; }
    }
  }

  /** Everything that storing the next piece does. */
  lemma PieceStored(sb: Super, b0: Disk, i0: map<nat, Inode>, o0: map<nat, Slot>,
                    b1: Disk, i1: map<nat, Inode>, o1: map<nat, Slot>, l1: set<nat>,
                    inum: nat, off: nat, src: seq<byte>, tot: nat, cur: nat, m: nat, tot': nat, addr: nat)
    requires inum in i0 && tot + m <= |src| && off + |src| <= MAXBYTES && tot' == tot + m
    requires GoodSuper(sb) && FullDisk(sb, b1) && BitInv(sb, b1, o1.Keys) && OwnerInv(sb, b1, i1, o1)
    requires Written(b0, i0, o0, b1, i1, o1, inum, off, src, tot)
    requires cur == off + tot && 0 < m <= BSIZE - cur % BSIZE
    requires addr != 0 && BlockOf(b1, i1[inum], cur / BSIZE) == addr && StoresLogged(b1, i1[inum], l1, off, tot)
    ensures addr in b1
    ensures
      var b2 := b1[addr := Patch(b1[addr], cur % BSIZE, src[tot..tot + m])];
      && FullDisk(sb, b2) && BitInv(sb, b2, o1.Keys) && OwnerInv(sb, b2, i1, o1)
      && Written(b0, i0, o0, b2, i1, o1, inum, off, src, tot')
      && Kept(sb, b1, b2, l1 + {addr}) && StoresLogged(b2, i1[inum], l1 + {addr}, off, tot')
  {
    assert ValidSlot(i1, Data(inum, cur / BSIZE)) && SlotAddr(b1, i1, Data(inum, cur / BSIZE)) == addr;
    var patched := Patch(b1[addr], cur % BSIZE, src[tot..tot + m]);
    WrittenPiece(sb, b0, i0, o0, b1, i1, o1, inum, off, src, tot, cur, m);
    DataWriteBits(sb, b1, o1.Keys, addr, patched);
    StoresMore(b1, b1[addr := patched], i1[inum], l1, off, tot, cur, m, tot', addr);
  }

  /** The next piece lies in one of the blocks touched. */
  lemma PieceInRange(off: nat, n: nat, tot: nat, cur: nat)
    requires tot < n && cur == off + tot
    ensures FirstBlock(off) <= cur / BSIZE < PastBlock(off, n)
  {
  }

  /** Writing a block of inodes leaves bitmap, block map and files as they are. */
  lemma InodesWritten(sb: Super, b0: Disk, x: nat, data: Block, inodes: map<nat, Inode>, owner: map<nat, Slot>,
                      used: set<nat>)
    requires GoodSuper(sb) && FullDisk(sb, b0) && OwnerInv(sb, b0, inodes, owner) && BitInv(sb, b0, used)
    requires sb.inodestart <= x < sb.bmapstart && NoHolesAnywhere(b0, inodes)
    ensures
      var b1 := b0[x := data];
      && FullDisk(sb, b1) && OwnerInv(sb, b1, inodes, owner) && BitInv(sb, b1, used) && NoHolesAnywhere(b1, inodes)
      && (forall n :: n in inodes ==> FileBytes(b1, inodes[n]) == FileBytes(b0, inodes[n]))
      && forall n, k :: n in inodes && 0 <= k < MAXFILE ==> BlockOf(b1, inodes[n], k) == BlockOf(b0, inodes[n], k)
  {
    var b1 := b0[x := data];
    SameMap(sb, b0, b1, inodes, owner);
    forall b | 0 <= b < sb.size ensures InUse(sb, b1, b) <==> b < sb.dataStart || b in used {
      assert BitmapBlock(sb, b) != x;
      assert InUse(sb, b1, b) <==> InUse(sb, b0, b);
    }
    forall n | n in inodes
      ensures NoHoles(b1, inodes[n], inodes[n].size) && FileBytes(b1, inodes[n]) == FileBytes(b0, inodes[n])
      ensures forall k :: 0 <= k < MAXFILE ==> BlockOf(b1, inodes[n], k) == BlockOf(b0, inodes[n], k)
    {
      assert NoHoles(b0, inodes[n], inodes[n].size);
      OtherFiles(sb, b0, inodes, owner, b1, inodes, owner, n + 1, n);
    }
  }

  /** Everything at the end of writei(): the size, then the inode block x. */
  lemma InodeWritten(sb: Super, b0: Disk, i0: map<nat, Inode>, o0: map<nat, Slot>,
                     b1: Disk, i1: map<nat, Inode>, o1: map<nat, Slot>, l1: set<nat>,
                     i2: map<nat, Inode>, x: nat, data: Block,
                     inum: nat, off: nat, src: seq<byte>, tot: nat, size: nat)
    requires inum in i0 && tot <= |src| && GoodSuper(sb) && FullDisk(sb, b1) && BitInv(sb, b1, o1.Keys)
    requires OwnerInv(sb, b0, i0, o0) && OwnerInv(sb, b1, i1, o1) && NoHolesAnywhere(b0, i0)
    requires Written(b0, i0, o0, b1, i1, o1, inum, off, src, tot)
    requires i2 == i1[inum := i1[inum].(size := size)] && size == Max(i1[inum].size, off + tot)
    requires Kept(sb, b0, b1, l1) && sb.inodestart <= x < sb.bmapstart
    ensures
      var b2 := b1[x := data];
      && FullDisk(sb, b2) && BitInv(sb, b2, o1.Keys) && OwnerInv(sb, b2, i2, o1) && NoHolesAnywhere(b2, i2)
      && Spliced(b0, i0, b2, i2, inum, off, src[..tot]) && LoggedOnly(b0, b2, l1 + {x})
      && i2 == i0[inum := i2[inum]]
      && forall k :: 0 <= k < MAXFILE ==> BlockOf(b2, i2[inum], k) == BlockOf(b1, i1[inum], k)
  {
    FinishWrite(sb, b0, i0, o0, b1, i1, o1, i2, inum, off, src, tot);
    InodesWritten(sb, b1, x, data, i2, o1, o1.Keys);
    forall k | 0 <= k < MAXFILE ensures BlockOf(b1[x := data], i2[inum], k) == BlockOf(b1, i1[inum], k) {
      assert BlockOf(b1, i2[inum], k) == BlockOf(b1, i1[inum], k);
    }
  }

  /** Everything at the end of itrunc(): the empty inode, then the inode block x. */
  lemma InodeEmptied(sb: Super, b0: Disk, i0: map<nat, Inode>, o0: map<nat, Slot>, b1: Disk, l1: set<nat>,
                     x: nat, data: Block, inum: nat, ip: Inode)
    requires OwnerInv(sb, b0, i0, o0) && inum in i0 && NoHolesAnywhere(b0, i0)
    requires GoodSuper(sb) && FullDisk(sb, b1) && BitInv(sb, b1, OthersOnly(o0, inum).Keys)
    requires Kept(sb, b0, b1, l1) && sb.inodestart <= x < sb.bmapstart
    requires forall x :: sb.dataStart <= x < sb.size && x in b0 ==> b1[x] == b0[x]
    requires forall k :: 0 <= k <= NDIRECT ==> ip.addrs[k] == 0
    requires ip.size == 0
    ensures
      var b2, i2, o2 := b1[x := data], i0[inum := ip], OthersOnly(o0, inum);
      && FullDisk(sb, b2) && BitInv(sb, b2, o2.Keys) && OwnerInv(sb, b2, i2, o2) && NoHolesAnywhere(b2, i2)
      && Emptied(b0, i0, b2, i2, inum) && LoggedOnly(b0, b2, l1 + {x})
  {
    TruncatedFiles(sb, b0, b1, i0, o0, inum, ip);
    InodesWritten(sb, b1, x, data, i0[inum := ip], OthersOnly(o0, inum), OthersOnly(o0, inum).Keys);
  }

  /** Bytes moved by one pass of the loops in readi() and writei(). */
  function Piece(cur: nat, left: nat): (m: nat)
    requires left > 0
    ensures 0 < m <= left && m <= BSIZE - cur % BSIZE
  {
    if left < BSIZE - cur % BSIZE then left else BSIZE - cur % BSIZE
  }

  /** After so many passes of the loop of writei() over n bytes from off, tot bytes are
      behind it and the next one goes to cur. */
  ghost predicate AtPass(off: nat, n: nat, tot: nat, cur: nat, passes: nat, going: bool) {
    && tot <= n && cur == off + tot && passes <= Chunks(off, n)
    && (going && tot < n ==> passes == cur / BSIZE - off / BSIZE && (passes == 0 ==> cur == off))
  }

  lemma PassStart(off: nat, n: nat)
    ensures AtPass(off, n, 0, off, 0, true)
  {
  }

  /** A pass moves a whole piece, or ends the loop. */
  lemma PassStep(off: nat, n: nat, tot: nat, cur: nat, passes: nat, tot': nat, cur': nat, next: nat, going: bool)
    requires AtPass(off, n, tot, cur, passes, true) && tot < n && next == passes + 1 && cur' == off + tot'
    requires tot' == if going then tot + Piece(cur, n - tot) else tot
    ensures AtPass(off, n, tot', cur', next, going) && (!going ==> tot' < n)
  {
    assert cur / BSIZE <= (off + n - 1) / BSIZE;
  }
}
