/** The disk structures of kernel/fs.c: inodes with direct and indirect blocks,
    the bitmap that records block use, and the bytes of a file as they follow
    from both. `blocks` is the file system's view of the disk: the log area need
    not be in it. */
module FsLayout {
  import opened Blocks
  import opened Bitmap

  const NDIRECT: nat := 12
  const NINDIRECT: nat := 256
  const MAXFILE: nat := 268
  const MAXBYTES: nat := 274432   // MAXFILE * BSIZE

  /** Inodes per block, and words per inode. */
  const IPB: nat := 16

  type Disk = map<nat, Block>

  /** Blocks below dataStart are metadata: boot, super, log, inodes and bitmap. */
  datatype Super = Super(size: nat, ninodes: nat, inodestart: nat, bmapstart: nat, dataStart: nat)

  ghost predicate GoodSuper(sb: Super) {
    && sb.inodestart < sb.bmapstart && sb.ninodes < IPB * (sb.bmapstart - sb.inodestart)
    && sb.bmapstart + sb.size / BPB < sb.dataStart <= sb.size < 0x1_0000_0000
  }

  type Addrs = a: seq<word> | |a| == NDIRECT + 1 witness seq(NDIRECT + 1, _ => 0)

  datatype Inode = Inode(size: nat, addrs: Addrs)

  /** A place that can hold a data-region block number. */
  datatype Slot = Data(inum: nat, bn: nat) | Indirect(inum: nat)

  /** The inodes, the bitmap and the data blocks are all there. */
  ghost predicate FullDisk(sb: Super, blocks: Disk) {
    && (forall b :: b in blocks ==> b < sb.size)
    && (forall b :: sb.inodestart <= b < sb.size ==> b in blocks)
  }

  // ----- Bitmap ------------------------------------------------------------

  function BitmapBlock(sb: Super, b: nat): nat {
    sb.bmapstart + b / BPB
  }

  predicate InUse(sb: Super, blocks: Disk, b: nat)
    requires BitmapBlock(sb, b) in blocks
  {
    BlockBit(blocks[BitmapBlock(sb, b)], b % BPB)
  }

  /** A bit is set exactly for metadata blocks and for the blocks in `used`. */
  ghost predicate BitInv(sb: Super, blocks: Disk, used: set<nat>)
    requires GoodSuper(sb) && FullDisk(sb, blocks)
  {
    && (forall b :: b in used ==> sb.dataStart <= b < sb.size)
    && (forall b :: 0 <= b < sb.size ==> (InUse(sb, blocks, b) <==> b < sb.dataStart || b in used))
  }

  function PutUse(sb: Super, blocks: Disk, b: nat, bit: bool): Disk
    requires BitmapBlock(sb, b) in blocks
  {
    var bm := BitmapBlock(sb, b);
    blocks[bm := PutBlockBit(blocks[bm], b % BPB, bit)]
  }

  lemma PutUseBits(sb: Super, blocks: Disk, b: nat, bit: bool, x: nat)
    requires GoodSuper(sb) && FullDisk(sb, blocks) && b < sb.size && x < sb.size
    ensures FullDisk(sb, PutUse(sb, blocks, b, bit))
    ensures InUse(sb, PutUse(sb, blocks, b, bit), x) <==> if x == b then bit else InUse(sb, blocks, x)
  {
    if x / BPB == b / BPB && x % BPB == b % BPB { assert x == b; }
  }

  lemma PutUseInv(sb: Super, blocks: Disk, used: set<nat>, b: nat, bit: bool)
    requires GoodSuper(sb) && FullDisk(sb, blocks) && BitInv(sb, blocks, used)
    requires sb.dataStart <= b < sb.size
    ensures
      var blocks' := PutUse(sb, blocks, b, bit);
      && FullDisk(sb, blocks') && BitInv(sb, blocks', if bit then used + {b} else used - {b})
      && (forall x :: sb.dataStart <= x < sb.size ==> blocks'[x] == blocks[x])
  {
    forall x | 0 <= x < sb.size
      ensures InUse(sb, PutUse(sb, blocks, b, bit), x) <==> if x == b then bit else InUse(sb, blocks, x)
    {
      PutUseBits(sb, blocks, b, bit, x);
    }
  }

  /** Writing data-region blocks does not touch the bitmap. */
  lemma DataWriteBits(sb: Super, blocks: Disk, used: set<nat>, x: nat, data: Block)
    requires GoodSuper(sb) && FullDisk(sb, blocks) && BitInv(sb, blocks, used)
    requires sb.dataStart <= x < sb.size
    ensures FullDisk(sb, blocks[x := data]) && BitInv(sb, blocks[x := data], used)
  {
    var blocks' := blocks[x := data];
    forall b | 0 <= b < sb.size ensures InUse(sb, blocks', b) <==> b < sb.dataStart || b in used {
      assert BitmapBlock(sb, b) != x;
      assert InUse(sb, blocks', b) <==> InUse(sb, blocks, b);
    }
  }

  // ----- Inodes on disk ------------------------------------------------------

  function InodeBlock(sb: Super, inum: nat): nat {
    sb.inodestart + inum / IPB
  }

  /** n words of a block. */
  function Words(b: Block, from: nat, n: nat): seq<word>
    requires from + n <= WORDS
  {
    seq<word>(n, j requires 0 <= j < n => WordAt(b, from + j))
  }

  /** Inode k of a block of inodes: after two words of type and links come the
      size and the block addresses. */
  function InodeAt(b: Block, k: nat): Inode
    requires k < IPB
  {
    Inode(WordAt(b, IPB * k + 2), Words(b, IPB * k + 3, NDIRECT + 1))
  }

  /** The block with the first n addresses of inode k stored. */
  function PutAddrs(b: Block, k: nat, addrs: Addrs, n: nat): Block
    requires k < IPB && n <= NDIRECT + 1
  {
    if n == 0 then b else SetWord(PutAddrs(b, k, addrs, n - 1), IPB * k + 2 + n, addrs[n - 1])
  }

  function PutInode(b: Block, k: nat, ip: Inode): Block
    requires k < IPB && ip.size <= MAXBYTES
  {
    PutAddrs(SetWord(b, IPB * k + 2, ip.size), k, ip.addrs, |ip.addrs|)
  }

  lemma {:induction false} PutAddrsWord(b: Block, k: nat, addrs: Addrs, n: nat, i: nat)
    requires k < IPB && n <= NDIRECT + 1 && i < WORDS
    ensures WordAt(PutAddrs(b, k, addrs, n), i) ==
              if IPB * k + 3 <= i < IPB * k + 3 + n then addrs[i - IPB * k - 3] else WordAt(b, i)
  {
    if n > 0 {
      PutAddrsWord(b, k, addrs, n - 1, i);
      SetWordFrame(PutAddrs(b, k, addrs, n - 1), IPB * k + 2 + n, addrs[n - 1], i);
    }
  }

  lemma PutInodeWord(b: Block, k: nat, ip: Inode, i: nat)
    requires k < IPB && ip.size <= MAXBYTES && i < WORDS
    ensures WordAt(PutInode(b, k, ip), i) ==
              if i == IPB * k + 2 then ip.size
              else if IPB * k + 3 <= i < IPB * k + IPB then ip.addrs[i - IPB * k - 3]
              else WordAt(b, i)
  {
    PutAddrsWord(SetWord(b, IPB * k + 2, ip.size), k, ip.addrs, |ip.addrs|, i);
    SetWordFrame(b, IPB * k + 2, ip.size, i);
  }

  /** A stored inode reads back, and the other inodes of the block are as before. */
  lemma InodeRoundTrip(b: Block, k: nat, ip: Inode, j: nat)
    requires k < IPB && ip.size <= MAXBYTES && j < IPB
    ensures InodeAt(PutInode(b, k, ip), j) == if j == k then ip else InodeAt(b, j)
  {
    var b' := PutInode(b, k, ip);
    PutInodeWord(b, k, ip, IPB * j + 2);
    forall i | 0 <= i <= NDIRECT
      ensures InodeAt(b', j).addrs[i] == if j == k then ip.addrs[i] else InodeAt(b, j).addrs[i]
    {
      PutInodeWord(b, k, ip, IPB * j + 3 + i);
    }
  }

  /** Inode n on the disk is ip. */
  predicate HasInode(sb: Super, blocks: Disk, n: nat, ip: Inode) {
    InodeBlock(sb, n) in blocks && InodeAt(blocks[InodeBlock(sb, n)], n % IPB) == ip
  }

  /** The first n inodes on the disk are these. */
  ghost predicate AreaTo(sb: Super, blocks: Disk, inodes: map<nat, Inode>, n: nat) {
    n == 0 || (n - 1 in inodes && HasInode(sb, blocks, n - 1, inodes[n - 1]) && AreaTo(sb, blocks, inodes, n - 1))
  }

  lemma {:induction false} AreaAt(sb: Super, blocks: Disk, inodes: map<nat, Inode>, n: nat)
    ensures AreaTo(sb, blocks, inodes, n) <==> forall k :: 0 <= k < n ==>
              k in inodes && HasInode(sb, blocks, k, inodes[k])
  {
    if n > 0 { AreaAt(sb, blocks, inodes, n - 1); }
  }

  /** The disk holds exactly these inodes. */
  ghost predicate InodeArea(sb: Super, blocks: Disk, inodes: map<nat, Inode>) {
    (forall n: nat :: n in inodes <==> n < sb.ninodes) && AreaTo(sb, blocks, inodes, sb.ninodes)
  }

  lemma AreaAll(sb: Super, blocks: Disk, inodes: map<nat, Inode>)
    requires forall n: nat :: n in inodes <==> n < sb.ninodes
    requires forall n :: n in inodes ==> HasInode(sb, blocks, n, inodes[n])
    ensures InodeArea(sb, blocks, inodes)
  {
    AreaAt(sb, blocks, inodes, sb.ninodes);
  }

  lemma InodeBlockIn(sb: Super, n: nat)
    requires GoodSuper(sb) && n < sb.ninodes
    ensures sb.inodestart <= InodeBlock(sb, n) < sb.bmapstart
  {
  }

  /** The inode area depends on the inode blocks only. */
  lemma AreaSame(sb: Super, b0: Disk, b1: Disk, inodes: map<nat, Inode>)
    requires GoodSuper(sb) && FullDisk(sb, b0) && InodeArea(sb, b0, inodes) && b1.Keys == b0.Keys
    requires forall b :: b in b0 && b < sb.bmapstart ==> b1[b] == b0[b]
    ensures FullDisk(sb, b1) && InodeArea(sb, b1, inodes)
  {
    AreaAt(sb, b0, inodes, sb.ninodes);
    AreaAt(sb, b1, inodes, sb.ninodes);
    forall k | 0 <= k < sb.ninodes ensures HasInode(sb, b1, k, inodes[k]) {
      InodeBlockIn(sb, k);
      assert HasInode(sb, b0, k, inodes[k]);
    }
  }

  /** iupdate(): one inode of the area becomes ip. */
  lemma AreaUpdated(sb: Super, blocks: Disk, inodes: map<nat, Inode>, inum: nat, ip: Inode)
    requires GoodSuper(sb) && FullDisk(sb, blocks) && InodeArea(sb, blocks, inodes)
    requires inum in inodes && ip.size <= MAXBYTES
    ensures sb.inodestart <= InodeBlock(sb, inum) < sb.bmapstart
    ensures
      var x := InodeBlock(sb, inum);
      var blocks' := blocks[x := PutInode(blocks[x], inum % IPB, ip)];
      FullDisk(sb, blocks') && InodeArea(sb, blocks', inodes[inum := ip])
  {
    var x := InodeBlock(sb, inum);
    var blocks' := blocks[x := PutInode(blocks[x], inum % IPB, ip)];
    InodeBlockIn(sb, inum);
    AreaAt(sb, blocks, inodes, sb.ninodes);
    AreaAt(sb, blocks', inodes[inum := ip], sb.ninodes);
    var inodes' := inodes[inum := ip];
    forall n | 0 <= n < sb.ninodes ensures HasInode(sb, blocks', n, inodes'[n]) {
      assert HasInode(sb, blocks, n, inodes[n]);
      InodeUpdated(sb, blocks, inum, ip, n);
    }
  }

  lemma InodeUpdated(sb: Super, blocks: Disk, inum: nat, ip: Inode, n: nat)
    requires InodeBlock(sb, inum) in blocks && InodeBlock(sb, n) in blocks && ip.size <= MAXBYTES
    ensures
      var x := InodeBlock(sb, inum);
      InodeAt(blocks[x := PutInode(blocks[x], inum % IPB, ip)][InodeBlock(sb, n)], n % IPB) ==
        if n == inum then ip else InodeAt(blocks[InodeBlock(sb, n)], n % IPB)
  {
    InodeRoundTrip(blocks[InodeBlock(sb, inum)], inum % IPB, ip, n % IPB);
    if n / IPB == inum / IPB && n % IPB == inum % IPB { assert n == inum; }
  }

  // ----- Block map ---------------------------------------------------------

  /** Disk address of block bn of the file, 0 for a hole. */
  function BlockOf(blocks: Disk, ip: Inode, bn: nat): word
    requires bn < MAXFILE
  {
    if bn < NDIRECT then ip.addrs[bn]
    else if ip.addrs[NDIRECT] == 0 || ip.addrs[NDIRECT] !in blocks then 0
    else WordAt(blocks[ip.addrs[NDIRECT] as nat], bn - NDIRECT)
  }

  predicate ValidSlot(inodes: map<nat, Inode>, s: Slot) {
    s.inum in inodes && (s.Data? ==> s.bn < MAXFILE)
  }

  function SlotAddr(blocks: Disk, inodes: map<nat, Inode>, s: Slot): word
    requires ValidSlot(inodes, s)
  {
    match s
    case Data(inum, bn) => BlockOf(blocks, inodes[inum], bn)
    case Indirect(inum) => inodes[inum].addrs[NDIRECT]
  }

  /** `owner` names the one slot that holds each allocated data block. */
  ghost predicate OwnerInv(sb: Super, blocks: Disk, inodes: map<nat, Inode>, owner: map<nat, Slot>) {
    && 0 < sb.dataStart
    && (forall b :: b in owner ==>
          sb.dataStart <= b < sb.size && ValidSlot(inodes, owner[b]) && SlotAddr(blocks, inodes, owner[b]) == b)
    && (forall s :: ValidSlot(inodes, s) && SlotAddr(blocks, inodes, s) != 0 ==>
          SlotAddr(blocks, inodes, s) in owner && owner[SlotAddr(blocks, inodes, s) as nat] == s)
  }

  // ----- File contents -----------------------------------------------------

  /** Every block that starts below `len` is mapped. */
  ghost predicate NoHoles(blocks: Disk, ip: Inode, len: nat) {
    && len <= MAXBYTES
    && forall bn :: 0 <= bn < MAXFILE && bn * BSIZE < len ==> BlockOf(blocks, ip, bn) != 0
  }

  function ByteAt(blocks: Disk, ip: Inode, o: nat): byte
    requires o < MAXBYTES
  {
    var b := BlockOf(blocks, ip, o / BSIZE);
    if b != 0 && b in blocks then blocks[b as nat][o % BSIZE] else 0
  }

  function FileBytes(blocks: Disk, ip: Inode): seq<byte>
    requires ip.size <= MAXBYTES
  {
    seq(ip.size, o requires 0 <= o < ip.size => ByteAt(blocks, ip, o))
  }

  /** The bytes of `c` with `data` written over them from offset `off` on. */
  function Splice(c: seq<byte>, off: nat, data: seq<byte>): seq<byte>
    requires off <= |c|
  {
    c[..off] + data + if off + |data| <= |c| then c[off + |data|..] else []
  }

  lemma SpliceTwice(c: seq<byte>, off: nat, x: seq<byte>, off': nat, y: seq<byte>)
    requires off <= |c| && off' == off + |x|
    ensures off' <= |Splice(c, off, x)|
    ensures Splice(Splice(c, off, x), off', y) == Splice(c, off, x + y)
  {
    var s := Splice(c, off, x);
    assert s[..off'] == c[..off] + x;
  }

  // ----- Effects of block writes on the block map --------------------------

  /** Indirect blocks keep their contents, and so does the whole block map. */
  ghost predicate SameIndirects(blocks: Disk, blocks': Disk, owner: map<nat, Slot>) {
    && blocks'.Keys == blocks.Keys
    && forall b :: b in owner && owner[b].Indirect? && b in blocks ==> blocks'[b] == blocks[b]
  }

  lemma SameMap(sb: Super, blocks: Disk, blocks': Disk, inodes: map<nat, Inode>, owner: map<nat, Slot>)
    requires OwnerInv(sb, blocks, inodes, owner) && SameIndirects(blocks, blocks', owner)
    ensures forall s :: ValidSlot(inodes, s) ==> SlotAddr(blocks', inodes, s) == SlotAddr(blocks, inodes, s)
    ensures OwnerInv(sb, blocks', inodes, owner)
  {
    forall s | ValidSlot(inodes, s) ensures SlotAddr(blocks', inodes, s) == SlotAddr(blocks, inodes, s) {
      var ind := Indirect(s.inum);
      assert ValidSlot(inodes, ind);
      var a := SlotAddr(blocks, inodes, ind);
      if a != 0 { assert owner[a as nat] == ind; }
    }
  }

  /** One slot that was empty now holds the loose block b; all others are as before. */
  lemma FillSlot(sb: Super, blocks: Disk, inodes: map<nat, Inode>, owner: map<nat, Slot>,
                 blocks': Disk, inodes': map<nat, Inode>, s0: Slot, b: word)
    requires OwnerInv(sb, blocks, inodes, owner) && inodes'.Keys == inodes.Keys
    requires ValidSlot(inodes, s0) && SlotAddr(blocks, inodes, s0) == 0
    requires sb.dataStart <= b < sb.size && b !in owner
    requires forall s :: ValidSlot(inodes', s) <==> ValidSlot(inodes, s)
    requires forall s :: ValidSlot(inodes', s) ==>
               SlotAddr(blocks', inodes', s) == if s == s0 then b else SlotAddr(blocks, inodes, s)
    ensures OwnerInv(sb, blocks', inodes', owner[b as nat := s0])
  {
    var owner' := owner[b as nat := s0];
    forall x | x in owner'
      ensures sb.dataStart <= x < sb.size && ValidSlot(inodes', owner'[x]) && SlotAddr(blocks', inodes', owner'[x]) == x
    {
      assert ValidSlot(inodes', owner'[x]);
    }
  }

  /** A loose block becomes direct block bn of the inode. */
  lemma AddDirect(sb: Super, blocks: Disk, inodes: map<nat, Inode>, owner: map<nat, Slot>, inum: nat, bn: nat, b: word)
    requires OwnerInv(sb, blocks, inodes, owner) && inum in inodes && bn < NDIRECT
    requires inodes[inum].addrs[bn] == 0
    requires sb.dataStart <= b < sb.size && b !in owner
    ensures
      var ip' := inodes[inum].(addrs := inodes[inum].addrs[bn := b]);
      OwnerInv(sb, blocks, inodes[inum := ip'], owner[b as nat := Data(inum, bn)])
  {
    var ip' := inodes[inum].(addrs := inodes[inum].addrs[bn := b]);
    FillSlot(sb, blocks, inodes, owner, blocks, inodes[inum := ip'], Data(inum, bn), b);
  }

  /** A loose zeroed block becomes the inode's indirect block. */
  lemma AddIndirect(sb: Super, blocks: Disk, inodes: map<nat, Inode>, owner: map<nat, Slot>, inum: nat, b: word)
    requires OwnerInv(sb, blocks, inodes, owner) && inum in inodes
    requires inodes[inum].addrs[NDIRECT] == 0
    requires sb.dataStart <= b < sb.size && b !in owner
    requires b in blocks && blocks[b as nat] == ZeroBlock()
    ensures
      var ip' := inodes[inum].(addrs := inodes[inum].addrs[NDIRECT := b]);
      && OwnerInv(sb, blocks, inodes[inum := ip'], owner[b as nat := Indirect(inum)])
      && (forall bn :: 0 <= bn < MAXFILE ==> BlockOf(blocks, ip', bn) == BlockOf(blocks, inodes[inum], bn))
  {
    var ip' := inodes[inum].(addrs := inodes[inum].addrs[NDIRECT := b]);
    forall bn | 0 <= bn < MAXFILE ensures BlockOf(blocks, ip', bn) == BlockOf(blocks, inodes[inum], bn) {
      if bn >= NDIRECT { ZeroWord(bn - NDIRECT); }
    }
    FillSlot(sb, blocks, inodes, owner, blocks, inodes[inum := ip'], Indirect(inum), b);
  }

  /** A loose block is entered in the inode's indirect block. */
  lemma AddEntry(sb: Super, blocks: Disk, inodes: map<nat, Inode>, owner: map<nat, Slot>, inum: nat, j: nat, b: word)
    requires OwnerInv(sb, blocks, inodes, owner) && inum in inodes && j < NINDIRECT
    requires inodes[inum].addrs[NDIRECT] != 0 && inodes[inum].addrs[NDIRECT] in blocks
    requires BlockOf(blocks, inodes[inum], NDIRECT + j) == 0
    requires sb.dataStart <= b < sb.size && b !in owner
    ensures
      var ind: nat := inodes[inum].addrs[NDIRECT];
      var blocks' := blocks[ind := SetWord(blocks[ind], j, b)];
      && OwnerInv(sb, blocks', inodes, owner[b as nat := Data(inum, NDIRECT + j)])
      && (forall s :: ValidSlot(inodes, s) ==>
            SlotAddr(blocks', inodes, s) == if s == Data(inum, NDIRECT + j) then b else SlotAddr(blocks, inodes, s))
  {
    var ind: nat := inodes[inum].addrs[NDIRECT];
    var blocks' := blocks[ind := SetWord(blocks[ind], j, b)];
    assert owner[ind] == Indirect(inum) by { assert ValidSlot(inodes, Indirect(inum)); }
    forall s | ValidSlot(inodes, s)
      ensures SlotAddr(blocks', inodes, s) == if s == Data(inum, NDIRECT + j) then b else SlotAddr(blocks, inodes, s)
    {
      if s.Data? && s.bn >= NDIRECT {
        if s.inum == inum {
          SetWordFrame(blocks[ind], j, b, s.bn - NDIRECT);
        } else if inodes[s.inum].addrs[NDIRECT] == ind {
          assert ValidSlot(inodes, Indirect(s.inum));
        }
      }
    }
    FillSlot(sb, blocks, inodes, owner, blocks', inodes, Data(inum, NDIRECT + j), b);
  }
}
