/** How much of a reservation a chunk of filewrite() can use: all of it, and a chunk
    of one block more could use more. */
module ChunkCost {
  import opened Blocks
  import opened FsLayout
  import opened FsEffects
  import opened FsCode
  import opened FsCost
  import W = WorstDisk
  import F = FileCode
  import LD = LogDisk

  /** What is needed of the disk and the file for a write to cost as much as it can. */
  ghost predicate Costly(fs: FileSys, inum: nat, off: nat, n: nat, low: set<nat>)
    reads fs
  {
    && inum in fs.inodes && off <= fs.inodes[inum].size && n > 0 && off + n <= MAXBYTES
    && EndsIn(fs.blocks, fs.inodes[inum], FirstBlock(off)) && !Aligned(off) && NDIRECT < PastBlock(off, n)
    && Spread(fs.sb, fs.owner, low) && |low| == Chunks(off, n)
  }

  lemma PastEnd(off: nat, n: nat)
    requires n > 0 && off + n <= MAXBYTES
    ensures PastBlock(off, n) <= MAXFILE
  {
  }

  /** The bound on the blocks that a write logs is reached: by every write that starts
      inside the last block of a file without indirect block and ends behind its direct
      blocks, if the lowest free blocks lie in different bitmap blocks. */
  method WorstWrite(fs: FileSys, inum: nat, off: word, src: seq<byte>, okCopies: nat, ghost low: set<nat>)
    returns (r: int)
    requires fs.Consistent() && fs.logged == {} && Costly(fs, inum, off, |src|, low) && Chunks(off, |src|) <= okCopies
    modifies fs`blocks, fs`inodes, fs`owner, fs`logged
    ensures fs.Consistent() && r == |src| && |fs.logged| == WriteCost(off, |src|)
  {
    ghost var s0, i0 := fs.St(), fs.inodes;
    PastEnd(off, |src|);
    r := fs.Writei(inum, off, src, okCopies);
    assert fs.owner.Keys + {} == fs.owner.Keys;
    if r < |src| {
      EnoughBlocks(fs.sb, inum, s0, i0, fs.St(), fs.inodes, off, |src|, r, low);
    }
    assert fs.logged - {} == fs.logged;
    Complete(fs, i0, s0.blocks, inum, off, src, r);
    CostAttained(fs.sb, inum, s0, i0, fs.St(), fs.inodes, off, |src|, low);
  }

  lemma Complete(fs: FileSys, i0: map<nat, Inode>, b0: Disk, inum: nat, off: nat, src: seq<byte>, r: int)
    requires fs.Consistent() && r == |src| && inum in i0 && NoHolesAnywhere(b0, i0)
    requires Spliced(b0, i0, fs.blocks, fs.inodes, inum, off, src[..r])
    ensures inum < fs.sb.ninodes && NoHoles(fs.blocks, fs.inodes[inum], off + |src|)
  {
    SplicedSize(b0, i0, fs.blocks, fs.inodes, inum, off, src[..r], off + r);
  }

  lemma WorstIsCostly(fs: FileSys, five: bool)
    requires fs.sb == W.WORST && fs.blocks == W.View() && fs.inodes == W.Inodes() && fs.owner == W.Owner()
    ensures Costly(fs, 1, 9217, if five then F.MAX_CHUNK + BSIZE else F.MAX_CHUNK, W.Lowest(five))
  {
    W.FileEnds();
    W.LowestSpread(five, W.Lowest(five), fs.owner);
  }

  lemma WorstIsConsistent(fs: FileSys)
    requires fs.sb == W.WORST && fs.blocks == W.View() && fs.inodes == W.Inodes() && fs.owner == W.Owner()
    ensures fs.Consistent()
  {
    W.Bits(fs.sb, fs.blocks, fs.owner);
    W.Area(fs.sb, fs.blocks, fs.inodes);
    W.Owners();
    W.Holes();
    assert fs.owner.Keys + {} == fs.owner.Keys;
  }

  /** The disk of WorstDisk. */
  method MakeWorst() returns (fs: FileSys)
    ensures fresh(fs) && fs.Consistent() && fs.logged == {}
    ensures Costly(fs, 1, 9217, F.MAX_CHUNK, W.Lowest(false))
    ensures Costly(fs, 1, 9217, F.MAX_CHUNK + BSIZE, W.Lowest(true))
  {
    fs := new FileSys(W.WORST, W.View(), W.Inodes(), W.Owner());
    WorstIsConsistent(fs);
    WorstIsCostly(fs, false);
    WorstIsCostly(fs, true);
  }

  /** One chunk can log all the blocks that begin_op() reserved for it. */
  method ChunkIsTight(src: seq<byte>) returns (fs: FileSys, r: int)
    requires |src| == F.MAX_CHUNK
    ensures fs.Consistent() && r == |src| && |fs.logged| == LD.MAXOPBLOCKS
  {
    fs := MakeWorst();
    r := WorstWrite(fs, 1, 9217, src, F.MAX_PIECES, W.Lowest(false));
  }

  /** With chunks of one block more, a transaction could log more than was reserved. */
  method LargerOverruns(src: seq<byte>) returns (fs: FileSys, r: int)
    requires |src| == F.MAX_CHUNK + BSIZE
    ensures fs.Consistent() && r == |src| && |fs.logged| == LD.MAXOPBLOCKS + 2
  {
    fs := MakeWorst();
    r := WorstWrite(fs, 1, 9217, src, F.MAX_PIECES + 1, W.Lowest(true));
  }
}
