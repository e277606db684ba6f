/** filewrite() of kernel/file.c on an inode: one transaction per chunk. */
module FileCode {
  import opened Blocks
  import opened LogDisk
  import L = FsLayout
  import opened FsEffects
  import opened FsCode

  /** Bytes written per transaction. */
  const MAX_CHUNK: nat := (MAXOPBLOCKS - 1 - 1 - 2) / 2 * BSIZE

  /** Blocks of the file that a chunk touches at most, and copies from user memory it takes. */
  const MAX_PIECES: nat := 4

  lemma ChunkPieces(off: nat, n: nat)
    requires n <= MAX_CHUNK
    ensures Chunks(off, n) <= MAX_PIECES
  {
  }

  /** Whatever its offset, and however many bitmap blocks the disk has, a chunk
      logs no more blocks than begin_op() reserved for it. */
  lemma ChunkFits(off: nat, n: nat)
    requires 0 < n <= MAX_CHUNK
    ensures WriteCost(off, n) <= MAXOPBLOCKS
  {
    assert MAX_CHUNK == 3072;
    assert Chunks(off, n) <= 4;
    if Aligned(off) { assert Chunks(off, n) <= 3; }
  }

  lemma PrefixGrows(src: seq<byte>, done: seq<byte>, data: seq<byte>, i: nat, got: nat, next: nat)
    requires i + |data| <= |src| && got <= |data| && done == src[..i] && data == src[i..i + |data|] && next == i + got
    ensures done + data[..got] == src[..next]
  {
  }

  lemma WroteReaches(b0: Disk, i0: map<nat, L.Inode>, b1: Disk, i1: map<nat, L.Inode>, inum: nat, off: nat,
                     data: seq<byte>)
    requires Wrote(b0, i0, b1, i1, inum, off, data) && off <= i0[inum].size
    ensures off + |data| <= i1[inum].size
  {
    assert |L.FileBytes(b1, i1[inum])| == i1[inum].size;
  }

  /** A write of n bytes is within the file and its size limit, and no copy from
      user memory fails. */
  ghost predicate Able(oks: nat -> nat, off: nat, size: nat, n: nat) {
    (forall k :: oks(k) >= MAX_PIECES) && off <= size && off + n <= L.MAXBYTES
  }

  class File {
    const inum: nat
    var off: word

    /** One pass of filewrite()'s loop: one transaction. */
    method WriteChunk(fs: FileSys, data: seq<byte>, okCopies: nat) returns (r: int, got: nat)
      requires fs.Consistent() && inum in fs.inodes && 0 < |data| <= MAX_CHUNK
      modifies this`off, fs`blocks, fs`inodes, fs`owner, fs`logged
      ensures fs.Consistent() && |fs.logged| <= MAXOPBLOCKS && LoggedOnly(old(fs.blocks), fs.blocks, fs.logged)
      ensures got <= |data| && off == old(off) + got && (r == |data| <==> got == |data|)
      ensures Wrote(old(fs.blocks), old(fs.inodes), fs.blocks, fs.inodes, inum, old(off), data[..got])
      ensures got < |data| && Chunks(old(off), |data|) <= okCopies
                && old(off) <= old(fs.inodes)[inum].size && old(off) + |data| <= L.MAXBYTES ==>
                DiskFull(fs.sb, fs.blocks)
    {
      fs.logged := {};  // begin_op()
      ChunkFits(off, |data|);
      r := fs.Writei(inum, off, data, okCopies);
      assert fs.logged - {} == fs.logged;
      got := 0;
      if r > 0 {
        got := r;
        off := off + r;
      } else {
        WroteNothing(fs.blocks, fs.inodes, inum, off);
        assert data[..0] == [];
      }
    }

    /** One pass of filewrite()'s loop, the k-th, at position i of src: whether the
        whole chunk was written, and how far src is written now. */
    method WritePass(fs: FileSys, src: seq<byte>, i: nat, oks: nat -> nat, k: nat,
                     ghost b0: Disk, ghost i0: map<nat, L.Inode>, ghost off0: nat)
      returns (whole: bool, written: nat)
      requires fs.Consistent() && inum in fs.inodes && i < |src| && off == off0 + i
      requires Wrote(b0, i0, fs.blocks, fs.inodes, inum, off0, src[..i])
      modifies this`off, fs`blocks, fs`inodes, fs`owner, fs`logged
      ensures fs.Consistent() && inum in fs.inodes && |fs.logged| <= MAXOPBLOCKS
      ensures i <= written <= |src| && off == off0 + written && (whole ==> i < written)
      ensures Wrote(b0, i0, fs.blocks, fs.inodes, inum, off0, src[..written])
      ensures !whole ==> written < |src|
      ensures !whole && Able(oks, off0, i0[inum].size, |src|) ==> DiskFull(fs.sb, fs.blocks)
    {
      var n1 := Min(|src| - i, MAX_CHUNK);
      var data := src[i..i + n1];
      ghost var b1, i1, off1 := fs.blocks, fs.inodes, off;
      assert off0 <= i0[inum].size ==> off <= i1[inum].size by {
        if off0 <= i0[inum].size { WroteReaches(b0, i0, b1, i1, inum, off0, src[..i]); }
      }
      ChunkPieces(off, n1);
      var r, got := WriteChunk(fs, data, oks(k));
      WroteMore(b0, i0, b1, i1, fs.blocks, fs.inodes, inum, off0, src[..i], off1, data[..got]);
      whole, written := r == n1, i + got;
      PrefixGrows(src, src[..i], data, i, got, written);
    }

    /** filewrite(): ret is |src| exactly if everything was written. The k-th
        transaction's user copies succeed oks(k) times; `costs` are the numbers
        of blocks the transactions logged. */
    method Filewrite(fs: FileSys, src: seq<byte>, oks: nat -> nat)
      returns (ret: int, ghost costs: seq<nat>, ghost written: nat)
      requires fs.Consistent() && inum in fs.inodes && |src| < 0x8000_0000
      modifies this`off, fs`blocks, fs`inodes, fs`owner, fs`logged
      ensures fs.Consistent()
      ensures forall k :: 0 <= k < |costs| ==> costs[k] <= MAXOPBLOCKS
      ensures written <= |src| && off == old(off) + written
      ensures ret == if written == |src| then |src| else -1
      ensures Wrote(old(fs.blocks), old(fs.inodes), fs.blocks, fs.inodes, inum, old(off), src[..written])
      ensures written < |src| && Able(oks, old(off), old(fs.inodes)[inum].size, |src|) ==> DiskFull(fs.sb, fs.blocks)
    {
      costs, written := [], 0;
      var i, k := 0, 0;
      ghost var b0, i0 := fs.blocks, fs.inodes;
      WroteNothing(b0, i0, inum, off);
      while i < |src|
        invariant i == written <= |src| && off == old(off) + i && fs.Consistent() && inum in fs.inodes
        invariant forall k :: 0 <= k < |costs| ==> costs[k] <= MAXOPBLOCKS
        invariant Wrote(b0, i0, fs.blocks, fs.inodes, inum, old(off), src[..i])
      {
        var whole, now := WritePass(fs, src, i, oks, k, b0, i0, old(off));
        costs, written := costs + [|fs.logged|], now;
        if !whole {
          break;
        }
        i := now;
        k := k + 1;
      }
      ret := if i == |src| then |src| else -1;
    }
  }
}
