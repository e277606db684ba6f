/** Writes that log as many blocks as writei() ever can. */
module FsCost {
  import opened Blocks
  import opened Bitmap
  import opened FsLayout
  import opened FsEffects
  import opened Sets

  /** `low` are the lowest free blocks, and no two of them share a bitmap block. */
  ghost predicate Spread(sb: Super, owner: map<nat, Slot>, low: set<nat>) {
    && (forall x :: x in low ==> sb.dataStart <= x < sb.size && x !in owner)
    && (forall x, y :: x in low && sb.dataStart <= y < x && y !in owner ==> y in low)
    && (forall x, y :: x in low && y in low && x != y ==> BitmapBlock(sb, x) != BitmapBlock(sb, y))
  }

  /** The file ends in direct block k, and has no indirect block yet. */
  ghost predicate EndsIn(blocks: Disk, ip: Inode, k: nat) {
    && k < NDIRECT && BlockOf(blocks, ip, k) != 0 && ip.addrs[NDIRECT] == 0
    && forall j :: k < j < MAXFILE ==> BlockOf(blocks, ip, j) == 0
  }

  /** The addresses of blocks from up to, not including, end of the file. */
  ghost function Places(blocks: Disk, ip: Inode, from: nat, end: nat): set<nat>
    requires end <= MAXFILE
    decreases end
  {
    if end <= from then {} else Places(blocks, ip, from, end - 1) + {BlockOf(blocks, ip, end - 1) as nat}
  }

  lemma {:induction false} PlaceIn(blocks: Disk, ip: Inode, from: nat, end: nat, j: nat)
    requires from <= j < end <= MAXFILE
    ensures BlockOf(blocks, ip, j) in Places(blocks, ip, from, end)
    decreases end
  {
    if j < end - 1 { PlaceIn(blocks, ip, from, end - 1, j); }
  }

  lemma {:induction false} PlaceOf(blocks: Disk, ip: Inode, from: nat, end: nat, a: nat) returns (j: nat)
    requires end <= MAXFILE && a in Places(blocks, ip, from, end)
    ensures from <= j < end && BlockOf(blocks, ip, j) == a
    decreases end
  {
    if BlockOf(blocks, ip, end - 1) == a {
      j := end - 1;
    } else {
      j := PlaceOf(blocks, ip, from, end - 1, a);
    }
  }

  /** No two slots hold the same block. */
  lemma {:induction false} PlacesCount(sb: Super, blocks: Disk, inodes: map<nat, Inode>, owner: map<nat, Slot>,
                                       inum: nat, from: nat, end: nat)
    requires OwnerInv(sb, blocks, inodes, owner) && inum in inodes && from <= end <= MAXFILE
    requires forall j :: from <= j < end ==> BlockOf(blocks, inodes[inum], j) != 0
    ensures |Places(blocks, inodes[inum], from, end)| == end - from
    decreases end
  {
    if from < end {
      var last := end - 1;
      PlacesCount(sb, blocks, inodes, owner, inum, from, last);
      LastPlace(sb, blocks, inodes, owner, inum, from, last);
    }
  }

  lemma LastPlace(sb: Super, blocks: Disk, inodes: map<nat, Inode>, owner: map<nat, Slot>, inum: nat, from: nat,
                  last: nat)
    requires OwnerInv(sb, blocks, inodes, owner) && inum in inodes && from <= last < MAXFILE
    requires forall j :: from <= j <= last ==> BlockOf(blocks, inodes[inum], j) != 0
    ensures BlockOf(blocks, inodes[inum], last) !in Places(blocks, inodes[inum], from, last)
  {
    var ip := inodes[inum];
    if BlockOf(blocks, ip, last) in Places(blocks, ip, from, last) {
      var j := PlaceOf(blocks, ip, from, last, BlockOf(blocks, ip, last));
      SlotOwner(sb, blocks, inodes, owner, Data(inum, last));
      SlotOwner(sb, blocks, inodes, owner, Data(inum, j));
    }
  }

  lemma SlotOwner(sb: Super, blocks: Disk, inodes: map<nat, Inode>, owner: map<nat, Slot>, s: Slot)
    requires OwnerInv(sb, blocks, inodes, owner) && ValidSlot(inodes, s) && SlotAddr(blocks, inodes, s) != 0
    ensures
      var a: nat := SlotAddr(blocks, inodes, s);
      a in owner && owner[a] == s && sb.dataStart <= a < sb.size
  {
  }

  /** A block whose slot was empty before is new. */
  lemma FilledIsNew(sb: Super, s0: Store, i0: map<nat, Inode>, s1: Store, i1: map<nat, Inode>, s: Slot)
    requires OwnerInv(sb, s0.blocks, i0, s0.owner) && OwnerInv(sb, s1.blocks, i1, s1.owner)
    requires forall b :: b in s0.owner ==> b in s1.owner && s1.owner[b] == s0.owner[b]
    requires ValidSlot(i0, s) && ValidSlot(i1, s) && SlotAddr(s1.blocks, i1, s) != 0
    ensures
      var a: nat := SlotAddr(s1.blocks, i1, s);
      a in s1.owner && (a in s0.owner <==> SlotAddr(s0.blocks, i0, s) != 0)
  {
    SlotOwner(sb, s1.blocks, i1, s1.owner, s);
    if SlotAddr(s0.blocks, i0, s) != 0 {
      SlotOwner(sb, s0.blocks, i0, s0.owner, s);
      assert SlotAddr(s1.blocks, i1, s) == SlotAddr(s0.blocks, i0, s);
    }
  }

  ghost function News(s0: Store, s1: Store): set<nat> {
    s1.owner.Keys - s0.owner.Keys
  }

  /** What a write of a file that ends in block k has taken: blocks of the file after
      k, and the indirect block. */
  lemma NewsAre(sb: Super, inum: nat, s0: Store, i0: map<nat, Inode>, s1: Store, i1: map<nat, Inode>, k: nat,
                end: nat, b: nat)
    returns (j: nat)
    requires OwnerInv(sb, s0.blocks, i0, s0.owner) && OwnerInv(sb, s1.blocks, i1, s1.owner) && inum in i0 && inum in i1
    requires EndsIn(s0.blocks, i0[inum], k) && end <= MAXFILE && Taken(sb, inum, s0, s1, k, end)
    requires b in News(s0, s1)
    ensures b == i1[inum].addrs[NDIRECT] || (k < j < end && BlockOf(s1.blocks, i1[inum], j) == b != 0)
  {
    assert TakenBlock(sb, inum, s1, k, end, b);
    var s := s1.owner[b];
    assert ValidSlot(i1, s) && SlotAddr(s1.blocks, i1, s) == b;
    j := 0;
    if s.Data? {
      assert ValidSlot(i0, s);
      FilledIsNew(sb, s0, i0, s1, i1, s);
      j := s.bn;
      assert j != k;
    }
  }

  /** The lowest free blocks are taken first. */
  lemma LowTaken(sb: Super, inum: nat, s0: Store, s1: Store, lo: nat, hi: nat, low: set<nat>)
    requires Taken(sb, inum, s0, s1, lo, hi) && Spread(sb, s0.owner, low) && |low| <= |News(s0, s1)|
    requires forall b :: b in s1.owner ==> sb.dataStart <= b
    ensures low <= News(s0, s1)
  {
    if f :| f in low && f !in News(s0, s1) {
      forall b | b in News(s0, s1) ensures b in low - {f} {
        assert TakenBlock(sb, inum, s1, lo, hi, b);
        assert b < f;
      }
      SubsetCard(News(s0, s1), low - {f});
    }
  }

  ghost function Bitmaps(sb: Super, xs: set<nat>): set<nat> {
    set x | x in xs :: BitmapBlock(sb, x)
  }

  lemma {:induction false} BitmapsCount(sb: Super, xs: set<nat>)
    requires forall x, y :: x in xs && y in xs && x != y ==> BitmapBlock(sb, x) != BitmapBlock(sb, y)
    ensures |Bitmaps(sb, xs)| == |xs|
    decreases |xs|
  {
    if xs != {} {
      var x :| x in xs;
      BitmapsCount(sb, xs - {x});
      assert Bitmaps(sb, xs) == Bitmaps(sb, xs - {x}) + {BitmapBlock(sb, x)};
    }
  }

  /** The indirect block holds no data. */
  lemma IndirectApart(sb: Super, blocks: Disk, inodes: map<nat, Inode>, owner: map<nat, Slot>, inum: nat, from: nat,
                      end: nat)
    requires OwnerInv(sb, blocks, inodes, owner) && inum in inodes && end <= MAXFILE && inodes[inum].addrs[NDIRECT] != 0
    ensures inodes[inum].addrs[NDIRECT] !in Places(blocks, inodes[inum], from, end)
  {
    var ip := inodes[inum];
    if ip.addrs[NDIRECT] in Places(blocks, ip, from, end) {
      var j := PlaceOf(blocks, ip, from, end, ip.addrs[NDIRECT]);
      SlotOwner(sb, blocks, inodes, owner, Indirect(inum));
      SlotOwner(sb, blocks, inodes, owner, Data(inum, j));
    }
  }

  /** A complete write that goes on into the indirect blocks has taken one block for
      each block of the file after k, and the indirect block. */
  lemma CompleteNews(sb: Super, inum: nat, s0: Store, i0: map<nat, Inode>, s1: Store, i1: map<nat, Inode>,
                     k: nat, next: nat, end: nat)
    requires OwnerInv(sb, s0.blocks, i0, s0.owner) && OwnerInv(sb, s1.blocks, i1, s1.owner) && inum in i0 && inum in i1
    requires EndsIn(s0.blocks, i0[inum], k) && NDIRECT < end <= MAXFILE && Taken(sb, inum, s0, s1, k, end)
    requires next == k + 1
    requires forall j :: k <= j < end ==> BlockOf(s1.blocks, i1[inum], j) != 0
    ensures i1[inum].addrs[NDIRECT] != 0 && |News(s0, s1)| == end - k
  {
    var ip := i1[inum];
    assert BlockOf(s1.blocks, ip, NDIRECT) != 0;
    var ind: nat, places := ip.addrs[NDIRECT], Places(s1.blocks, ip, next, end);
    forall b | b in News(s0, s1) ensures b in places + {ind} {
      var j := NewsAre(sb, inum, s0, i0, s1, i1, k, end, b);
      if b != ind { PlaceIn(s1.blocks, ip, next, end, j); }
    }
    forall b | b in places ensures b in News(s0, s1) {
      var j := PlaceOf(s1.blocks, ip, next, end, b);
      FilledIsNew(sb, s0, i0, s1, i1, Data(inum, j));
    }
    FilledIsNew(sb, s0, i0, s1, i1, Indirect(inum));
    assert News(s0, s1) == places + {ind};
    PlacesCount(sb, s1.blocks, i1, s1.owner, inum, next, end);
    IndirectApart(sb, s1.blocks, i1, s1.owner, inum, next, end);
  }

  lemma Apart(sb: Super, blocks: Disk, inodes: map<nat, Inode>, owner: map<nat, Slot>, inum: nat, k: nat, end: nat,
              low: set<nat>)
    requires GoodSuper(sb) && OwnerInv(sb, blocks, inodes, owner) && inum in inodes && end <= MAXFILE
    requires forall j :: k <= j < end ==> BlockOf(blocks, inodes[inum], j) != 0
    requires forall x :: x in low ==> x < sb.size
    ensures forall a :: a in Places(blocks, inodes[inum], k, end) ==> sb.dataStart <= a
    ensures forall a :: a in Bitmaps(sb, low) ==> sb.bmapstart <= a < sb.dataStart
  {
    forall a | a in Places(blocks, inodes[inum], k, end) ensures sb.dataStart <= a {
      var j := PlaceOf(blocks, inodes[inum], k, end, a);
      SlotOwner(sb, blocks, inodes, owner, Data(inum, j));
    }
  }

  /** Four kinds of blocks, none counted twice. */
  lemma FourKinds(data: set<nat>, bms: set<nat>, ind: nat, iblock: nat, logged: set<nat>, bmapstart: nat,
                  dataStart: nat)
    requires forall a :: a in data ==> dataStart <= a
    requires forall a :: a in bms ==> bmapstart <= a < dataStart
    requires ind !in data && dataStart <= ind && iblock < bmapstart < dataStart
    requires data <= logged && bms <= logged && ind in logged && iblock in logged
    ensures |logged| >= |data| + |bms| + 2
  {
    DisjointCard(data, bms);
    var three := data + bms + {ind};
    assert |three| == |data| + |bms| + 1;
    SubsetCard(three + {iblock}, logged);
  }

  lemma NewsLogged(sb: Super, inum: nat, s0: Store, s1: Store, k: nat, end: nat, low: set<nat>)
    requires Taken(sb, inum, s0, s1, k, end) && Spread(sb, s0.owner, low) && |low| == |News(s0, s1)|
    requires forall b :: b in s1.owner ==> sb.dataStart <= b
    ensures News(s0, s1) <= s1.logged && Bitmaps(sb, low) <= s1.logged && |Bitmaps(sb, low)| == |low|
  {
    LowTaken(sb, inum, s0, s1, k, end, low);
    BitmapsCount(sb, low);
    forall x | x in News(s0, s1) ensures x in s1.logged && BitmapBlock(sb, x) in s1.logged {
      assert TakenBlock(sb, inum, s1, k, end, x);
    }
  }

  /** The blocks from k to end, the bitmap blocks of the lowest free ones, the indirect
      block and the inode block are all logged. */
  lemma FourKindsLogged(sb: Super, inum: nat, s0: Store, i0: map<nat, Inode>, s1: Store, i1: map<nat, Inode>,
                        k: nat, next: nat, end: nat, low: set<nat>)
    requires GoodSuper(sb) && inum < sb.ninodes && inum in i0 && inum in i1
    requires OwnerInv(sb, s0.blocks, i0, s0.owner) && OwnerInv(sb, s1.blocks, i1, s1.owner)
    requires EndsIn(s0.blocks, i0[inum], k) && NDIRECT < end <= MAXFILE && Taken(sb, inum, s0, s1, k, end)
    requires next == k + 1
    requires forall j :: k <= j < end ==>
               BlockOf(s1.blocks, i1[inum], j) != 0 && BlockOf(s1.blocks, i1[inum], j) as nat in s1.logged
    requires InodeBlock(sb, inum) in s1.logged && Spread(sb, s0.owner, low) && |low| == end - k
    ensures |s1.logged| >= 2 * |low| + 2
  {
    var ind: nat, places := i1[inum].addrs[NDIRECT], Places(s1.blocks, i1[inum], k, end);
    CompleteNews(sb, inum, s0, i0, s1, i1, k, next, end);
    PlacesCount(sb, s1.blocks, i1, s1.owner, inum, k, end);
    IndirectApart(sb, s1.blocks, i1, s1.owner, inum, k, end);
    Apart(sb, s1.blocks, i1, s1.owner, inum, k, end, low);
    InodeBlockIn(sb, inum);
    FilledIsNew(sb, s0, i0, s1, i1, Indirect(inum));
    NewsLogged(sb, inum, s0, s1, k, end, low);
    assert ind in News(s0, s1);
    forall a | a in places ensures a in s1.logged {
      var j := PlaceOf(s1.blocks, i1[inum], k, end, a);
    }
    FourKinds(places, Bitmaps(sb, low), ind, InodeBlock(sb, inum), s1.logged, sb.bmapstart, sb.dataStart);
  }

  /** A complete write that starts inside the last block of a file without indirect
      block and goes on into the indirect blocks, when the lowest free blocks are
      spread over different bitmap blocks, logs as much as any write of its kind. */
  lemma CostAttained(sb: Super, inum: nat, s0: Store, i0: map<nat, Inode>, s1: Store, i1: map<nat, Inode>,
                     off: nat, n: nat, low: set<nat>)
    requires GoodSuper(sb) && inum < sb.ninodes && inum in i0 && inum in i1
    requires OwnerInv(sb, s0.blocks, i0, s0.owner) && OwnerInv(sb, s1.blocks, i1, s1.owner)
    requires EndsIn(s0.blocks, i0[inum], FirstBlock(off)) && !Aligned(off) && n > 0
    requires NDIRECT < PastBlock(off, n) <= MAXFILE
    requires WriteLogs(sb, inum, s0, s1, i1[inum], off, n, n) && NoHoles(s1.blocks, i1[inum], off + n)
    requires Spread(sb, s0.owner, low) && |low| == Chunks(off, n)
    ensures |s1.logged| >= WriteCost(off, n)
  {
    var k, end := FirstBlock(off), PastBlock(off, n);
    assert forall j :: k <= j < end ==> j * BSIZE < off + n;
    FourKindsLogged(sb, inum, s0, i0, s1, i1, k, k + 1, end, low);
  }

  /** With that many free blocks, such a write is complete. */
  lemma EnoughBlocks(sb: Super, inum: nat, s0: Store, i0: map<nat, Inode>, s1: Store, i1: map<nat, Inode>,
                     off: nat, n: nat, tot: nat, low: set<nat>)
    requires GoodSuper(sb) && FullDisk(sb, s1.blocks) && BitInv(sb, s1.blocks, s1.owner.Keys) && inum in i0
    requires inum in i1
    requires OwnerInv(sb, s0.blocks, i0, s0.owner) && OwnerInv(sb, s1.blocks, i1, s1.owner)
    requires EndsIn(s0.blocks, i0[inum], FirstBlock(off)) && tot < n
    requires NDIRECT < PastBlock(off, n) <= MAXFILE
    requires WriteLogs(sb, inum, s0, s1, i1[inum], off, n, tot)
    requires Spread(sb, s0.owner, low) && |low| == Chunks(off, n)
    requires HoleAt(s1.blocks, i1[inum], off, tot)
    ensures !DiskFull(sb, s1.blocks)
  {
    if DiskFull(sb, s1.blocks) {
      var k, end, ip, hole := FirstBlock(off), PastBlock(off, n), i1[inum], (off + tot) / BSIZE;
      NewsFew(sb, inum, s0, i0, s1, i1, k, end, hole);
      forall f | f in low ensures f in News(s0, s1) {
        assert InUse(sb, s1.blocks, f);
      }
      SubsetCard(low, News(s0, s1));
    }
  }

  /** A write with a block still missing has taken fewer. */
  lemma NewsFew(sb: Super, inum: nat, s0: Store, i0: map<nat, Inode>, s1: Store, i1: map<nat, Inode>, k: nat,
                end: nat, hole: nat)
    requires OwnerInv(sb, s0.blocks, i0, s0.owner) && OwnerInv(sb, s1.blocks, i1, s1.owner) && inum in i0 && inum in i1
    requires EndsIn(s0.blocks, i0[inum], k) && end <= MAXFILE && Taken(sb, inum, s0, s1, k, end)
    requires k <= hole < end && BlockOf(s1.blocks, i1[inum], hole) == 0
    ensures |News(s0, s1)| < end - k
  {
    var ip, next, after := i1[inum], k + 1, hole + 1;
    SlotOwner(sb, s0.blocks, i0, s0.owner, Data(inum, k));
    assert k < hole;
    var ind: nat, p, q := ip.addrs[NDIRECT], Places(s1.blocks, ip, next, hole), Places(s1.blocks, ip, after, end);
    forall b | b in News(s0, s1) ensures b in p + q + {ind} {
      var j := NewsAre(sb, inum, s0, i0, s1, i1, k, end, b);
      if b != ind {
        if j < hole { PlaceIn(s1.blocks, ip, next, hole, j); } else { PlaceIn(s1.blocks, ip, after, end, j); }
      }
    }
    SubsetCard(News(s0, s1), p + q + {ind});
    PlacesBound(s1.blocks, ip, next, hole);
    PlacesBound(s1.blocks, ip, after, end);
    UnionCard(p, q);
    UnionCard(p + q, {ind});
  }

  lemma {:induction false} PlacesBound(blocks: Disk, ip: Inode, from: nat, end: nat)
    requires from <= end <= MAXFILE
    ensures |Places(blocks, ip, from, end)| <= end - from
    decreases end
  {
    if from < end { PlacesBound(blocks, ip, from, end - 1); }
  }
}
