/** A consistent disk on which a chunk of filewrite() costs all that begin_op()
    reserves: the lowest free blocks lie in different bitmap blocks, and a file ends
    just before its indirect blocks. Its 3415 other files take all but five of the
    blocks behind it. */
module WorstDisk {
  import opened Blocks
  import opened Bitmap
  import opened FsLayout
  import opened FsEffects
  import opened FsCost

  const FILLERS: nat := 3415

  /** First block of the other files. */
  const BASE: nat := 268

  const WORST: Super := Super(41248, 3417, 32, 252, 258)

  /** Block j of filler t is left free. */
  predicate Gap(t: nat, j: nat) {
    j == 11 && t % 683 == 0
  }

  predicate IsFree(b: nat) {
    BASE <= b && Gap((b - BASE) / 12, (b - BASE) % 12)
  }

  /** The g-th free block; it lies in the g-th group of the bitmap. */
  function FreeBlock(g: nat): nat {
    279 + 8196 * g
  }

  lemma FreeIs(b: nat)
    requires b < WORST.size
    ensures IsFree(b) <==> b / BPB < 5 && b == FreeBlock(b / BPB)
    ensures b / BPB <= 5
  {
    if IsFree(b) {
      var u := (b - BASE) / 12 / 683;
      assert b == FreeBlock(u);
    }
  }

  function FillerAddrs(t: nat): Addrs
    requires t < FILLERS
  {
    var a: seq<word> := seq<word>(NDIRECT + 1, j requires 0 <= j < NDIRECT + 1 =>
      if j == NDIRECT || Gap(t, j) then 0 else BASE + 12 * t + j);
    a
  }

  /** Inode 1 is the file to be written, of nine blocks and a byte; inode 0 is not in use. */
  function InodeOf(n: nat): (ip: Inode)
    requires n < WORST.ninodes
    ensures ip.size <= MAXBYTES
  {
    if n == 0 then Inode(0, seq(NDIRECT + 1, _ => 0))
    else if n == 1 then Inode(9217, [258, 259, 260, 261, 262, 263, 264, 265, 266, 267, 0, 0, 0])
    else Inode(if Gap(n - 2, 11) then 11264 else 12288, FillerAddrs(n - 2))
  }

  function SlotOf(b: nat): Slot
    requires WORST.dataStart <= b < WORST.size
  {
    if b < BASE then Data(1, b - WORST.dataStart) else Data(2 + (b - BASE) / 12, (b - BASE) % 12)
  }

  function Inodes(): map<nat, Inode> {
    map n: nat | n < WORST.ninodes :: InodeOf(n)
  }

  function Owner(): map<nat, Slot> {
    map b: nat | WORST.dataStart <= b < WORST.size && !IsFree(b) :: SlotOf(b)
  }

  // ----- The bytes on the disk -------------------------------------------------

  function Ones(): Block {
    seq(BSIZE, _ => 255)
  }

  lemma OnesBit(k: nat)
    requires k < BPB
    ensures BlockBit(Ones(), k)
  {
    AllBits(k % 8);
  }

  lemma AllBits(k: nat)
    requires k < 8
    ensures Bit(255, k)
  {
    assert Bit(255, 0) && Bit(255, 1) && Bit(255, 2) && Bit(255, 3);
    assert Bit(15, 0) && Bit(15, 1) && Bit(15, 2) && Bit(15, 3);
    assert Bit(255, 4) == Bit(15, 0) && Bit(255, 5) == Bit(15, 1);
    assert Bit(255, 6) == Bit(15, 2) && Bit(255, 7) == Bit(15, 3);
  }

  /** Group g of the bitmap: one clear bit in each of the first five. */
  function BitsOf(g: nat): Block {
    if g < 5 then PutBlockBit(Ones(), FreeBlock(g) % BPB, false) else Ones()
  }

  lemma BitsAre(b: nat)
    requires b < WORST.size
    ensures BlockBit(BitsOf(b / BPB), b % BPB) <==> !IsFree(b)
  {
    FreeIs(b);
    OnesBit(b % BPB);
    var g := b / BPB;
    if g < 5 {
      assert FreeBlock(g) % BPB == 279 + 4 * g;
      assert b == FreeBlock(g) <==> b % BPB == 279 + 4 * g;
    }
  }

  /** A block with the first n of these inodes. */
  function Stored(ips: seq<Inode>, n: nat): Block
    requires n <= |ips| <= IPB && forall i :: 0 <= i < |ips| ==> ips[i].size <= MAXBYTES
  {
    if n == 0 then ZeroBlock() else PutInode(Stored(ips, n - 1), n - 1, ips[n - 1])
  }

  lemma {:induction false} StoredAt(ips: seq<Inode>, n: nat, k: nat)
    requires k < n <= |ips| <= IPB && forall i :: 0 <= i < |ips| ==> ips[i].size <= MAXBYTES
    ensures InodeAt(Stored(ips, n), k) == ips[k]
  {
    InodeRoundTrip(Stored(ips, n - 1), n - 1, ips[n - 1], k);
    if k < n - 1 { StoredAt(ips, n - 1, k); }
  }

  /** The inodes of block x of the inode area; the last block has fewer. */
  function InodesOf(x: nat): (ips: seq<Inode>)
    ensures |ips| <= IPB && forall i :: 0 <= i < |ips| ==> ips[i].size <= MAXBYTES
  {
    var n :=
      if IPB * x >= WORST.ninodes then 0 else if WORST.ninodes < IPB * x + IPB then WORST.ninodes - IPB * x else IPB;
    var ips := seq(n, k requires 0 <= k < n => InodeOf(IPB * x + k));
    assert forall i :: 0 <= i < n ==> ips[i] == InodeOf(IPB * x + i);
    ips
  }

  function BlockAt(b: nat): Block
    requires WORST.inodestart <= b
  {
    if b < WORST.bmapstart then Stored(InodesOf(b - WORST.inodestart), |InodesOf(b - WORST.inodestart)|)
    else if b < WORST.dataStart then BitsOf(b - WORST.bmapstart)
    else ZeroBlock()
  }

  function View(): Disk {
    map b: nat | WORST.inodestart <= b < WORST.size :: BlockAt(b)
  }

  lemma HasInodes(n: nat)
    requires n < WORST.ninodes
    ensures HasInode(WORST, View(), n, InodeOf(n))
  {
    var x := n / IPB;
    var ips := InodesOf(x);
    assert InodeBlock(WORST, n) == WORST.inodestart + x;
    assert ips[n % IPB] == InodeOf(n);
    StoredAt(ips, |ips|, n % IPB);
  }

  lemma WholeDisk()
    ensures GoodSuper(WORST) && FullDisk(WORST, View())
  {
  }

  lemma Area(sb: Super, blocks: Disk, inodes: map<nat, Inode>)
    requires sb == WORST && blocks == View() && inodes == Inodes()
    ensures InodeArea(sb, blocks, inodes)
  {
    forall n | n in inodes ensures HasInode(sb, blocks, n, inodes[n]) {
      HasInodes(n);
    }
    AreaAll(sb, blocks, inodes);
  }

  lemma UseIs(b: nat)
    requires b < WORST.size
    ensures BitmapBlock(WORST, b) in View() && (InUse(WORST, View(), b) <==> !IsFree(b))
  {
    var g := b / BPB;
    assert View()[BitmapBlock(WORST, b)] == BitsOf(g);
    BitsAre(b);
  }

  lemma Bits(sb: Super, blocks: Disk, owner: map<nat, Slot>)
    requires sb == WORST && blocks == View() && owner == Owner()
    ensures GoodSuper(sb) && FullDisk(sb, blocks) && BitInv(sb, blocks, owner.Keys)
  {
    WholeDisk();
    forall b | 0 <= b < sb.size ensures InUse(sb, blocks, b) <==> b < sb.dataStart || b in owner {
      UseIs(b);
    }
  }

  /** Where the blocks of the files are. */
  lemma BlockIs(n: nat, k: nat)
    requires n < WORST.ninodes && k < MAXFILE
    ensures BlockOf(View(), InodeOf(n), k) ==
              if n == 0 || k >= NDIRECT then 0
              else if n == 1 then (if k < 10 then 258 + k else 0)
              else if Gap(n - 2, k) then 0 else BASE + 12 * (n - 2) + k
    ensures InodeOf(n).addrs[NDIRECT] == 0
  {
  }

  lemma SlotIs(s: Slot)
    requires ValidSlot(Inodes(), s) && SlotAddr(View(), Inodes(), s) != 0
    ensures
      var a: nat := SlotAddr(View(), Inodes(), s);
      a in Owner() && Owner()[a] == s
  {
    BlockIs(s.inum, if s.Data? then s.bn else 0);
  }

  lemma OwnerIs(b: nat)
    requires WORST.dataStart <= b < WORST.size && !IsFree(b)
    ensures ValidSlot(Inodes(), SlotOf(b)) && SlotAddr(View(), Inodes(), SlotOf(b)) == b
  {
    BlockIs(SlotOf(b).inum, SlotOf(b).bn);
  }

  lemma Owners()
    ensures OwnerInv(WORST, View(), Inodes(), Owner())
  {
    forall s | ValidSlot(Inodes(), s) && SlotAddr(View(), Inodes(), s) != 0
      ensures SlotAddr(View(), Inodes(), s) in Owner() && Owner()[SlotAddr(View(), Inodes(), s) as nat] == s
    {
      SlotIs(s);
    }
    forall b | b in Owner()
      ensures ValidSlot(Inodes(), Owner()[b]) && SlotAddr(View(), Inodes(), Owner()[b]) == b
    {
      OwnerIs(b);
    }
  }

  lemma NoHole(n: nat)
    requires n < WORST.ninodes
    ensures NoHoles(View(), InodeOf(n), InodeOf(n).size)
  {
    forall k | 0 <= k < MAXFILE && k * BSIZE < InodeOf(n).size ensures BlockOf(View(), InodeOf(n), k) != 0 {
      BlockIs(n, k);
    }
  }

  lemma Holes()
    ensures NoHolesAnywhere(View(), Inodes())
  {
    forall n | n in Inodes() ensures NoHoles(View(), Inodes()[n], Inodes()[n].size) {
      NoHole(n);
    }
  }

  /** The lowest four or five free blocks. */
  function Lowest(five: bool): set<nat> {
    if five then {279, 8475, 16671, 24867, 33063} else {279, 8475, 16671, 24867}
  }

  lemma LowestFree(five: bool, x: nat)
    requires x in Lowest(five)
    ensures x < WORST.size && IsFree(x) && x / BPB < (if five then 5 else 4) && x == FreeBlock(x / BPB)
  {
    FreeIs(x);
  }

  lemma LowestFirst(five: bool, x: nat, y: nat)
    requires x in Lowest(five) && y < x && IsFree(y)
    ensures y in Lowest(five)
  {
    LowestFree(five, x);
    FreeIs(y);
    var g := y / BPB;
    assert g == 0 || g == 1 || g == 2 || g == 3 || g == 4;
  }

  lemma LowestSpread(five: bool, low: set<nat>, owner: map<nat, Slot>)
    requires low == Lowest(five) && owner == Owner()
    ensures Spread(WORST, owner, low) && |low| == if five then 5 else 4
  {
    forall x | x in low ensures WORST.dataStart <= x < WORST.size && x !in owner {
      LowestFree(five, x);
    }
    forall x, y | x in low && WORST.dataStart <= y < x && y !in owner ensures y in low {
      LowestFree(five, x);
      LowestFirst(five, x, y);
    }
    forall x, y | x in low && y in low && x != y ensures BitmapBlock(WORST, x) != BitmapBlock(WORST, y) {
      LowestFree(five, x);
      LowestFree(five, y);
    }
  }

  lemma FileEnds()
    ensures EndsIn(View(), InodeOf(1), 9)
  {
    forall j | 9 <= j < MAXFILE ensures BlockOf(View(), InodeOf(1), j) == if j == 9 then 267 else 0 {
      BlockIs(1, j);
    }
  }
}
