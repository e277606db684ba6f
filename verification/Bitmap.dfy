/** The free-block bitmap of kernel/fs.c, kept bit by bit in disk blocks. */
module Bitmap {
  import opened Blocks

  /** Bits per bitmap block. */
  const BPB: nat := 8192

  function Pow2(n: nat): nat {
    if n == 0 then 1 else 2 * Pow2(n - 1)
  }

  /** x & (1 << k) is non-zero. */
  predicate Bit(x: nat, k: nat) {
    if k == 0 then x % 2 == 1 else Bit(x / 2, k - 1)
  }

  /** x | (1 << k) for `bit`, x & ~(1 << k) for `!bit`, on a number of `n` bits. */
  function PutBit(x: nat, k: nat, bit: bool, n: nat): (r: nat)
    requires k < n && x < Pow2(n)
    ensures r < Pow2(n)
    ensures forall j: nat :: j < n ==> (Bit(r, j) <==> if j == k then bit else Bit(x, j))
    decreases k
  {
    var r := if k == 0 then x / 2 * 2 + (if bit then 1 else 0) else 2 * PutBit(x / 2, k - 1, bit, n - 1) + x % 2;
    assert r / 2 == if k == 0 then x / 2 else PutBit(x / 2, k - 1, bit, n - 1);
    assert forall j: nat :: j < n ==> (Bit(r, j) <==> if j == k then bit else Bit(x, j)) by {
      forall j: nat | j < n ensures Bit(r, j) <==> if j == k then bit else Bit(x, j) {
        if j > 0 { assert Bit(r, j) == Bit(r / 2, j - 1) && Bit(x, j) == Bit(x / 2, j - 1); }
      }
    }
    r
  }

  function PutByteBit(x: byte, k: nat, bit: bool): (r: byte)
    requires k < 8
    ensures forall j: nat :: j < 8 ==> (Bit(r, j) <==> if j == k then bit else Bit(x, j))
  {
    assert Pow2(8) == 256;
    PutBit(x, k, bit, 8)
  }

  /** Bit `bi` of a bitmap block. */
  predicate BlockBit(b: Block, bi: nat)
    requires bi < BPB
  {
    Bit(b[bi / 8], bi % 8)
  }

  function PutBlockBit(b: Block, bi: nat, bit: bool): (r: Block)
    requires bi < BPB
    ensures forall j :: 0 <= j < BPB ==> (BlockBit(r, j) <==> if j == bi then bit else BlockBit(b, j))
  {
    b[bi / 8 := PutByteBit(b[bi / 8], bi % 8, bit)]
  }
}
