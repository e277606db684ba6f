/** Disk blocks as the kernel sees them: BSIZE bytes that the code reads as
    bytes or, through a cast, as an array of little-endian 32-bit words. */
module Blocks {

  const BSIZE: nat := 1024

  /** Words per block, the kernel's NINDIRECT. */
  const WORDS: nat := 256

  type byte = x: int | 0 <= x < 0x100

  type word = x: int | 0 <= x < 0x1_0000_0000

  type Block = b: seq<byte> | |b| == BSIZE witness seq(BSIZE, _ => 0)

  /** What memset(data, 0, BSIZE) leaves. */
  function ZeroBlock(): (b: Block)
    ensures forall i :: 0 <= i < BSIZE ==> b[i] == 0
  {
    seq(BSIZE, _ => 0)
  }

  function WordAt(b: Block, i: nat): word
    requires i < WORDS
  {
    var b0: int, b1: int, b2: int, b3: int := b[4 * i], b[4 * i + 1], b[4 * i + 2], b[4 * i + 3];
    b0 + 0x100 * b1 + 0x1_0000 * b2 + 0x100_0000 * b3
  }

  lemma SplitWord(v: word)
    ensures v / 0x100_0000 < 0x100
    ensures v == v % 0x100 + 0x100 * (v / 0x100 % 0x100) + 0x1_0000 * (v / 0x1_0000 % 0x100)
                 + 0x100_0000 * (v / 0x100_0000)
  {
    assert v / 0x100 / 0x100 == v / 0x1_0000 && v / 0x1_0000 / 0x100 == v / 0x100_0000;
  }

  function SetWord(b: Block, i: nat, v: word): (r: Block)
    requires i < WORDS
    ensures forall k :: 0 <= k < BSIZE && !(4 * i <= k < 4 * i + 4) ==> r[k] == b[k]
    ensures WordAt(r, i) == v
  {
    SplitWord(v);
    b[4 * i := v % 0x100][4 * i + 1 := v / 0x100 % 0x100]
     [4 * i + 2 := v / 0x1_0000 % 0x100][4 * i + 3 := v / 0x100_0000]
  }

  /** Storing one word changes that word and no other. */
  lemma SetWordFrame(b: Block, i: nat, v: word, j: nat)
    requires i < WORDS && j < WORDS
    ensures WordAt(SetWord(b, i, v), j) == if i == j then v else WordAt(b, j)
  {
  }

  lemma ZeroWord(i: nat)
    requires i < WORDS
    ensures WordAt(ZeroBlock(), i) == 0
  {
  }
}
