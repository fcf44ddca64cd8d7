/** The on-disk structure that fs.c maintains: the free bitmap, the inodes with their direct and
    indirect block addresses, and who owns which block. */
module FsLayout {
  import opened Blocks

  const NDIRECT := 12
  const NINDIRECT := WORDS_PER_BLOCK
  const MAXFILE := NDIRECT + NINDIRECT
  /** Bits in a block, BSIZE * 8. */
  const BPB := 4096
  const IPB := 8

  // ---------------------------------------------------------------- bits

  /** The test `x & (1 << k)`. */
  predicate Bit(x: nat, k: nat)
  {
    if k == 0 then x % 2 == 1 else Bit(x / 2, k - 1)
  }

  /** The bits of x with bit k set to v: `x | (1 << k)` or `x & ~(1 << k)`. */
  function PutBit(x: nat, k: nat, v: bool): (y: nat)
  {
    if k == 0 then x / 2 * 2 + (if v then 1 else 0) else PutBit(x / 2, k - 1, v) * 2 + x % 2
  }

  lemma {:induction false} BitPut(x: nat, k: nat, v: bool, j: nat)
    ensures Bit(PutBit(x, k, v), j) == if j == k then v else Bit(x, j)
    decreases k
  {
    if k > 0 && j > 0 {
      BitPut(x / 2, k - 1, v, j - 1);
    }
  }

  function Pow2(n: nat): nat { if n == 0 then 1 else 2 * Pow2(n - 1) }

  /** Bit k of a byte counts 2^k. */
  lemma {:induction false} BitByValue(x: nat, k: nat)
    requires k < 8
    ensures Pow2(k) in {1, 2, 4, 8, 16, 32, 64, 128} && (Bit(x, k) <==> x / Pow2(k) % 2 == 1)
    decreases k
  {
    if k > 0 {
      BitByValue(x / 2, k - 1);
      assert k == 7 ==> Pow2(k - 1) == 64 by { assert Pow2(6) == 4 * Pow2(4) == 16 * Pow2(2) == 64; }
      DivDiv(x, Pow2(k - 1));
    }
  }

  lemma DivDiv(x: nat, n: nat)
    requires n in {1, 2, 4, 8, 16, 32, 64, 128}
    ensures x / 2 / n == x / (2 * n)
  {
  }

  /** Setting a clear bit adds 2^k, clearing a set one takes it away. */
  lemma {:induction false} PutBitValue(x: nat, k: nat, v: bool)
    ensures PutBit(x, k, v) == if v == Bit(x, k) then x else if v then x + Pow2(k) else x - Pow2(k)
    decreases k
  {
    if k > 0 {
      PutBitValue(x / 2, k - 1, v);
    }
  }

  lemma {:induction false} PutBitBound(x: nat, k: nat, v: bool, n: nat)
    requires x < Pow2(n) && k < n
    ensures PutBit(x, k, v) < Pow2(n)
    decreases k
  {
    if k > 0 {
      PutBitBound(x / 2, k - 1, v, n - 1);
    }
  }

  /** Bit `bi` of a bitmap block. */
  predicate BlockBit(b: Block, bi: nat)
    requires bi < BPB
  {
    Bit(b[bi / 8], bi % 8)
  }

  function PutBlockBit(b: Block, bi: nat, v: bool): (r: Block)
    requires bi < BPB
  {
    assert Pow2(8) == 2 * Pow2(7) == 4 * Pow2(6) == 8 * Pow2(5) == 16 * Pow2(4) == 256;
    PutBitBound(b[bi / 8], bi % 8, v, 8);
    b[bi / 8 := PutBit(b[bi / 8], bi % 8, v)]
  }

  /** Bit bi of the bitmap by byte and value, and what setting or clearing it does to the bytes of the block. */
  lemma BitmapBytes(b: Block, bi: nat, v: bool, j: nat)
    requires bi < BPB && j < BSIZE
    ensures Pow2(bi % 8) > 0
    ensures var x: int := b[bi / 8]; var w := Pow2(bi % 8); var c: seq<int> := b;
      && (BlockBit(b, bi) <==> x / w % 2 == 1)
      && PutBlockBit(b, bi, v)[j]
         == if j != bi / 8 || v == (x / w % 2 == 1) then c[j] else if v then x + w else x - w
  {
    BitByValue(b[bi / 8], bi % 8);
    PutBitValue(b[bi / 8], bi % 8, v);
  }

  lemma BlockBitPut(b: Block, bi: nat, v: bool, bj: nat)
    requires bi < BPB && bj < BPB
    ensures BlockBit(PutBlockBit(b, bi, v), bj) == if bj == bi then v else BlockBit(b, bj)
  {
    hide Bit, PutBit;
    if bi / 8 == bj / 8 {
      BitPut(b[bi / 8], bi % 8, v, bj % 8);
    }
  }
}
