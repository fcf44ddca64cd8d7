/** Disk blocks as bytes, with the 32-bit little-endian words that the log header
    and the indirect blocks store in them. */
module Blocks {
  import opened Machine

  const BSIZE := 512
  const WORDS_PER_BLOCK := 128

  type Block = b: seq<Byte> | |b| == BSIZE witness ZeroBlock()

  function ZeroBlock(): (b: seq<Byte>)
    ensures |b| == BSIZE
    ensures forall i :: 0 <= i < BSIZE ==> b[i] == 0
  {
    seq(BSIZE, _ => 0)
  }

  /** The j-th uint of a block, as `((uint*)b->data)[j]` reads it. */
  function Word(b: Block, j: nat): (w: Uint)
    requires j < WORDS_PER_BLOCK
  {
    FromLe(b[4 * j], b[4 * j + 1], b[4 * j + 2], b[4 * j + 3])
  }

  function PutWord(b: Block, j: nat, w: Uint): (r: Block)
    requires j < WORDS_PER_BLOCK
  {
    b[4 * j := Le(w)[0]][4 * j + 1 := Le(w)[1]][4 * j + 2 := Le(w)[2]][4 * j + 3 := Le(w)[3]]
  }

  /** A stored word reads back, and no other word of the block moves. */
  lemma WordRoundTrip(b: Block, j: nat, w: Uint)
    requires j < WORDS_PER_BLOCK
    ensures Word(PutWord(b, j, w), j) == w
    ensures forall k: nat :: k < WORDS_PER_BLOCK && k != j ==> Word(PutWord(b, j, w), k) == Word(b, k)
  {
    hide Le, FromLe;
    LeRoundTrip(w);
  }

  lemma PutWordTwice(b: Block, j: nat, w: Uint)
    requires j < WORDS_PER_BLOCK
    ensures PutWord(PutWord(b, j, w), j, w) == PutWord(b, j, w)
  {
    hide Le;
  }

  lemma ZeroWord(j: nat)
    requires j < WORDS_PER_BLOCK
    ensures Word(ZeroBlock(), j) == 0
  {
  }
}
