/** struct dinode of fs.h: sixteen words, eight inodes to a block. */
module DiskInode {
  import opened Machine
  import opened Blocks
  import opened FsLayout

  type Short = x: int | -0x8000 <= x < 0x8000

  /** An inode's fields, in memory or on disk. */
  datatype Inode = Inode(typ: Short, major: Short, minor: Short, nlink: Short, size: Uint, addrs: seq<Uint>)

  /** Words of an inode on disk. */
  const IWORDS := 16

  /** Two shorts in one word, the first in the low half. */
  function Pair(lo: Short, hi: Short): (w: Uint) { lo % 0x1_0000 + 0x1_0000 * (hi % 0x1_0000) }

  function Signed(u: int): (x: Short)
    requires 0 <= u < 0x1_0000
  {
    if u < 0x8000 then u else u - 0x1_0000
  }

  function Low(w: Uint): (x: Short) { Signed(w % 0x1_0000) }
  function High(w: Uint): (x: Short) { Signed(w / 0x1_0000) }

  lemma PairRoundTrip(lo: Short, hi: Short)
    ensures Low(Pair(lo, hi)) == lo && High(Pair(lo, hi)) == hi
  {
    assert Pair(lo, hi) % 0x1_0000 == lo % 0x1_0000 && Pair(lo, hi) / 0x1_0000 == hi % 0x1_0000;
  }

  /** `n` words of a block from word j on. */
  function Words(b: Block, j: nat, n: nat): (ws: seq<Uint>)
    requires j + n <= WORDS_PER_BLOCK
    ensures |ws| == n && forall k: nat :: k < n ==> ws[k] == Word(b, j + k)
  {
    seq<Uint>(n, k requires 0 <= k < n => Word(b, j + k))
  }

  function PutWords(b: Block, j: nat, ws: seq<Uint>): (r: Block)
    requires j + |ws| <= WORDS_PER_BLOCK
    decreases |ws|
  {
    if ws == [] then b else PutWord(PutWords(b, j, ws[..|ws| - 1]), j + |ws| - 1, ws[|ws| - 1])
  }

  lemma {:induction false} PutWordsAt(b: Block, j: nat, ws: seq<Uint>, k: nat)
    requires j + |ws| <= WORDS_PER_BLOCK && k < WORDS_PER_BLOCK
    ensures Word(PutWords(b, j, ws), k) == if j <= k < j + |ws| then ws[k - j] else Word(b, k)
    decreases |ws|
  {
    hide Word, PutWord;
    if ws != [] {
      var rest := ws[..|ws| - 1];
      PutWordsAt(b, j, rest, k);
      WordRoundTrip(PutWords(b, j, rest), j + |ws| - 1, ws[|ws| - 1]);
    }
  }

  function Encode(x: Inode): (ws: seq<Uint>)
    requires |x.addrs| == NDIRECT + 1
    ensures |ws| == IWORDS
  {
    [Pair(x.typ, x.major), Pair(x.minor, x.nlink), x.size] + x.addrs
  }

  function Decode(ws: seq<Uint>): (x: Inode)
    requires |ws| == IWORDS
    ensures |x.addrs| == NDIRECT + 1
  {
    Inode(Low(ws[0]), High(ws[0]), Low(ws[1]), High(ws[1]), ws[2], ws[3..])
  }

  lemma DecodeEncode(x: Inode)
    requires |x.addrs| == NDIRECT + 1
    ensures Decode(Encode(x)) == x
  {
    hide Pair, Low, High;
    PairRoundTrip(x.typ, x.major);
    PairRoundTrip(x.minor, x.nlink);
  }

  /** The k-th inode of an inode block. */
  function GetInode(b: Block, k: nat): (x: Inode)
    requires k < IPB
    ensures |x.addrs| == NDIRECT + 1
  {
    Decode(Words(b, IWORDS * k, IWORDS))
  }

  function PutInode(b: Block, k: nat, x: Inode): (r: Block)
    requires k < IPB && |x.addrs| == NDIRECT + 1
  {
    PutWords(b, IWORDS * k, Encode(x))
  }

  /** A stored inode reads back, and no other inode of the block changes. */
  lemma InodeRoundTrip(b: Block, k: nat, x: Inode, l: nat)
    requires k < IPB && l < IPB && |x.addrs| == NDIRECT + 1
    ensures GetInode(PutInode(b, k, x), l) == if l == k then x else GetInode(b, l)
  {
    hide Word, Words, PutWords, Encode, Decode;
    var was, now := Words(b, IWORDS * l, IWORDS), Words(PutInode(b, k, x), IWORDS * l, IWORDS);
    forall n: nat | n < IWORDS
      ensures now[n] == if l == k then Encode(x)[n] else was[n]
    {
      PutWordsAt(b, IWORDS * k, Encode(x), IWORDS * l + n);
    }
    if l == k {
      assert now == Encode(x);
      DecodeEncode(x);
    } else {
      assert now == was;
    }
  }

  // ---------------------------------------------------------------- byte offsets

  lemma HalfWords(b0: Byte, b1: Byte, b2: Byte, b3: Byte)
    ensures var w := FromLe(b0, b1, b2, b3);
      && 0 <= w < UINT_LIMIT
      && Low(w) % 0x1_0000 == b0 + 0x100 * b1 && High(w) % 0x1_0000 == b2 + 0x100 * b3
  {
    var w, lo, hi := FromLe(b0, b1, b2, b3), b0 + 0x100 * b1, b2 + 0x100 * b3;
    assert w == lo + 0x1_0000 * hi && 0 <= lo < 0x1_0000 && 0 <= hi < 0x1_0000;
    assert w % 0x1_0000 == lo && w / 0x1_0000 == hi;
  }

  lemma InodeWords(b: Block, k: nat, j: nat)
    requires k < IPB && j < NDIRECT + 1
    ensures var x, o := GetInode(b, k), IWORDS * k;
      && x.typ == Low(Word(b, o)) && x.major == High(Word(b, o))
      && x.minor == Low(Word(b, o + 1)) && x.nlink == High(Word(b, o + 1))
      && x.size == Word(b, o + 2) && x.addrs[j] == Word(b, o + 3 + j)
  {
    hide Low, High, Word;
    var o, ws := IWORDS * k, Words(b, IWORDS * k, IWORDS);
    assert ws[0] == Word(b, o) && ws[1] == Word(b, o + 1) && ws[2] == Word(b, o + 2);
    assert ws[3..][j] == ws[3 + j] == Word(b, o + (3 + j));
  }

  /** struct dinode byte by byte: four shorts at offsets 0, 2, 4 and 6 of the inode's 64 bytes, the size at 8 and the
      block numbers from 12 on, all little-endian. */
  lemma InodeBytes(b: Block, k: nat, j: nat)
    requires k < IPB && j < NDIRECT + 1
    ensures var x, o := GetInode(b, k), 64 * k; var c: seq<int> := b;
      && x.typ % 0x1_0000 == c[o] + 0x100 * c[o + 1]
      && x.major % 0x1_0000 == c[o + 2] + 0x100 * c[o + 3]
      && x.minor % 0x1_0000 == c[o + 4] + 0x100 * c[o + 5]
      && x.nlink % 0x1_0000 == c[o + 6] + 0x100 * c[o + 7]
      && x.size == c[o + 8] + 0x100 * c[o + 9] + 0x1_0000 * c[o + 10] + 0x100_0000 * c[o + 11]
      && var a := o + 12 + 4 * j;
         x.addrs[j] == c[a] + 0x100 * c[a + 1] + 0x1_0000 * c[a + 2] + 0x100_0000 * c[a + 3]
  {
    hide Low, High, GetInode;
    var o := 64 * k;
    InodeWords(b, k, j);
    HalfWords(b[o], b[o + 1], b[o + 2], b[o + 3]);
    HalfWords(b[o + 4], b[o + 5], b[o + 6], b[o + 7]);
  }

  /** What a stored inode puts at those offsets. */
  lemma InodeStored(b: Block, k: nat, x: Inode, j: nat)
    requires k < IPB && |x.addrs| == NDIRECT + 1 && j < NDIRECT + 1
    ensures var r: seq<int> := PutInode(b, k, x); var o := 64 * k;
      && r[o] + 0x100 * r[o + 1] == x.typ % 0x1_0000
      && r[o + 2] + 0x100 * r[o + 3] == x.major % 0x1_0000
      && r[o + 4] + 0x100 * r[o + 5] == x.minor % 0x1_0000
      && r[o + 6] + 0x100 * r[o + 7] == x.nlink % 0x1_0000
      && r[o + 8] + 0x100 * r[o + 9] + 0x1_0000 * r[o + 10] + 0x100_0000 * r[o + 11] == x.size
      && var a := o + 12 + 4 * j;
         r[a] + 0x100 * r[a + 1] + 0x1_0000 * r[a + 2] + 0x100_0000 * r[a + 3] == x.addrs[j]
  {
    hide GetInode, PutInode;
    InodeRoundTrip(b, k, x, k);
    InodeBytes(PutInode(b, k, x), k, j);
  }
}
