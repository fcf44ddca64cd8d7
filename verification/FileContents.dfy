/** A file's bytes, read through its block map. */
module FileContents {
  import opened Machine
  import opened Blocks
  import opened FsLayout
  import opened Ownership

  /** The slot that holds the address of file block bn: entries follow the indirect block itself. */
  function SlotOf(bn: nat): (k: nat)
    ensures bn < MAXFILE ==> k < NSLOTS && k != NDIRECT
  {
    if bn < NDIRECT then bn else bn + 1
  }

  /** The number of blocks that `limit` bytes need. */
  function BlocksFor(limit: nat): nat { (limit + BSIZE - 1) / BSIZE }

  /** The disk blocks that nb file blocks take, with the indirect block. */
  function Occupies(nb: nat): nat { if nb > NDIRECT then nb + 1 else nb }

  /** The disk blocks that a file of `size` bytes without holes takes in addition when it reaches `end`. */
  function WriteNeed(size: nat, end: nat): (n: nat)
  {
    Occupies(BlocksFor(Max(size, end))) - Occupies(BlocksFor(size))
  }

  lemma NeedGrows(size: nat, less: nat, end: nat)
    requires less <= end
    ensures WriteNeed(size, less) <= WriteNeed(size, end)
  {
  }

  /** The disk blocks that bmap of file block bn takes: itself and the indirect block, where missing. */
  function BmapNeed(fs: Fs, i: nat, bn: nat): (n: nat)
    requires i < |fs.inodes| && |fs.inodes[i].addrs| == NDIRECT + 1 && fs.inodes[i].addrs[NDIRECT] < |fs.blocks|
    requires bn < MAXFILE
  {
    if BlockOf(fs, i, bn) != 0 then 0
    else if bn >= NDIRECT && Slot(fs, i, NDIRECT) == 0 then 2
    else 1
  }

  /** Exactly the first nb file blocks of inode i have addresses: no holes, no spare blocks. */
  ghost predicate Backed(fs: Fs, i: nat, nb: nat)
    requires i < |fs.inodes| && |fs.inodes[i].addrs| == NDIRECT + 1 && fs.inodes[i].addrs[NDIRECT] < |fs.blocks|
  {
    && nb <= MAXFILE
    && (forall bn: nat :: bn < MAXFILE ==> (Slot(fs, i, SlotOf(bn)) != 0 <==> bn < nb))
    && (Slot(fs, i, NDIRECT) != 0 <==> nb > NDIRECT)
  }

  ghost predicate NoHoles(fs: Fs, i: nat)
    requires i < |fs.inodes| && |fs.inodes[i].addrs| == NDIRECT + 1 && fs.inodes[i].addrs[NDIRECT] < |fs.blocks|
  {
    fs.inodes[i].size <= MAXFILE * BSIZE && Backed(fs, i, BlocksFor(fs.inodes[i].size))
  }

  /** The disk block of file block bn. */
  function BlockOf(fs: Fs, i: nat, bn: nat): (a: Uint)
    requires i < |fs.inodes| && |fs.inodes[i].addrs| == NDIRECT + 1 && fs.inodes[i].addrs[NDIRECT] < |fs.blocks|
    requires bn < MAXFILE
  {
    Slot(fs, i, SlotOf(bn))
  }

  /** Byte p of the file, or 0 in a hole and past the last block. */
  function ByteAt(fs: Fs, i: nat, p: nat): (c: Byte)
    requires i < |fs.inodes| && |fs.inodes[i].addrs| == NDIRECT + 1 && fs.inodes[i].addrs[NDIRECT] < |fs.blocks|
  {
    if p / BSIZE < MAXFILE && 0 < BlockOf(fs, i, p / BSIZE) < |fs.blocks|
    then fs.blocks[BlockOf(fs, i, p / BSIZE)][p % BSIZE]
    else 0
  }

  /** The file's contents. */
  function Bytes(fs: Fs, i: nat): (s: seq<Byte>)
    requires i < |fs.inodes| && |fs.inodes[i].addrs| == NDIRECT + 1 && fs.inodes[i].addrs[NDIRECT] < |fs.blocks|
    ensures |s| == fs.inodes[i].size
    ensures forall p :: 0 <= p < |s| ==> s[p] == ByteAt(fs, i, p)
  {
    seq(fs.inodes[i].size, p requires 0 <= p => ByteAt(fs, i, p))
  }

  /** `data` written over `s` at `off`. */
  function Splice(s: seq<Byte>, off: nat, data: seq<Byte>): (r: seq<Byte>)
    requires off <= |s|
    ensures |r| == if off + |data| > |s| then off + |data| else |s|
    ensures forall p :: 0 <= p < |r| ==> r[p] == if off <= p < off + |data| then data[p - off] else s[p]
  {
    s[..off] + data + (if off + |data| <= |s| then s[off + |data|..] else [])
  }

  /** Writing in two pieces is writing once. */
  lemma SpliceTwice(s: seq<Byte>, off: nat, x: seq<Byte>, y: seq<Byte>)
    requires off <= |s|
    ensures off + |x| <= |Splice(s, off, x)|
    ensures Splice(Splice(s, off, x), off + |x|, y) == Splice(s, off, x + y)
  {
  }

  /** memmove of `data` into a block at offset o. */
  function Patch(b: Block, o: nat, data: seq<Byte>): (r: Block)
    requires o + |data| <= BSIZE
    ensures forall q :: 0 <= q < BSIZE ==> r[q] == if o <= q < o + |data| then data[q - o] else b[q]
  {
    b[..o] + data + b[o + |data|..]
  }

  /** Changing one data block of a file changes those bytes and no others. */
  lemma PatchBytes(sb: Super, fs: Fs, owner: map<nat, Ref>, i: nat, bn: nat, data: Block, p: nat)
    requires ShapeOk(sb, fs) && SlotsOk(sb, fs, owner, NoGap) && i < sb.ninodes
    requires bn < MAXFILE && BlockOf(fs, i, bn) != 0
    ensures var a := BlockOf(fs, i, bn);
      && a < sb.size
      && ByteAt(fs.(blocks := fs.blocks[a := data]), i, p)
         == if p / BSIZE == bn then data[p % BSIZE] else ByteAt(fs, i, p)
  {
    hide Slot;
    var a := BlockOf(fs, i, bn);
    OwnedSlot(sb, fs, owner, i, SlotOf(bn));
    SlotsFrame(sb, fs, fs.blocks[a := data], owner, NoGap);
    var c := p / BSIZE;
    if c < MAXFILE {
      assert BlockOf(fs.(blocks := fs.blocks[a := data]), i, c) == BlockOf(fs, i, c);
      if c != bn && BlockOf(fs, i, c) != 0 {
        OwnedSlot(sb, fs, owner, i, SlotOf(c));
      }
    }
  }
}
