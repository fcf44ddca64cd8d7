/** The file blocks that a read or write passes over: how many disk blocks they are short of, and what bmap of
    each in turn does to the block map. */
module FileSpan {
  import opened Machine
  import opened Blocks
  import opened FsLayout
  import opened Ownership
  import opened FileContents
  import opened FsCode

  // ---------------------------------------------------------------- what a span takes

  /** The holes among file blocks lo..hi. */
  function Holes(fs: Fs, i: nat, lo: nat, hi: nat): (n: nat)
    requires i < |fs.inodes| && |fs.inodes[i].addrs| == NDIRECT + 1 && fs.inodes[i].addrs[NDIRECT] < |fs.blocks|
    requires lo <= hi
    decreases hi
  {
    if lo == hi then 0
    else Holes(fs, i, lo, hi - 1) + if hi - 1 < MAXFILE && BlockOf(fs, i, hi - 1) == 0 then 1 else 0
  }

  /** The disk blocks that mapping file blocks lo..hi takes: the holes, and a missing indirect block. */
  function NeedOf(fs: Fs, i: nat, lo: nat, hi: nat): (n: nat)
    requires i < |fs.inodes| && |fs.inodes[i].addrs| == NDIRECT + 1 && fs.inodes[i].addrs[NDIRECT] < |fs.blocks|
    requires lo <= hi
  {
    Holes(fs, i, lo, hi) + if lo < hi && hi > NDIRECT && Slot(fs, i, NDIRECT) == 0 then 1 else 0
  }

  /** The file block after the last one that the m > 0 bytes at `off` lie in. */
  function EndBlock(off: nat, m: nat): nat
    requires m > 0
  {
    (off + m - 1) / BSIZE + 1
  }

  /** What passing over the m bytes at `off` takes. */
  function SpanNeed(fs: Fs, i: nat, off: nat, m: nat): (n: nat)
    requires i < |fs.inodes| && |fs.inodes[i].addrs| == NDIRECT + 1 && fs.inodes[i].addrs[NDIRECT] < |fs.blocks|
  {
    if m == 0 then 0 else NeedOf(fs, i, off / BSIZE, EndBlock(off, m))
  }

  lemma {:induction false} NeedOfGrows(fs: Fs, i: nat, lo: nat, hi: nat, end: nat)
    requires i < |fs.inodes| && |fs.inodes[i].addrs| == NDIRECT + 1 && fs.inodes[i].addrs[NDIRECT] < |fs.blocks|
    requires lo <= hi <= end
    ensures NeedOf(fs, i, lo, hi) <= NeedOf(fs, i, lo, end)
    decreases end
  {
    hide Slot;
    if hi < end {
      NeedOfGrows(fs, i, lo, hi, end - 1);
    }
  }

  lemma SpanMore(fs: Fs, i: nat, off: nat, m: nat, bn: nat)
    requires i < |fs.inodes| && |fs.inodes[i].addrs| == NDIRECT + 1 && fs.inodes[i].addrs[NDIRECT] < |fs.blocks|
    requires m > 0 && off / BSIZE <= bn < EndBlock(off, m)
    ensures NeedOf(fs, i, off / BSIZE, bn + 1) <= SpanNeed(fs, i, off, m)
  {
    NeedOfGrows(fs, i, off / BSIZE, bn + 1, EndBlock(off, m));
  }

  // ---------------------------------------------------------------- files without holes

  lemma {:induction false} BackedHoles(fs: Fs, i: nat, nb: nat, lo: nat, hi: nat)
    requires i < |fs.inodes| && |fs.inodes[i].addrs| == NDIRECT + 1 && fs.inodes[i].addrs[NDIRECT] < |fs.blocks|
    requires Backed(fs, i, nb) && lo <= hi <= MAXFILE && lo <= nb
    ensures Holes(fs, i, lo, hi) == if hi <= nb then 0 else hi - nb
    decreases hi
  {
    hide Slot;
    if lo < hi {
      BackedHoles(fs, i, nb, lo, hi - 1);
      assert BlockOf(fs, i, hi - 1) != 0 <==> hi - 1 < nb;
    }
  }

  lemma EndBlocks(size: nat, off: nat, m: nat)
    requires off <= size && m > 0
    ensures off / BSIZE <= BlocksFor(size) && BlocksFor(Max(size, off + m)) == Max(BlocksFor(size), EndBlock(off, m))
  {
  }

  /** Writing to a file without holes takes what the longer file occupies in addition; reading it takes nothing. */
  lemma WholeNeed(fs: Fs, i: nat, off: nat, m: nat)
    requires i < |fs.inodes| && |fs.inodes[i].addrs| == NDIRECT + 1 && fs.inodes[i].addrs[NDIRECT] < |fs.blocks|
    requires NoHoles(fs, i) && off <= fs.inodes[i].size && off + m <= MAXFILE * BSIZE
    ensures SpanNeed(fs, i, off, m) == WriteNeed(fs.inodes[i].size, off + m)
    ensures off + m <= fs.inodes[i].size ==> SpanNeed(fs, i, off, m) == 0
  {
    hide Slot;
    if m > 0 {
      var size, lo, hi := fs.inodes[i].size, off / BSIZE, EndBlock(off, m);
      EndBlocks(size, off, m);
      assert hi <= MAXFILE;
      BackedHoles(fs, i, BlocksFor(size), lo, hi);
    }
  }

  // ---------------------------------------------------------------- bmap of each block in turn

  /** From fs to fs1, file blocks lo..hi of inode i have been mapped and no other address has changed. */
  ghost predicate MappedOver(sb: Super, fs: Fs, fs1: Fs, i: nat, lo: nat, hi: nat)
    requires ShapeOk(sb, fs) && ShapeOk(sb, fs1) && i < sb.ninodes
  {
    && (forall bn: nat :: bn < MAXFILE ==>
         if lo <= bn < hi then BlockOf(fs1, i, bn) != 0 && (BlockOf(fs, i, bn) in {0, BlockOf(fs1, i, bn)})
         else BlockOf(fs1, i, bn) == BlockOf(fs, i, bn))
    && (Slot(fs1, i, NDIRECT) != 0 <==> Slot(fs, i, NDIRECT) != 0 || (lo < hi && hi > NDIRECT))
    && Slot(fs, i, NDIRECT) in {0, Slot(fs1, i, NDIRECT)}
  }

  lemma MappedNone(sb: Super, fs: Fs, i: nat, lo: nat)
    requires ShapeOk(sb, fs) && i < sb.ninodes
    ensures MappedOver(sb, fs, fs, i, lo, lo) && NeedOf(fs, i, lo, lo) == 0
  {
    hide Slot;
  }

  /** One more block. */
  lemma MappedOn(f: FileSystem, fs: Fs, fs1: Fs, fs2: Fs, i: nat, lo: nat, bn: nat)
    requires ShapeOk(f.sb, fs) && ShapeOk(f.sb, fs1) && ShapeOk(f.sb, fs2) && i < f.sb.ninodes && lo <= bn < MAXFILE
    requires MappedOver(f.sb, fs, fs1, i, lo, bn) && f.SlotsBut(fs1, fs2, i, bn) && BlockOf(fs2, i, bn) != 0
    requires BlockOf(fs1, i, bn) != 0 ==> fs2 == fs1
    ensures MappedOver(f.sb, fs, fs2, i, lo, bn + 1)
  {
    hide Slot;
    forall c: nat | c < MAXFILE && c != bn
      ensures BlockOf(fs2, i, c) == BlockOf(fs1, i, c)
    {
      assert SlotOf(c) != SlotOf(bn);
    }
    assert BlockOf(fs1, i, bn) == BlockOf(fs, i, bn);
  }

  /** What it takes. */
  lemma NeedOn(sb: Super, fs: Fs, fs1: Fs, i: nat, lo: nat, bn: nat)
    requires ShapeOk(sb, fs) && ShapeOk(sb, fs1) && i < sb.ninodes && lo <= bn < MAXFILE
    requires MappedOver(sb, fs, fs1, i, lo, bn)
    ensures NeedOf(fs, i, lo, bn + 1) == NeedOf(fs, i, lo, bn) + BmapNeed(fs1, i, bn)
    ensures BlockOf(fs1, i, bn) == BlockOf(fs, i, bn) && (BmapNeed(fs1, i, bn) == 0 <==> BlockOf(fs, i, bn) != 0)
  {
    hide Slot;
    if bn >= NDIRECT {
      EmptyIndirect(fs, i, bn - NDIRECT);
    }
  }

  /** Block maps with the same addresses. */
  lemma MappedSame(sb: Super, fs: Fs, fs1: Fs, fs2: Fs, i: nat, lo: nat, hi: nat)
    requires ShapeOk(sb, fs) && ShapeOk(sb, fs1) && ShapeOk(sb, fs2) && i < sb.ninodes
    requires MappedOver(sb, fs, fs1, i, lo, hi) && forall k: nat :: k < NSLOTS ==> Slot(fs2, i, k) == Slot(fs1, i, k)
    ensures MappedOver(sb, fs, fs2, i, lo, hi)
  {
    hide Slot;
    assert forall bn: nat :: bn < MAXFILE ==> BlockOf(fs2, i, bn) == BlockOf(fs1, i, bn);
  }

  /** A file without holes, mapped further from inside or from its end, has none. */
  lemma StillBacked(sb: Super, fs: Fs, fs1: Fs, i: nat, nb: nat, lo: nat, hi: nat)
    requires ShapeOk(sb, fs) && ShapeOk(sb, fs1) && i < sb.ninodes && MappedOver(sb, fs, fs1, i, lo, hi)
    requires Backed(fs, i, nb) && lo <= nb && lo <= hi <= MAXFILE
    ensures Backed(fs1, i, Max(nb, hi))
  {
    hide Slot;
    forall bn: nat | bn < MAXFILE
      ensures Slot(fs1, i, SlotOf(bn)) != 0 <==> bn < Max(nb, hi)
    {
      assert BlockOf(fs, i, bn) != 0 <==> bn < nb;
    }
  }

  /** bmap changes no byte: a hole becomes a block of zeros. */
  lemma BmapSameByte(f: FileSystem, fs: Fs, owner: map<nat, Ref>, fs1: Fs, owner1: map<nat, Ref>, i: nat, bn: nat,
                     p: nat)
    requires OwnedBy(f.sb, fs, owner, {}, NoGap) && OwnedBy(f.sb, fs1, owner1, {}, NoGap) && i < f.sb.ninodes
    requires Grown(f.sb, fs, owner, fs1, owner1, i) && bn < MAXFILE && f.SlotsBut(fs, fs1, i, bn)
    requires BlockOf(fs, i, bn) != 0 ==> fs1 == fs
    requires BlockOf(fs, i, bn) == 0 ==>
      BlockOf(fs1, i, bn) < |fs1.blocks| && fs1.blocks[BlockOf(fs1, i, bn)] == ZeroBlock()
    ensures ByteAt(fs1, i, p) == ByteAt(fs, i, p)
  {
    hide Slot, BitsOk;
    var c := p / BSIZE;
    if c < MAXFILE && c != bn {
      assert SlotOf(c) != SlotOf(bn);
      assert Slot(fs1, i, SlotOf(c)) == Slot(fs, i, SlotOf(c));
    }
  }

  lemma GrownInode(sb: Super, fs: Fs, owner: map<nat, Ref>, fs1: Fs, owner1: map<nat, Ref>, i: nat)
    requires Grown(sb, fs, owner, fs1, owner1, i)
    ensures i < |fs.inodes| == |fs1.inodes| && fs1.inodes[i] == fs.inodes[i].(addrs := fs1.inodes[i].addrs)
  {
  }

  // ---------------------------------------------------------------- bytes and blocks

  /** Where the block after the piece from `cur` starts. */
  lemma NextBlock(cur: nat, k: nat)
    requires 0 < k <= BSIZE - cur % BSIZE
    ensures (cur + k - 1) / BSIZE == cur / BSIZE && (k == BSIZE - cur % BSIZE ==> (cur + k) / BSIZE == cur / BSIZE + 1)
  {
  }

  /** File blocks from that of `off` up to `hi` cover the `got` bytes at `off`, of m; then comes block hi. */
  predicate Covers(off: nat, m: nat, got: nat, hi: nat)
  {
    && off / BSIZE <= hi && got <= m
    && (got == 0 ==> hi == off / BSIZE)
    && (got > 0 ==> hi <= MAXFILE && hi == EndBlock(off, got))
    && (got < m ==> (off + got) / BSIZE == hi)
  }

  lemma CoversNone(off: nat, m: nat)
    ensures Covers(off, m, 0, off / BSIZE)
  {
  }

  lemma CoversOn(off: nat, m: nat, got: nat, hi: nat)
    requires Covers(off, m, got, hi) && got < m
    ensures var cur := off + got; var k := Min(m - got, BSIZE - cur % BSIZE);
      && k > 0 && hi == cur / BSIZE && hi < EndBlock(off, m)
      && (hi < MAXFILE ==> Covers(off, m, got + k, hi + 1))
      && (hi >= MAXFILE ==> off + m > MAXFILE * BSIZE)
  {
    var cur := off + got;
    NextBlock(cur, Min(m - got, BSIZE - cur % BSIZE));
  }

  lemma CoversAll(fs: Fs, i: nat, off: nat, m: nat, hi: nat)
    requires i < |fs.inodes| && |fs.inodes[i].addrs| == NDIRECT + 1 && fs.inodes[i].addrs[NDIRECT] < |fs.blocks|
    requires Covers(off, m, m, hi)
    ensures m > 0 ==> off + m <= MAXFILE * BSIZE && hi == EndBlock(off, m)
    ensures m == 0 ==> hi == off / BSIZE
    ensures off / BSIZE <= hi && NeedOf(fs, i, off / BSIZE, hi) == SpanNeed(fs, i, off, m)
  {
    hide Slot;
  }
}
