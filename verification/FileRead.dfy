/** readi: a slice of the file's bytes, with holes filled as they are met. */
module FileRead {
  import opened Machine
  import opened Blocks
  import opened FsLayout
  import opened Ownership
  import opened FileContents
  import opened FsCode
  import opened FileSpan
  import opened FileIo

  /** From fs, file blocks lo..hi have been mapped and no byte has changed. */
  ghost predicate ReadTo(sb: Super, fs: Fs, fs1: Fs, i: nat, lo: nat, hi: nat)
    requires ShapeOk(sb, fs) && ShapeOk(sb, fs1) && i < sb.ninodes
  {
    && fs1.inodes[i].size == fs.inodes[i].size
    && MappedOver(sb, fs, fs1, i, lo, hi)
    && (forall p: nat :: ByteAt(fs1, i, p) == ByteAt(fs, i, p))
  }

  lemma ReadOn(f: FileSystem, fs: Fs, fs1: Fs, owner1: map<nat, Ref>, fs2: Fs, owner2: map<nat, Ref>, i: nat, lo: nat,
               bn: nat)
    requires ShapeOk(f.sb, fs) && OwnedBy(f.sb, fs1, owner1, {}, NoGap) && OwnedBy(f.sb, fs2, owner2, {}, NoGap)
    requires i < f.sb.ninodes && lo <= bn < MAXFILE && ReadTo(f.sb, fs, fs1, i, lo, bn)
    requires Grown(f.sb, fs1, owner1, fs2, owner2, i) && f.SlotsBut(fs1, fs2, i, bn) && BlockOf(fs2, i, bn) != 0
    requires BlockOf(fs1, i, bn) != 0 ==> fs2 == fs1
    requires BlockOf(fs1, i, bn) == 0 ==>
      BlockOf(fs2, i, bn) < |fs2.blocks| && fs2.blocks[BlockOf(fs2, i, bn)] == ZeroBlock()
    ensures ReadTo(f.sb, fs, fs2, i, lo, bn + 1)
  {
    hide Slot, BitsOk, SlotsOk, ByteAt, MappedOver;
    GrownInode(f.sb, fs1, owner1, fs2, owner2, i);
    MappedOn(f, fs, fs1, fs2, i, lo, bn);
    forall p: nat
      ensures ByteAt(fs2, i, p) == ByteAt(fs, i, p)
    {
      BmapSameByte(f, fs1, owner1, fs2, owner2, i, bn, p);
    }
  }

  /** Bytes within one block of the file are bytes of its disk block. */
  lemma OneBlock(fs: Fs, i: nat, cur: nat, k: nat)
    requires i < |fs.inodes| && |fs.inodes[i].addrs| == NDIRECT + 1 && fs.inodes[i].addrs[NDIRECT] < |fs.blocks|
    requires cur + k <= fs.inodes[i].size && k <= BSIZE - cur % BSIZE
    requires cur / BSIZE < MAXFILE && 0 < BlockOf(fs, i, cur / BSIZE) < |fs.blocks|
    ensures fs.blocks[BlockOf(fs, i, cur / BSIZE)][cur % BSIZE..cur % BSIZE + k] == Bytes(fs, i)[cur..cur + k]
  {
    hide Slot;
    var a := BlockOf(fs, i, cur / BSIZE);
    var left := fs.blocks[a][cur % BSIZE..cur % BSIZE + k];
    var right := Bytes(fs, i)[cur..cur + k];
    forall q | 0 <= q < |left|
      ensures left[q] == right[q]
    {
      assert (cur + q) / BSIZE == cur / BSIZE && (cur + q) % BSIZE == cur % BSIZE + q;
    }
  }

  lemma PieceRead(fs: Fs, i: nat, off: nat, cur: nat, k: nat, dst: seq<Byte>)
    requires i < |fs.inodes| && |fs.inodes[i].addrs| == NDIRECT + 1 && fs.inodes[i].addrs[NDIRECT] < |fs.blocks|
    requires off <= cur && cur + k <= fs.inodes[i].size && k <= BSIZE - cur % BSIZE
    requires cur / BSIZE < MAXFILE && 0 < BlockOf(fs, i, cur / BSIZE) < |fs.blocks|
    requires dst == Bytes(fs, i)[off..cur]
    ensures dst + fs.blocks[BlockOf(fs, i, cur / BSIZE)][cur % BSIZE..cur % BSIZE + k] == Bytes(fs, i)[off..cur + k]
  {
    hide Bytes, BlockOf;
    OneBlock(fs, i, cur, k);
    var s := Bytes(fs, i);
    assert s[off..cur] + s[cur..cur + k] == s[off..cur + k];
  }

  lemma SameBytes(sb: Super, fs: Fs, fs1: Fs, i: nat, lo: nat, hi: nat)
    requires ShapeOk(sb, fs) && ShapeOk(sb, fs1) && i < sb.ninodes && ReadTo(sb, fs, fs1, i, lo, hi)
    ensures Bytes(fs1, i) == Bytes(fs, i)
  {
    hide Slot, ByteAt, MappedOver;
  }

  // ---------------------------------------------------------------- readi

  /** A read that began at (fs, owner, logged) has mapped file blocks lo..hi. */
  ghost predicate Reading(f: FileSystem, fs: Fs, owner: map<nat, Ref>, logged: set<nat>, i: nat, lo: nat, hi: nat)
    reads f
    ensures Reading(f, fs, owner, logged, i, lo, hi) ==>
      && f.Valid() && i < f.sb.ninodes && f.inodes[i].typ != 0 && ShapeOk(f.sb, fs) && lo <= hi
      && f.inodes[i].size == fs.inodes[i].size && Bytes(f.St(), i) == Bytes(fs, i)
      && |f.owner| == |owner| + NeedOf(fs, i, lo, hi)
  {
    && f.Valid() && i < f.sb.ninodes && f.inodes[i].typ != 0 && ShapeOk(f.sb, fs) && lo <= hi
    && Grown(f.sb, fs, owner, f.St(), f.owner, i) && ReadTo(f.sb, fs, f.St(), i, lo, hi)
    && |f.owner| == |owner| + NeedOf(fs, i, lo, hi)
    && (NeedOf(fs, i, lo, hi) == 0 ==> f.St() == fs && f.owner == owner && f.logged == logged)
  }

  /** One pass of readi's loop: bmap of the next file block. Where bmap has to allocate and no operation is under
      way (`trans`), log_write panics unless balloc does. */
  method ReadBlock(f: FileSystem, ghost fs: Fs, ghost owner: map<nat, Ref>, ghost logged: set<nat>,
                   i: nat, ghost lo: nat, bn: nat, trans: bool)
    returns (r: Mapped)
    requires Reading(f, fs, owner, logged, i, lo, bn)
    modifies f`blocks, f`inodes, f`owner, f`logged
    ensures r.OutOfRange? <==> bn >= MAXFILE
    ensures r.OutOfBlocks? ==>
      |owner| + NeedOf(fs, i, lo, bn + 1) > f.sb.nblocks || (!trans && NeedOf(fs, i, lo, bn + 1) > 0)
    ensures r.Mapped? ==> Reading(f, fs, owner, logged, i, lo, bn + 1)
    ensures r.Mapped? ==> NeedOf(fs, i, lo, bn + 1) == NeedOf(fs, i, lo, bn) || trans
    ensures r.Mapped? ==> 0 < r.addr == BlockOf(f.St(), i, bn) < |f.blocks|
  {
    hide Slot, SlotsOk, BitsOk, BitAt, Grown, Bytes, ByteAt, MappedOver, NeedOf, FreeBlocks, BmapNeed;
    ghost var was := f.St();
    FreeCount(f.sb, f.St(), f.owner);
    if bn < MAXFILE {
      NeedOn(f.sb, fs, was, i, lo, bn);
      if !trans && BlockOf(Fs(f.blocks, f.inodes), i, bn) == 0 {
        return OutOfBlocks;
      }
    }
    r := f.Bmap(i, bn);
    GrownInode(f.sb, was, old(f.owner), f.St(), f.owner, i);
    GrownTwice(f.sb, fs, owner, was, old(f.owner), f.St(), f.owner, i);
    if r.Mapped? {
      ReadOn(f, fs, was, old(f.owner), f.St(), f.owner, i, lo, bn);
      SameBytes(f.sb, fs, f.St(), i, lo, bn + 1);
    }
  }

  lemma ReadingSelf(f: FileSystem, i: nat, lo: nat)
    requires f.Valid() && i < f.sb.ninodes && f.inodes[i].typ != 0
    ensures Reading(f, f.St(), f.owner, f.logged, i, lo, lo)
  {
    hide Slot, SlotsOk, BitsOk, Grown, MappedOver, NeedOf;
    GrownSelf(f.sb, f.St(), f.owner, i);
    MappedNone(f.sb, f.St(), i, lo);
  }

  lemma ReadAll(f: FileSystem, fs: Fs, owner: map<nat, Ref>, logged: set<nat>, i: nat, off: nat, m: nat, hi: nat)
    requires Reading(f, fs, owner, logged, i, off / BSIZE, hi) && Covers(off, m, m, hi)
    ensures m > 0 ==> off + m <= MAXFILE * BSIZE
    ensures NeedOf(fs, i, off / BSIZE, hi) == SpanNeed(fs, i, off, m)
    ensures Grown(f.sb, fs, owner, f.St(), f.owner, i)
    ensures SpanNeed(fs, i, off, m) == 0 ==> f.St() == fs && f.owner == owner && f.logged == logged
  {
    hide Slot, SlotsOk, BitsOk, Grown, ReadTo, NeedOf, Covers;
    CoversAll(fs, i, off, m, hi);
  }

  /** The copying loop of readi. */
  method ReadLoop(f: FileSystem, i: nat, off: nat, m: nat, trans: bool) returns (ok: bool, dst: seq<Byte>)
    requires f.Valid() && i < f.sb.ninodes && f.inodes[i].typ != 0 && off + m <= f.inodes[i].size
    modifies f`blocks, f`inodes, f`owner, f`logged
    ensures ok ==> f.Valid() && Grown(f.sb, old(f.St()), old(f.owner), f.St(), f.owner, i)
    ensures var need := SpanNeed(old(f.St()), i, off, m);
      && (!ok ==> m > 0)
      && (!ok ==> off + m > MAXFILE * BSIZE || |old(f.owner)| + need > f.sb.nblocks || (!trans && need > 0))
      && (ok && m > 0 ==> off + m <= MAXFILE * BSIZE)
      && (ok ==> |f.owner| == |old(f.owner)| + need && (need > 0 ==> trans))
      && (ok && need == 0 ==> f.St() == old(f.St()) && f.owner == old(f.owner) && f.logged == old(f.logged))
    ensures ok ==> dst == old(Bytes(f.St(), i))[off..off + m] && Bytes(f.St(), i) == old(Bytes(f.St(), i))
  {
    hide Slot, SlotsOk, BitsOk, BitAt, Grown, Bytes, BlockOf, Reading, NeedOf, Covers, FreeOnesEmpty;
    hide SpanNeed, EndBlock;
    dst := [];
    ghost var lo: nat, hi: nat := off / BSIZE, off / BSIZE;
    ReadingSelf(f, i, lo);
    CoversNone(off, m);
    NoNeedYet(f.St(), i, lo);
    while |dst| < m
      invariant Reading(f, old(f.St()), old(f.owner), old(f.logged), i, lo, hi) && Covers(off, m, |dst|, hi)
      invariant NeedOf(old(f.St()), i, lo, hi) > 0 ==> trans
      invariant |dst| <= m && dst == old(Bytes(f.St(), i))[off..off + |dst|]
      decreases m - |dst|
    {
      var cur := off + |dst|;
      CoversOn(off, m, |dst|, hi);
      SpanMore(old(f.St()), i, off, m, hi);
      var b := ReadBlock(f, old(f.St()), old(f.owner), old(f.logged), i, lo, cur / BSIZE, trans);
      if !b.Mapped? {
        return false, [];
      }
      hi := hi + 1;
      var k := Min(m - |dst|, BSIZE - cur % BSIZE);
      PieceRead(f.St(), i, off, cur, k, dst);
      dst := dst + f.blocks[b.addr][cur % BSIZE..cur % BSIZE + k];
    }
    ReadAll(f, old(f.St()), old(f.owner), old(f.logged), i, off, m, hi);
    return true, dst;
  }

  lemma NoNeedYet(fs: Fs, i: nat, lo: nat)
    requires i < |fs.inodes| && |fs.inodes[i].addrs| == NDIRECT + 1 && fs.inodes[i].addrs[NDIRECT] < |fs.blocks|
    ensures NeedOf(fs, i, lo, lo) == 0
  {
  }

  /** readi: the result is a slice of the file's bytes as they were, and the file has the same bytes after it. A
      file block without an address reads as zeros and gets a block; readi panics when there are too few, when no
      operation is under way to log them, or when the size says there is more than the largest file. It changes
      nothing if it meets no hole. `trans` says whether an operation is under way. */
  method Readi(f: FileSystem, i: nat, off: Uint, n: Uint, trans: bool) returns (r: Io, dst: seq<Byte>)
    requires f.Valid() && i < f.sb.ninodes && f.inodes[i].typ != 0
    modifies f`blocks, f`inodes, f`owner, f`logged
    ensures !r.Panic? ==> f.Valid() && Grown(f.sb, old(f.St()), old(f.owner), f.St(), f.owner, i)
    ensures r.Device? <==> old(f.inodes[i].typ) == T_DEV
    ensures r.Failed? <==> old(f.inodes[i].typ) != T_DEV && (off > old(f.inodes[i].size) || off + n >= UINT_LIMIT)
    ensures r.Device? || r.Failed? ==> f.St() == old(f.St()) && f.owner == old(f.owner) && f.logged == old(f.logged)
    ensures old(f.inodes[i].typ) != T_DEV && off <= old(f.inodes[i].size) && off + n < UINT_LIMIT ==>
      var m, fs := Min(n, old(f.inodes[i].size) - off), old(f.St());
      var need := SpanNeed(fs, i, off, m);
      && (r.Panic? <==>
            m > 0 && (off + m > MAXFILE * BSIZE || |FreeBlocks(f.sb, fs.blocks)| < need || (need > 0 && !trans)))
      && (r.Done? ==>
            && r.n == |dst| == m && dst == Bytes(fs, i)[off..off + m] && Bytes(f.St(), i) == Bytes(fs, i)
            && |FreeBlocks(f.sb, f.blocks)| == |FreeBlocks(f.sb, fs.blocks)| - need
            && (need == 0 ==> f.St() == fs && f.owner == old(f.owner) && f.logged == old(f.logged)))
  {
    hide Slot, SlotsOk, BitsOk, BitAt, Grown, Bytes, ByteAt, FreeBlocks, SpanNeed;
    var size := f.inodes[i].size;
    GrownSelf(f.sb, f.St(), f.owner, i);
    FreeCount(f.sb, f.St(), f.owner);
    if f.inodes[i].typ == T_DEV {
      return Device, [];
    }
    if off > size || (off + n) % UINT_LIMIT < off {
      return Failed, [];
    }
    var m := n;
    if off + n > size {
      m := size - off;
    }
    var ok;
    ok, dst := ReadLoop(f, i, off, m, trans);
    if !ok {
      return Panic, [];
    }
    FreeCount(f.sb, f.St(), f.owner);
    return Done(m), dst;
  }
}
