/** filewrite of file.c: a write cut into chunks, one transaction each. */
module FileWrite {
  import opened Machine
  import opened Blocks
  import opened RedoLog
  import opened FsLayout
  import opened Ownership
  import opened FileContents
  import opened FsCode
  import opened FileSpan
  import opened FileIo

  /** The largest chunk, `((LOGSIZE-1-1-2) / 2) * 512` (see ChunkBound). */
  const CHUNK := 6656

  // ---------------------------------------------------------------- how much one chunk logs

  /** The file blocks that n > 0 bytes at `off` lie in. */
  function Touched(off: nat, n: nat): (t: nat)
    requires n > 0
  {
    (off + n - 1) / BSIZE - off / BSIZE + 1
  }

  /** The disk blocks of file blocks lo..hi. */
  ghost function DataBlocks(sb: Super, fs: Fs, i: nat, lo: nat, hi: nat): (s: set<nat>)
    requires ShapeOk(sb, fs) && i < sb.ninodes && lo <= hi <= MAXFILE
    decreases hi
  {
    if lo == hi then {} else DataBlocks(sb, fs, i, lo, hi - 1) + {BlockOf(fs, i, hi - 1)}
  }

  lemma {:induction false} DataBlocksHas(sb: Super, fs: Fs, i: nat, lo: nat, hi: nat, b: nat)
    requires ShapeOk(sb, fs) && i < sb.ninodes && lo <= hi <= MAXFILE
    ensures b in DataBlocks(sb, fs, i, lo, hi) <==> exists bn: nat :: lo <= bn < hi && BlockOf(fs, i, bn) == b
    decreases hi
  {
    hide Slot;
    if lo < hi {
      DataBlocksHas(sb, fs, i, lo, hi - 1, b);
      if b in DataBlocks(sb, fs, i, lo, hi) && b !in DataBlocks(sb, fs, i, lo, hi - 1) {
        assert BlockOf(fs, i, hi - 1) == b;
      }
    }
  }

  lemma {:induction false} DataBlocksCount(sb: Super, fs: Fs, owner: map<nat, Ref>, i: nat, lo: nat, hi: nat)
    requires OwnedBy(sb, fs, owner, {}, NoGap) && i < sb.ninodes && lo <= hi <= MAXFILE
    requires forall bn: nat :: lo <= bn < hi ==> BlockOf(fs, i, bn) != 0
    ensures |DataBlocks(sb, fs, i, lo, hi)| == hi - lo
    decreases hi
  {
    hide Slot, BitsOk, SlotsOk;
    if lo < hi {
      DataBlocksCount(sb, fs, owner, i, lo, hi - 1);
      LastIsNew(sb, fs, owner, i, lo, hi);
    }
  }

  lemma LastIsNew(sb: Super, fs: Fs, owner: map<nat, Ref>, i: nat, lo: nat, hi: nat)
    requires OwnedBy(sb, fs, owner, {}, NoGap) && i < sb.ninodes && lo < hi <= MAXFILE && BlockOf(fs, i, hi - 1) != 0
    ensures BlockOf(fs, i, hi - 1) !in DataBlocks(sb, fs, i, lo, hi - 1)
  {
    hide Slot, BitsOk, SlotsOk, DataBlocks;
    var b := BlockOf(fs, i, hi - 1);
    DataBlocksHas(sb, fs, i, lo, hi - 1, b);
    forall bn: nat | lo <= bn < hi - 1
      ensures BlockOf(fs, i, bn) != b
    {
      OwnedSlot(sb, fs, owner, i, SlotOf(hi - 1));
      if BlockOf(fs, i, bn) == b {
        OwnedSlot(sb, fs, owner, i, SlotOf(bn));
      }
    }
  }

  /** The blocks that a write over file blocks lo..hi has logged, bitmap and indirect block included, are counted. */
  lemma SpanLogged(sb: Super, fs: Fs, fs1: Fs, owner1: map<nat, Ref>, span: set<nat>, i: nat, lo: nat, hi: nat)
    requires ShapeOk(sb, fs) && OwnedBy(sb, fs1, owner1, {}, NoGap) && i < sb.ninodes && lo <= hi <= MAXFILE
    requires sb.DataStart() == sb.bmapstart + 1
    requires LogsSpan(sb, fs, fs1, {}, span, i, lo, hi) && MappedOver(sb, fs, fs1, i, lo, hi)
    ensures |span|
         == hi - lo + (if NeedOf(fs, i, lo, hi) > 0 then 1 else 0) + (if EntryHole(sb, fs, i, lo, hi) then 1 else 0)
    ensures sb.IBlock(i) !in span
  {
    hide Slot, BitsOk, SlotsOk, DataBlocks, NeedOf, EntryHole, LogsSpan, MappedOver, BlockOf, BitmapIf, IndirectIf;
    var data := DataBlocks(sb, fs1, i, lo, hi);
    var bits, ind := BitmapIf(sb, NeedOf(fs, i, lo, hi) > 0), IndirectIf(fs1, i, EntryHole(sb, fs, i, lo, hi));
    SpanApart(sb, fs, fs1, owner1, i, lo, hi);
    forall b: nat
      ensures b in span <==> b in data || b in bits || b in ind
    {
      SpanHas(sb, fs, fs1, span, i, lo, hi, b);
    }
    AddUp(span, data, bits, ind);
  }

  lemma AddUp(all: set<nat>, a: set<nat>, b: set<nat>, c: set<nat>)
    requires a !! b && a !! c && b !! c && forall x: nat :: x in all <==> x in a || x in b || x in c
    ensures |all| == |a| + |b| + |c|
  {
    assert all == a + b + c;
  }

  ghost function BitmapIf(sb: Super, yes: bool): (s: set<nat>)
    ensures |s| == if yes then 1 else 0
    ensures forall b :: b in s ==> b == sb.bmapstart
  {
    if yes then {sb.bmapstart} else {}
  }

  ghost function IndirectIf(fs: Fs, i: nat, yes: bool): (s: set<nat>)
    requires i < |fs.inodes| && |fs.inodes[i].addrs| == NDIRECT + 1 && fs.inodes[i].addrs[NDIRECT] < |fs.blocks|
    ensures |s| == if yes then 1 else 0
  {
    if yes then {Slot(fs, i, NDIRECT)} else {}
  }

  /** Data blocks, the bitmap, the indirect block and the inode block are different blocks. */
  lemma SpanApart(sb: Super, fs: Fs, fs1: Fs, owner1: map<nat, Ref>, i: nat, lo: nat, hi: nat)
    requires ShapeOk(sb, fs) && OwnedBy(sb, fs1, owner1, {}, NoGap) && i < sb.ninodes && lo <= hi <= MAXFILE
    requires sb.DataStart() == sb.bmapstart + 1 && MappedOver(sb, fs, fs1, i, lo, hi)
    ensures var data := DataBlocks(sb, fs1, i, lo, hi); var ind := IndirectIf(fs1, i, EntryHole(sb, fs, i, lo, hi));
      && (forall b :: b in data || b in ind ==> sb.Data(b) && b != sb.bmapstart && b != sb.IBlock(i))
      && data !! ind && sb.IBlock(i) != sb.bmapstart && |data| == hi - lo
  {
    hide Slot, BitsOk, SlotsOk, DataBlocks, EntryHole;
    InodeBlockIsMeta(sb, i);
    DataBlocksCount(sb, fs1, owner1, i, lo, hi);
    forall b | b in DataBlocks(sb, fs1, i, lo, hi)
      ensures sb.Data(b) && b in owner1 && owner1[b].k != NDIRECT
    {
      DataBlocksHas(sb, fs1, i, lo, hi, b);
      var bn: nat :| lo <= bn < hi && BlockOf(fs1, i, bn) == b;
      OwnedSlot(sb, fs1, owner1, i, SlotOf(bn));
    }
    if EntryHole(sb, fs, i, lo, hi) {
      EntryMeansIndirect(sb, fs, i, lo, hi);
      OwnedSlot(sb, fs1, owner1, i, NDIRECT);
    }
  }

  lemma SpanHas(sb: Super, fs: Fs, fs1: Fs, span: set<nat>, i: nat, lo: nat, hi: nat, b: nat)
    requires ShapeOk(sb, fs) && ShapeOk(sb, fs1) && i < sb.ninodes && lo <= hi <= MAXFILE
    requires sb.DataStart() == sb.bmapstart + 1 && LogsSpan(sb, fs, fs1, {}, span, i, lo, hi)
    ensures b in span <==>
      || b in DataBlocks(sb, fs1, i, lo, hi)
      || b in BitmapIf(sb, NeedOf(fs, i, lo, hi) > 0)
      || b in IndirectIf(fs1, i, EntryHole(sb, fs, i, lo, hi))
  {
    hide Slot, DataBlocks, NeedOf, EntryHole;
    DataBlocksHas(sb, fs1, i, lo, hi, b);
  }

  /** How many blocks a chunk of n bytes at `off` logs, for a file of `size` bytes without holes: the data blocks,
      the bitmap if it allocates, the inode if it grows, the indirect block if an entry is added. */
  function ChunkLogged(size: nat, off: nat, n: nat): (c: nat)
    requires n > 0
  {
    Touched(off, n)
    + (if WriteNeed(size, off + n) > 0 then 1 else 0)
    + (if off + n > size then 1 else 0)
    + (if BlocksFor(Max(size, off + n)) > Max(BlocksFor(size), NDIRECT) then 1 else 0)
  }

  /** In a file without holes, an entry is added exactly when the file gets a block beyond the direct ones. */
  lemma EntryIff(sb: Super, fs: Fs, i: nat, off: nat, n: nat)
    requires ShapeOk(sb, fs) && i < sb.ninodes && NoHoles(fs, i)
    requires n > 0 && off <= fs.inodes[i].size && off + n <= MAXFILE * BSIZE
    ensures EntryHole(sb, fs, i, off / BSIZE, EndBlock(off, n)) <==>
      BlocksFor(Max(fs.inodes[i].size, off + n)) > Max(BlocksFor(fs.inodes[i].size), NDIRECT)
  {
    hide Slot;
    var nb, lo, hi := BlocksFor(fs.inodes[i].size), off / BSIZE, EndBlock(off, n);
    EndBlocks(fs.inodes[i].size, off, n);
    assert forall bn: nat :: bn < MAXFILE ==> (BlockOf(fs, i, bn) == 0 <==> bn >= nb);
    if hi > nb && hi > NDIRECT {
      assert BlockOf(fs, i, hi - 1) == 0;
    }
  }

  lemma SplicedLog(f: FileSystem, fs: Fs, owner: map<nat, Ref>, logged: set<nat>, i: nat, off: nat,
                   data: seq<Byte>, span: set<nat>)
    requires ShapeOk(f.sb, fs) && i < f.sb.ninodes && off <= fs.inodes[i].size && off + |data| <= MAXFILE * BSIZE
    requires Splices(f, fs, owner, logged, i, off, data, span) && |data| > 0
    ensures f.Valid() && off / BSIZE <= EndBlock(off, |data|) <= MAXFILE
    ensures Touched(off, |data|) == EndBlock(off, |data|) - off / BSIZE
    ensures SpanNeed(fs, i, off, |data|) == NeedOf(fs, i, off / BSIZE, EndBlock(off, |data|))
    ensures MappedOver(f.sb, fs, f.St(), i, off / BSIZE, EndBlock(off, |data|))
    ensures LogsSpan(f.sb, fs, f.St(), logged, span, i, off / BSIZE, EndBlock(off, |data|))
    ensures f.logged == span + if off + |data| > fs.inodes[i].size then {f.sb.IBlock(i)} else {}
  {
    hide Slot, SlotsOk, BitsOk, Untouched, NeedOf, LogsSpan, MappedOver, Bytes, Splice, Stored;
    EndOfFits(off, |data|);
  }

  lemma ChunkLogs(f: FileSystem, fs: Fs, owner: map<nat, Ref>, i: nat, off: nat, data: seq<Byte>, span: set<nat>)
    requires ShapeOk(f.sb, fs) && i < f.sb.ninodes && off <= fs.inodes[i].size && off + |data| <= MAXFILE * BSIZE
    requires |data| > 0 && NoHoles(fs, i) && f.sb.DataStart() == f.sb.bmapstart + 1
    requires Splices(f, fs, owner, {}, i, off, data, span)
    ensures |f.logged| == ChunkLogged(fs.inodes[i].size, off, |data|)
  {
    hide Slot, BitsOk, SlotsOk, NeedOf, LogsSpan, MappedOver, EntryHole, WriteNeed, Splices, BlocksFor, Touched;
    hide SpanNeed, EndBlock, NoHoles;
    SplicedLog(f, fs, owner, {}, i, off, data, span);
    SpanLogged(f.sb, fs, f.St(), f.owner, span, i, off / BSIZE, EndBlock(off, |data|));
    EntryIff(f.sb, fs, i, off, |data|);
    WholeNeed(fs, i, off, |data|);
  }

  /** Whatever its offset, a chunk logs at most CHUNKBLOCKS blocks, and one does. */
  lemma ChunkBound(size: nat, off: nat, n: nat)
    requires 0 < n <= CHUNK
    ensures CHUNK == (LOGSIZE - 1 - 1 - 2) / 2 * 512
    ensures Touched(off, n) <= ChunkLogged(size, off, n) <= CHUNKBLOCKS
    ensures ChunkLogged(13 * BSIZE - 1, 13 * BSIZE - 1, CHUNK) == CHUNKBLOCKS
    ensures Touched(off, n) > MAXOPBLOCKS <==> off % BSIZE + n > MAXOPBLOCKS * BSIZE
  {
    hide WriteNeed;
    assert Touched(off, n) <= 14;
    NeedThen(13 * BSIZE - 1, 13 * BSIZE - 1 + CHUNK);
  }

  lemma NeedThen(size: nat, end: nat)
    requires BlocksFor(end) > BlocksFor(size)
    ensures WriteNeed(size, end) > 0
  {
  }

  /** A chunk written at the end of a file whose last block is full logs more than begin_op reserved for it exactly
      when it is longer than eight blocks, or seven where it adds an entry to the indirect block. */
  lemma AppendOver(size: nat, n: nat)
    requires 0 < n <= CHUNK && size % BSIZE == 0
    ensures ChunkLogged(size, size, n) > MAXOPBLOCKS <==>
      n > if size + n > NDIRECT * BSIZE then 7 * BSIZE else 8 * BSIZE
  {
    hide WriteNeed;
    NeedThen(size, size + n);
  }

  // ---------------------------------------------------------------- the loop

  /** An inode at rest: whole, and the same in memory and on disk. */
  ghost predicate Resting(f: FileSystem, i: nat)
    reads f
    ensures Resting(f, i) ==>
      && i < |f.inodes| && |f.inodes[i].addrs| == NDIRECT + 1 && f.inodes[i].addrs[NDIRECT] < |f.blocks|
      && f.inodes[i].size <= MAXFILE * BSIZE && f.sb.Ok() && |f.blocks| == f.sb.size
  {
    && f.Valid() && i < f.sb.ninodes && f.inodes[i].typ != 0
    && NoHoles(f.St(), i) && Stored(f.sb, f.blocks, i) == f.inodes[i]
  }

  /** `now` is the file `was` with the first `done` bytes of `data` written at `off`. */
  ghost predicate Progress(now: seq<Byte>, was: seq<Byte>, off: nat, data: seq<Byte>, done: nat)
  {
    && done <= |data|
    && (done == 0 ==> now == was)
    && (done > 0 ==> off <= |was| && now == Splice(was, off, data[..done]))
  }

  lemma ProgressStep(now: seq<Byte>, next: seq<Byte>, was: seq<Byte>, off: nat, data: seq<Byte>, done: nat, n1: nat)
    requires Progress(now, was, off, data, done) && done + n1 <= |data| && n1 > 0
    requires off + done <= |now| && next == Splice(now, off + done, data[done..done + n1])
    ensures Progress(next, was, off, data, done + n1)
  {
    hide Splice;
    assert data[..done] + data[done..done + n1] == data[..done + n1];
    if done > 0 {
      SpliceTwice(was, off, data[..done], data[done..done + n1]);
    }
  }

  /** How many blocks are free. */
  ghost function Free(sb: Super, blocks: seq<Block>): nat
    requires sb.Ok() && |blocks| == sb.size
  {
    |FreeBlocks(sb, blocks)|
  }

  /** begin_op, ilock, writei, iunlock, end_op: one chunk, one transaction. */
  method WriteChunk(f: FileSystem, i: nat, pos: Uint, chunk: seq<Byte>) returns (r: Io)
    requires Resting(f, i) && 0 < |chunk| <= CHUNK && f.sb.DataStart() == f.sb.bmapstart + 1
    modifies f
    ensures !r.Panic? ==> Resting(f, i) && f.inodes[i].typ == old(f.inodes[i].typ)
    ensures r.Device? <==> old(f.inodes[i].typ) == T_DEV
    ensures r.Failed? <==>
      old(f.inodes[i].typ) != T_DEV && !(pos <= old(f.inodes[i].size) && pos + |chunk| <= MAXFILE * BSIZE)
    ensures r.Panic? <==>
      && old(f.inodes[i].typ) != T_DEV && pos <= old(f.inodes[i].size) && pos + |chunk| <= MAXFILE * BSIZE
      && Free(f.sb, old(f.blocks)) < WriteNeed(old(f.inodes[i].size), pos + |chunk|)
    ensures r.Device? || r.Failed? ==> f.St() == old(f.St())
    ensures r.Done? ==> r.n == |chunk| && f.inodes[i].size == Max(old(f.inodes[i].size), pos + |chunk|)
    ensures r.Done? ==>
      Free(f.sb, f.blocks) == Free(f.sb, old(f.blocks)) - WriteNeed(old(f.inodes[i].size), pos + |chunk|)
    ensures r.Done? ==> Bytes(f.St(), i) == Splice(old(Bytes(f.St(), i)), pos, chunk)
    ensures r.Done? ==> |f.logged| == ChunkLogged(old(f.inodes[i].size), pos, |chunk|) <= CHUNKBLOCKS
  {
    hide Slot, SlotsOk, BitsOk, BitAt, NoHoles, Splices, Bytes, Splice, FreeBlocks, WriteNeed, SpanNeed, ChunkLogged;
    f.logged := {};
    ghost var fs := f.St();
    ghost var span;
    if pos <= f.inodes[i].size && pos + |chunk| <= MAXFILE * BSIZE {
      WholeNeed(fs, i, pos, |chunk|);
    }
    FreeCount(f.sb, fs, f.owner);
    r, span := Writei(f, i, chunk, pos);
    if r.Done? {
      WholeStays(f, fs, old(f.owner), {}, i, pos, chunk, span);
      ChunkLogs(f, fs, old(f.owner), i, pos, chunk, span);
      ChunkBound(fs.inodes[i].size, pos, |chunk|);
      SplicedParts(f, fs, old(f.owner), {}, i, pos, chunk, span);
      FreeCount(f.sb, f.St(), f.owner);
    }
  }

  /** How many of `total` bytes at `off` come before the first chunk that does not fit in the file. */
  function Fitting(off: nat, total: nat): (n: nat)
    requires off <= MAXFILE * BSIZE
    ensures n <= total && off + n <= MAXFILE * BSIZE && (n < total <==> off + total > MAXFILE * BSIZE)
    ensures n % CHUNK == 0 || n == total
    ensures n < total ==> off + n + Min(total - n, CHUNK) > MAXFILE * BSIZE
  {
    if off + total <= MAXFILE * BSIZE then total else (MAXFILE * BSIZE - off) / CHUNK * CHUNK
  }

  /** filewrite on an inode: on success all the bytes are in the file, in order. On failure whole
      chunks may already be there; they stay, and the file offset has moved past them. Which of the four
      it is depends on the inode's type and size and on the number of free blocks alone. No chunk logs
      more than CHUNKBLOCKS blocks (`most` is the largest number any chunk logged). */
  method FileWriteInode(f: FileSystem, i: nat, off: Uint, data: seq<Byte>)
    returns (r: Io, done: nat, pos: nat, ghost most: nat)
    requires Resting(f, i) && |data| < 0x8000_0000 && f.sb.DataStart() == f.sb.bmapstart + 1
    modifies f
    ensures !r.Panic? ==>
      Resting(f, i) && Progress(Bytes(f.St(), i), old(Bytes(f.St(), i)), off, data, done) && pos == off + done
    ensures r.Done? ==> r.n == done == |data|
    ensures r.Device? ==> done == 0
    ensures r.Failed? ==> done == if off <= old(f.inodes[i].size) then Fitting(off, |data|) else 0
    ensures var size, free := old(f.inodes[i].size), old(Free(f.sb, f.blocks));
      && (r.Device? <==> |data| > 0 && old(f.inodes[i].typ) == T_DEV)
      && (r.Panic? <==>
            && |data| > 0 && old(f.inodes[i].typ) != T_DEV && off <= size
            && free < WriteNeed(size, off + Fitting(off, |data|)))
      && (r.Failed? <==>
            && |data| > 0 && old(f.inodes[i].typ) != T_DEV
            && (off > size || (off + |data| > MAXFILE * BSIZE && WriteNeed(size, off + Fitting(off, |data|)) <= free)))
    ensures most <= CHUNKBLOCKS
  {
    hide Resting, Bytes, Splice, Progress, Touched, Free, WriteNeed;
    ghost var was, size, free := Bytes(f.St(), i), f.inodes[i].size, Free(f.sb, f.blocks);
    done, pos, most := 0, off, 0;
    assert Progress(was, was, off, data, 0) by { NoProgress(was, off, data); }
    NeedNone(size);
    while done < |data|
      invariant Resting(f, i) && done <= |data|
      invariant Progress(Bytes(f.St(), i), was, off, data, done) && pos == off + done
      invariant done % CHUNK == 0 || done == |data|
      invariant f.inodes[i].typ == old(f.inodes[i].typ)
      invariant done == 0 ==> f.St() == old(f.St())
      invariant done > 0 ==> f.inodes[i].typ != T_DEV && off <= size && pos <= MAXFILE * BSIZE
      invariant done > 0 ==> f.inodes[i].size == Max(size, pos) && Free(f.sb, f.blocks) + WriteNeed(size, pos) == free
      invariant most <= CHUNKBLOCKS
    {
      var n1 := Min(|data| - done, CHUNK);
      ChunkNext(done, |data|);
      ghost var now := Bytes(f.St(), i);
      if off <= size {
        FittingChunk(off, |data|, done);
        NeedAgain(size, pos, pos + n1, off + Fitting(off, |data|));
      }
      r := WriteChunk(f, i, pos, data[done..done + n1]);
      if !r.Done? {
        return;
      }
      ProgressStep(now, Bytes(f.St(), i), was, off, data, done, n1);
      most := Max(most, |f.logged|);
      done := done + n1;
      pos := pos + n1;
    }
    r := Done(done);
  }

  /** The loop meets a chunk that does not fit exactly when it has written all that does. */
  lemma FittingChunk(off: nat, total: nat, done: nat)
    requires off <= MAXFILE * BSIZE && done < total && done % CHUNK == 0 && off + done <= MAXFILE * BSIZE
    ensures var n1 := Min(total - done, CHUNK);
      if off + done + n1 > MAXFILE * BSIZE then done == Fitting(off, total) else done + n1 <= Fitting(off, total)
  {
  }

  lemma NeedNone(size: nat)
    ensures WriteNeed(size, size) == 0
  {
  }

  /** Blocks taken chunk by chunk add up to the blocks that the whole write takes. */
  lemma NeedAgain(size: nat, pos: nat, next: nat, end: nat)
    requires pos <= next
    ensures WriteNeed(size, next) == WriteNeed(size, pos) + WriteNeed(Max(size, pos), next)
    ensures next <= end ==> WriteNeed(size, next) <= WriteNeed(size, end)
  {
    hide Occupies, BlocksFor;
    if next <= end {
      NeedGrows(size, next, end);
    }
  }

  /** Every chunk but the last is whole. */
  lemma ChunkNext(done: nat, total: nat)
    requires done < total && done % CHUNK == 0
    ensures var n1 := Min(total - done, CHUNK);
      0 < n1 <= CHUNK && done + n1 <= total && ((done + n1) % CHUNK == 0 || done + n1 == total)
  {
  }

  lemma NoProgress(was: seq<Byte>, off: nat, data: seq<Byte>)
    ensures Progress(was, was, off, data, 0)
  {
  }
}
