/** writei: the file is a byte sequence that the call splices into. */
module FileIo {
  import opened Machine
  import opened Blocks
  import opened FsLayout
  import opened Ownership
  import opened FileContents
  import opened FsCode
  import opened FileSpan

  /** The outcome of a read or write: a byte count, -1, a call into a device driver, or a kernel panic. */
  datatype Io = Done(n: nat) | Failed | Device | Panic

  // ---------------------------------------------------------------- the other files

  /** Blocks of the other inodes keep their owner and their contents. */
  ghost predicate Untouched(sb: Super, fs: Fs, owner: map<nat, Ref>, fs': Fs, owner': map<nat, Ref>, i: nat)
  {
    && |fs.blocks| == |fs'.blocks| == sb.size && |fs.inodes| == |fs'.inodes| == sb.ninodes
    && (forall j: nat :: j < sb.ninodes && j != i ==> fs'.inodes[j] == fs.inodes[j])
    && (forall b: nat :: b in owner && b < sb.size && owner[b].i != i ==>
          b in owner' && owner'[b] == owner[b] && fs'.blocks[b] == fs.blocks[b])
    && (forall b: nat :: b in owner' && owner'[b].i != i ==> b in owner && owner[b] == owner'[b])
  }

  lemma UntouchedTwice(sb: Super, fs: Fs, own: map<nat, Ref>, fs1: Fs, own1: map<nat, Ref>, fs2: Fs,
                       own2: map<nat, Ref>, i: nat)
    requires Untouched(sb, fs, own, fs1, own1, i) && Untouched(sb, fs1, own1, fs2, own2, i)
    ensures Untouched(sb, fs, own, fs2, own2, i)
  {
  }

  lemma GrownUntouched(sb: Super, fs: Fs, owner: map<nat, Ref>, fs1: Fs, owner1: map<nat, Ref>, i: nat, a: nat,
                       data: Block)
    requires OwnedBy(sb, fs, owner, {}, NoGap) && OwnedBy(sb, fs1, owner1, {}, NoGap)
    requires Grown(sb, fs, owner, fs1, owner1, i)
    requires a in owner1 && sb.Data(a) && owner1[a].i == i
    ensures Untouched(sb, fs, owner, fs1.(blocks := fs1.blocks[a := data]), owner1, i)
    ensures SameInodes(sb, fs.blocks, fs1.blocks[a := data])
  {
    hide SlotsOk, BitsOk;
  }

  /** What every other file sees is unchanged. */
  lemma UntouchedBytes(sb: Super, fs: Fs, owner: map<nat, Ref>, fs': Fs, owner': map<nat, Ref>, i: nat, j: nat)
    requires OwnedBy(sb, fs, owner, {}, NoGap) && Untouched(sb, fs, owner, fs', owner', i) && ShapeOk(sb, fs')
    requires j < sb.ninodes && j != i
    ensures Bytes(fs', j) == Bytes(fs, j) && (NoHoles(fs, j) ==> NoHoles(fs', j))
  {
    hide Slot, BitsOk, SlotsOk;
    IndirectIsOwned(sb, fs, owner, NoGap, j);
    assert forall k: nat :: k < NSLOTS ==> Slot(fs', j, k) == Slot(fs, j, k) by {
      forall k: nat | k < NSLOTS
        ensures Slot(fs', j, k) == Slot(fs, j, k)
      {
        SlotFrame(fs, fs', j, k);
      }
    }
    forall p: nat | p < fs.inodes[j].size
      ensures ByteAt(fs', j, p) == ByteAt(fs, j, p)
    {
      if p / BSIZE < MAXFILE && BlockOf(fs, j, p / BSIZE) != 0 {
        OwnedSlot(sb, fs, owner, j, SlotOf(p / BSIZE));
      }
    }
  }

  // ---------------------------------------------------------------- the bytes

  /** `data` is in the file at `off` and every other byte is as it was. */
  ghost predicate Written(fs: Fs, fs': Fs, i: nat, off: nat, data: seq<Byte>)
    requires i < |fs.inodes| && |fs.inodes[i].addrs| == NDIRECT + 1 && fs.inodes[i].addrs[NDIRECT] < |fs.blocks|
    requires i < |fs'.inodes| && |fs'.inodes[i].addrs| == NDIRECT + 1 && fs'.inodes[i].addrs[NDIRECT] < |fs'.blocks|
  {
    forall p: nat :: ByteAt(fs', i, p) == if off <= p < off + |data| then data[p - off] else ByteAt(fs, i, p)
  }

  lemma WrittenTwice(fs: Fs, fs1: Fs, fs2: Fs, i: nat, off: nat, src: seq<Byte>, tot: nat, m: nat)
    requires i < |fs.inodes| && |fs.inodes[i].addrs| == NDIRECT + 1 && fs.inodes[i].addrs[NDIRECT] < |fs.blocks|
    requires i < |fs1.inodes| && |fs1.inodes[i].addrs| == NDIRECT + 1 && fs1.inodes[i].addrs[NDIRECT] < |fs1.blocks|
    requires i < |fs2.inodes| && |fs2.inodes[i].addrs| == NDIRECT + 1 && fs2.inodes[i].addrs[NDIRECT] < |fs2.blocks|
    requires tot + m <= |src| && Written(fs, fs1, i, off, src[..tot])
    requires Written(fs1, fs2, i, off + tot, src[tot..tot + m])
    ensures Written(fs, fs2, i, off, src[..tot + m])
  {
    hide ByteAt;
  }

  /** bmap of a file block, then new contents for part of it. */
  lemma PatchedBytes(f: FileSystem, fs: Fs, owner: map<nat, Ref>, fs1: Fs, owner1: map<nat, Ref>, i: nat, off: nat,
                     data: seq<Byte>)
    requires OwnedBy(f.sb, fs, owner, {}, NoGap) && OwnedBy(f.sb, fs1, owner1, {}, NoGap)
    requires i < f.sb.ninodes && Grown(f.sb, fs, owner, fs1, owner1, i) && off / BSIZE < MAXFILE
    requires var a := BlockOf(fs1, i, off / BSIZE);
      && f.SlotsBut(fs, fs1, i, off / BSIZE) && 0 < a < |fs1.blocks| && 0 < |data| <= BSIZE - off % BSIZE
      && (BlockOf(fs, i, off / BSIZE) != 0 ==> fs1 == fs)
      && (BlockOf(fs, i, off / BSIZE) == 0 ==> fs1.blocks[a] == ZeroBlock())
    ensures var a := BlockOf(fs1, i, off / BSIZE);
      var fs2 := fs1.(blocks := fs1.blocks[a := Patch(fs1.blocks[a], off % BSIZE, data)]);
      ShapeOk(f.sb, fs2) && Written(fs, fs2, i, off, data)
  {
    hide Slot, SlotsOk, BitsOk, Grown;
    var bn := off / BSIZE;
    var a := BlockOf(fs1, i, bn);
    var patched := Patch(fs1.blocks[a], off % BSIZE, data);
    var fs2 := fs1.(blocks := fs1.blocks[a := patched]);
    forall p: nat
      ensures ByteAt(fs2, i, p) == if off <= p < off + |data| then data[p - off] else ByteAt(fs, i, p)
    {
      if off <= p < off + |data| {
        assert p / BSIZE == bn && p % BSIZE == off % BSIZE + (p - off);
      } else if p / BSIZE == bn {
        assert p == bn * BSIZE + p % BSIZE && off == bn * BSIZE + off % BSIZE;
      }
      PatchBytes(f.sb, fs1, owner1, i, bn, patched, p);
      BmapSameByte(f, fs, owner, fs1, owner1, i, bn, p);
    }
  }

  // ---------------------------------------------------------------- the log

  /** b is the disk block of one of the file blocks lo..hi. */
  ghost predicate InSpan(sb: Super, fs: Fs, i: nat, lo: nat, hi: nat, b: nat)
    requires ShapeOk(sb, fs) && i < sb.ninodes
  {
    exists bn: nat :: lo <= bn < hi && bn < MAXFILE && BlockOf(fs, i, bn) == b
  }

  /** Among file blocks lo..hi there is a hole whose address goes into the indirect block. */
  ghost predicate EntryHole(sb: Super, fs: Fs, i: nat, lo: nat, hi: nat)
    requires ShapeOk(sb, fs) && i < sb.ninodes
  {
    exists bn: nat :: lo <= bn < hi && NDIRECT <= bn < MAXFILE && BlockOf(fs, i, bn) == 0
  }

  ghost predicate SomeBitmap(sb: Super, logged: set<nat>) { exists b :: b in logged && sb.Bitmap(b) }

  /** What writing file blocks lo..hi has passed to log_write, beside `before`: those blocks; a bitmap block and the
      indirect block exactly when a block was allocated and an entry filled. */
  ghost predicate LogsSpan(sb: Super, fs: Fs, fs1: Fs, before: set<nat>, logged: set<nat>, i: nat, lo: nat, hi: nat)
    requires ShapeOk(sb, fs) && ShapeOk(sb, fs1) && i < sb.ninodes && lo <= hi
  {
    && before <= logged
    && (forall b :: b in logged && b !in before ==>
         || InSpan(sb, fs1, i, lo, hi, b)
         || (sb.Bitmap(b) && NeedOf(fs, i, lo, hi) > 0)
         || (b == Slot(fs1, i, NDIRECT) && EntryHole(sb, fs, i, lo, hi)))
    && (forall bn: nat :: lo <= bn < hi && bn < MAXFILE ==> BlockOf(fs1, i, bn) in logged)
    && (NeedOf(fs, i, lo, hi) > 0 ==> SomeBitmap(sb, logged))
    && (EntryHole(sb, fs, i, lo, hi) ==> Slot(fs1, i, NDIRECT) in logged)
  }

  /** What writing file block bn has passed to log_write, beside `before`. */
  ghost predicate LogsBlock(sb: Super, fs1: Fs, before: set<nat>, logged: set<nat>, i: nat, bn: nat, hole: bool)
    requires ShapeOk(sb, fs1) && i < sb.ninodes && bn < MAXFILE
  {
    && before <= logged && BlockOf(fs1, i, bn) in logged
    && (forall b :: b in logged && b !in before ==>
         b == BlockOf(fs1, i, bn) || (hole && (sb.Bitmap(b) || (bn >= NDIRECT && b == Slot(fs1, i, NDIRECT)))))
    && (hole ==> SomeBitmap(sb, logged) && (bn >= NDIRECT ==> Slot(fs1, i, NDIRECT) in logged))
  }

  lemma LogsNone(sb: Super, fs: Fs, logged: set<nat>, i: nat, lo: nat)
    requires ShapeOk(sb, fs) && i < sb.ninodes
    ensures LogsSpan(sb, fs, fs, logged, logged, i, lo, lo)
  {
    hide Slot;
  }

  lemma LogsOn(sb: Super, fs: Fs, fs1: Fs, fs2: Fs, before: set<nat>, logged: set<nat>, logged': set<nat>, i: nat,
               lo: nat, bn: nat)
    requires ShapeOk(sb, fs) && ShapeOk(sb, fs1) && ShapeOk(sb, fs2) && i < sb.ninodes && lo <= bn < MAXFILE
    requires LogsSpan(sb, fs, fs1, before, logged, i, lo, bn)
    requires LogsBlock(sb, fs2, logged, logged', i, bn, BlockOf(fs, i, bn) == 0)
    requires MappedOver(sb, fs, fs1, i, lo, bn) && MappedOver(sb, fs, fs2, i, lo, bn + 1)
    requires forall c: nat :: lo <= c < bn ==> BlockOf(fs2, i, c) == BlockOf(fs1, i, c)
    requires Slot(fs1, i, NDIRECT) != 0 ==> Slot(fs2, i, NDIRECT) == Slot(fs1, i, NDIRECT)
    ensures LogsSpan(sb, fs, fs2, before, logged', i, lo, bn + 1)
  {
    hide Slot, NeedOf, BmapNeed, EntryHole, SomeBitmap;
    NeedOn(sb, fs, fs1, i, lo, bn);
    EntryHoleOn(sb, fs, i, lo, bn);
    StillBitmap(sb, logged, logged');
    if EntryHole(sb, fs, i, lo, bn) {
      EntryMeansIndirect(sb, fs, i, lo, bn);
    }
    forall b | b in logged' && b !in before
      ensures
        || InSpan(sb, fs2, i, lo, bn + 1, b)
        || (sb.Bitmap(b) && NeedOf(fs, i, lo, bn + 1) > 0)
        || (b == Slot(fs2, i, NDIRECT) && EntryHole(sb, fs, i, lo, bn + 1))
    {
      if b in logged && InSpan(sb, fs1, i, lo, bn, b) {
        var c: nat :| lo <= c < bn && c < MAXFILE && BlockOf(fs1, i, c) == b;
        assert BlockOf(fs2, i, c) == b;
      } else if b == BlockOf(fs2, i, bn) {
        assert InSpan(sb, fs2, i, lo, bn + 1, b);
      }
    }
  }

  lemma StillBitmap(sb: Super, logged: set<nat>, logged': set<nat>)
    requires logged <= logged'
    ensures SomeBitmap(sb, logged) ==> SomeBitmap(sb, logged')
  {
  }

  lemma EntryMeansIndirect(sb: Super, fs: Fs, i: nat, lo: nat, hi: nat)
    requires ShapeOk(sb, fs) && i < sb.ninodes && EntryHole(sb, fs, i, lo, hi)
    ensures lo < hi && hi > NDIRECT
  {
    hide Slot;
  }

  lemma EntryHoleOn(sb: Super, fs: Fs, i: nat, lo: nat, bn: nat)
    requires ShapeOk(sb, fs) && i < sb.ninodes && lo <= bn < MAXFILE
    ensures EntryHole(sb, fs, i, lo, bn + 1) <==>
      EntryHole(sb, fs, i, lo, bn) || (bn >= NDIRECT && BlockOf(fs, i, bn) == 0)
  {
    hide Slot;
  }

  // ---------------------------------------------------------------- one block

  /** A write that began at (fs, owner, logged) has written file blocks lo..hi. */
  ghost predicate Writing(f: FileSystem, fs: Fs, owner: map<nat, Ref>, logged: set<nat>, i: nat, lo: nat, hi: nat)
    reads f
    ensures Writing(f, fs, owner, logged, i, lo, hi) ==>
      && f.Valid() && i < f.sb.ninodes && f.inodes[i].typ != 0 && ShapeOk(f.sb, fs) && lo <= hi
      && |f.owner| == |owner| + NeedOf(fs, i, lo, hi)
  {
    && f.Valid() && i < f.sb.ninodes && f.inodes[i].typ != 0 && ShapeOk(f.sb, fs) && lo <= hi
    && |f.owner| == |owner| + NeedOf(fs, i, lo, hi)
    && WrittenOver(f.sb, fs, owner, logged, f.St(), f.owner, f.logged, i, lo, hi)
  }

  /** The write has filled the addresses of file blocks lo..hi, touched no other inode, and logged those blocks. */
  ghost predicate WrittenOver(sb: Super, fs: Fs, owner: map<nat, Ref>, logged: set<nat>,
                              fs1: Fs, owner1: map<nat, Ref>, logged1: set<nat>, i: nat, lo: nat, hi: nat)
    requires ShapeOk(sb, fs) && ShapeOk(sb, fs1) && i < sb.ninodes && lo <= hi
  {
    && fs1.inodes[i] == fs.inodes[i].(addrs := fs1.inodes[i].addrs)
    && MappedOver(sb, fs, fs1, i, lo, hi)
    && Untouched(sb, fs, owner, fs1, owner1, i) && SameInodes(sb, fs.blocks, fs1.blocks)
    && LogsSpan(sb, fs, fs1, logged, logged1, i, lo, hi)
  }

  /** What bmap of block bn has done to the log. */
  ghost predicate BmapLogged(sb: Super, was: Fs, loggedWas: set<nat>, fs1: Fs, logged1: set<nat>, i: nat, bn: nat)
    requires ShapeOk(sb, was) && ShapeOk(sb, fs1) && i < sb.ninodes && bn < MAXFILE
    ensures BmapLogged(sb, was, loggedWas, fs1, logged1, i, bn) ==> BlockOf(fs1, i, bn) < |fs1.blocks|
  {
    var a, hole := BlockOf(fs1, i, bn), BlockOf(was, i, bn) == 0;
    && loggedWas <= logged1 && a != 0 && sb.Data(a) && (!hole ==> fs1 == was && logged1 == loggedWas)
    && (hole ==> forall b :: b in logged1 && b !in loggedWas ==>
          b == a || (bn >= NDIRECT && b == Slot(fs1, i, NDIRECT)) || sb.Bitmap(b))
    && (hole ==> sb.BBlock(a) in logged1 && (bn >= NDIRECT ==> Slot(fs1, i, NDIRECT) in logged1))
  }

  /** bmap of block bn, from `was` to fs1, and then new contents for it. */
  lemma OneMoreBlock(f: FileSystem, fs: Fs, owner: map<nat, Ref>, logged: set<nat>,
                     was: Fs, ownerWas: map<nat, Ref>, loggedWas: set<nat>,
                     fs1: Fs, owner1: map<nat, Ref>, logged1: set<nat>, i: nat, lo: nat, bn: nat, data: Block)
    requires ShapeOk(f.sb, fs) && OwnedBy(f.sb, was, ownerWas, {}, NoGap) && OwnedBy(f.sb, fs1, owner1, {}, NoGap)
    requires i < f.sb.ninodes && lo <= bn < MAXFILE
    requires WrittenOver(f.sb, fs, owner, logged, was, ownerWas, loggedWas, i, lo, bn)
    requires Grown(f.sb, was, ownerWas, fs1, owner1, i) && f.SlotsBut(was, fs1, i, bn)
    requires BmapLogged(f.sb, was, loggedWas, fs1, logged1, i, bn)
    ensures var a := BlockOf(fs1, i, bn); var fs2 := fs1.(blocks := fs1.blocks[a := data]);
      OwnedBy(f.sb, fs2, owner1, {}, NoGap)
      && WrittenOver(f.sb, fs, owner, logged, fs2, owner1, logged1 + {a}, i, lo, bn + 1)
  {
    hide Slot, SlotsOk, BitsOk, BitAt, Grown, Untouched, SameInodes, NeedOf, BmapNeed, LogsSpan, LogsBlock, MappedOver;
    var a := BlockOf(fs1, i, bn);
    var fs2 := fs1.(blocks := fs1.blocks[a := data]);
    GrownInode(f.sb, was, ownerWas, fs1, owner1, i);
    OwnedSlot(f.sb, fs1, owner1, i, SlotOf(bn));
    DataKeeps(f.sb, fs1, owner1, {}, NoGap, a, data);
    GrownUntouched(f.sb, was, ownerWas, fs1, owner1, i, a, data);
    UntouchedTwice(f.sb, fs, owner, was, ownerWas, fs2, owner1, i);
    SameTwice(f.sb, fs.blocks, was.blocks, fs2.blocks);
    MappedOn(f, fs, was, fs1, i, lo, bn);
    MappedSame(f.sb, fs, fs1, fs2, i, lo, bn + 1);
    NeedOn(f.sb, fs, was, i, lo, bn);
    BmapLogs(f, fs1, fs2, loggedWas, logged1, i, bn, BlockOf(was, i, bn) == 0, a);
    MappedKeeps(f, was, fs1, fs2, i, bn);
    LogsOn(f.sb, fs, was, fs2, logged, loggedWas, logged1 + {a}, i, lo, bn);
  }

  lemma WritingSelf(f: FileSystem, i: nat, lo: nat)
    requires f.Valid() && i < f.sb.ninodes && f.inodes[i].typ != 0
    ensures Writing(f, f.St(), f.owner, f.logged, i, lo, lo) && Written(f.St(), f.St(), i, lo, [])
  {
    hide Slot, SlotsOk, BitsOk, MappedOver, NeedOf, LogsSpan, ByteAt;
    MappedNone(f.sb, f.St(), i, lo);
    LogsNone(f.sb, f.St(), f.logged, i, lo);
  }

  /** One pass of writei's loop: at most the rest of one block. */
  method WriteBlock(f: FileSystem, ghost fs: Fs, ghost owner: map<nat, Ref>, ghost logged: set<nat>,
                    i: nat, ghost lo: nat, off: nat, data: seq<Byte>)
    returns (ok: bool)
    requires off / BSIZE < MAXFILE && 0 < |data| <= BSIZE - off % BSIZE
    requires Writing(f, fs, owner, logged, i, lo, off / BSIZE)
    modifies f`blocks, f`inodes, f`owner, f`logged
    ensures ok ==> Writing(f, fs, owner, logged, i, lo, off / BSIZE + 1)
    ensures ok ==> Written(old(f.St()), f.St(), i, off, data)
    ensures !ok ==> |owner| + NeedOf(fs, i, lo, off / BSIZE + 1) > f.sb.nblocks
  {
    hide Slot, SlotsOk, BitsOk, BitAt, Grown, FreeBlocks, ByteAt, NeedOf, BmapNeed, Written, WrittenOver, Patch;
    var bn := off / BSIZE;
    ghost var was, ownerWas, loggedWas := f.St(), f.owner, f.logged;
    SlotsSame(f, fs, owner, logged, i, lo, bn);
    NeedOn(f.sb, fs, was, i, lo, bn);
    FreeCount(f.sb, was, f.owner);
    var r := f.Bmap(i, bn);
    if !r.Mapped? {
      return false;
    }
    var a := r.addr;
    GrownInode(f.sb, was, ownerWas, f.St(), f.owner, i);
    SlotOfAddr(f.St(), i, NDIRECT);
    PatchedBytes(f, was, ownerWas, f.St(), f.owner, i, off, data);
    var patched := Patch(f.blocks[a], off % BSIZE, data);
    OneMoreBlock(f, fs, owner, logged, was, ownerWas, loggedWas, f.St(), f.owner, f.logged, i, lo, bn, patched);
    f.blocks := f.blocks[a := patched];
    f.logged := f.logged + {a};
    return true;
  }

  lemma SlotsSame(f: FileSystem, fs: Fs, owner: map<nat, Ref>, logged: set<nat>, i: nat, lo: nat, hi: nat)
    requires Writing(f, fs, owner, logged, i, lo, hi)
    ensures MappedOver(f.sb, fs, f.St(), i, lo, hi)
  {
    hide Slot, SlotsOk, BitsOk, MappedOver, Untouched, LogsSpan;
  }

  lemma SameTwice(sb: Super, a: seq<Block>, b: seq<Block>, c: seq<Block>)
    requires sb.Ok() && |a| == |b| == |c| == sb.size && SameInodes(sb, a, b) && SameInodes(sb, b, c)
    ensures SameInodes(sb, a, c)
  {
  }

  /** The other file blocks, and the indirect block if there was one, keep their addresses. */
  lemma MappedKeeps(f: FileSystem, fs: Fs, fs1: Fs, fs2: Fs, i: nat, bn: nat)
    requires ShapeOk(f.sb, fs) && ShapeOk(f.sb, fs1) && ShapeOk(f.sb, fs2) && i < f.sb.ninodes && bn < MAXFILE
    requires f.SlotsBut(fs, fs1, i, bn)
    requires forall k: nat :: k < NSLOTS ==> Slot(fs2, i, k) == Slot(fs1, i, k)
    ensures forall c: nat :: c < bn ==> BlockOf(fs2, i, c) == BlockOf(fs, i, c)
    ensures Slot(fs, i, NDIRECT) != 0 ==> Slot(fs2, i, NDIRECT) == Slot(fs, i, NDIRECT)
  {
    hide Slot;
    forall c: nat | c < bn
      ensures BlockOf(fs2, i, c) == BlockOf(fs, i, c)
    {
      assert SlotOf(c) != SlotOf(bn);
    }
  }

  lemma BmapLogs(f: FileSystem, fs1: Fs, fs2: Fs, before: set<nat>, logged: set<nat>, i: nat, bn: nat, hole: bool,
                 a: nat)
    requires ShapeOk(f.sb, fs1) && ShapeOk(f.sb, fs2) && i < f.sb.ninodes && bn < MAXFILE && before <= logged
    requires forall k: nat :: k < NSLOTS ==> Slot(fs2, i, k) == Slot(fs1, i, k)
    requires a == BlockOf(fs1, i, bn) < f.sb.size && (!hole ==> logged == before)
    requires hole ==> forall b :: b in logged && b !in before ==>
      b == a || (bn >= NDIRECT && b == Slot(fs1, i, NDIRECT)) || f.sb.Bitmap(b)
    requires hole ==> f.sb.BBlock(a) in logged && (bn >= NDIRECT ==> Slot(fs1, i, NDIRECT) in logged)
    ensures LogsBlock(f.sb, fs2, before, logged + {a}, i, bn, hole)
  {
    hide Slot;
    BitmapIsMeta(f.sb, a);
    if hole {
      assert f.sb.BBlock(a) in logged + {a};
    }
  }

  // ---------------------------------------------------------------- whole transfers

  /** The copying loop of writei. */
  method WriteLoop(f: FileSystem, i: nat, src: seq<Byte>, off: nat) returns (ok: bool, ghost hi: nat)
    requires f.Valid() && i < f.sb.ninodes && f.inodes[i].typ != 0 && off + |src| <= MAXFILE * BSIZE
    modifies f`blocks, f`inodes, f`owner, f`logged
    ensures !ok ==> |old(f.owner)| + SpanNeed(old(f.St()), i, off, |src|) > f.sb.nblocks
    ensures ok ==> Covers(off, |src|, |src|, hi) && off / BSIZE <= hi
    ensures ok ==> Writing(f, old(f.St()), old(f.owner), old(f.logged), i, off / BSIZE, hi)
    ensures ok ==> Written(old(f.St()), f.St(), i, off, src)
  {
    hide Slot, SlotsOk, BitsOk, BitAt, Writing, Written, NeedOf, SpanNeed, Covers, EndBlock, FreeOnesEmpty;
    var tot := 0;
    ghost var lo: nat := off / BSIZE;
    hi := lo;
    assert src[..0] == [] && src[..|src|] == src;
    WritingSelf(f, i, lo);
    WrittenNone(f.St(), i, off);
    CoversNone(off, |src|);
    while tot < |src|
      invariant 0 <= tot <= |src| && Covers(off, |src|, tot, hi) && lo <= hi
      invariant Writing(f, old(f.St()), old(f.owner), old(f.logged), i, lo, hi)
      invariant Written(old(f.St()), f.St(), i, off, src[..tot])
    {
      var cur := off + tot;
      var m := Min(|src| - tot, BSIZE - cur % BSIZE);
      ghost var fs := f.St();
      CoversOn(off, |src|, tot, hi);
      SpanMore(old(f.St()), i, off, |src|, hi);
      ok := WriteBlock(f, old(f.St()), old(f.owner), old(f.logged), i, lo, cur, src[tot..tot + m]);
      if !ok {
        return;
      }
      WrittenTwice(old(f.St()), fs, f.St(), i, off, src, tot, m);
      hi := hi + 1;
      tot := tot + m;
    }
    ok := true;
  }

  lemma WrittenNone(fs: Fs, i: nat, off: nat)
    requires i < |fs.inodes| && |fs.inodes[i].addrs| == NDIRECT + 1 && fs.inodes[i].addrs[NDIRECT] < |fs.blocks|
    ensures Written(fs, fs, i, off, [])
  {
    hide ByteAt;
  }

  /** writei's bounds test, in unsigned arithmetic. */
  predicate WriteFits(size: Uint, off: Uint, n: Uint)
  {
    var sum := (off + n) % UINT_LIMIT;
    off <= size && sum >= off && sum <= MAXFILE * BSIZE
  }

  /** The wrap-around test makes the unsigned bounds the real ones. */
  lemma WriteFitsMeans(size: Uint, off: Uint, n: Uint)
    ensures WriteFits(size, off, n) <==> off <= size && off + n <= MAXFILE * BSIZE
  {
    if off + n >= UINT_LIMIT {
      assert (off + n) % UINT_LIMIT == off + n - UINT_LIMIT;
    }
  }

  // ---------------------------------------------------------------- the inode

  /** Among file blocks lo..hi there is a hole whose address, or whose indirect block's, goes into the inode. */
  ghost predicate FillsAddr(sb: Super, fs: Fs, i: nat, lo: nat, hi: nat)
    requires ShapeOk(sb, fs) && i < sb.ninodes
  {
    exists bn: nat :: lo <= bn < hi && bn < MAXFILE && BlockOf(fs, i, bn) == 0
                      && (bn < NDIRECT || Slot(fs, i, NDIRECT) == 0)
  }

  /** The address fields change exactly then. */
  lemma AddrsChange(sb: Super, fs: Fs, fs1: Fs, i: nat, lo: nat, hi: nat)
    requires ShapeOk(sb, fs) && ShapeOk(sb, fs1) && i < sb.ninodes && MappedOver(sb, fs, fs1, i, lo, hi)
    requires lo <= hi <= MAXFILE
    ensures fs1.inodes[i].addrs != fs.inodes[i].addrs <==> FillsAddr(sb, fs, i, lo, hi)
  {
    hide Slot;
    var a, a1 := fs.inodes[i].addrs, fs1.inodes[i].addrs;
    forall k: nat | k <= NDIRECT
      ensures Slot(fs, i, k) == a[k] && Slot(fs1, i, k) == a1[k]
    {
      SlotOfAddr(fs, i, k);
      SlotOfAddr(fs1, i, k);
    }
    if hi > NDIRECT {
      EmptyIndirect(fs, i, hi - 1 - NDIRECT);
      assert Slot(fs, i, NDIRECT) == 0 ==> BlockOf(fs, i, hi - 1) == 0;
    }
    if FillsAddr(sb, fs, i, lo, hi) {
      var bn: nat :| lo <= bn < hi && bn < MAXFILE && BlockOf(fs, i, bn) == 0
                     && (bn < NDIRECT || Slot(fs, i, NDIRECT) == 0);
      var k := if bn < NDIRECT then bn else NDIRECT;
      assert bn < NDIRECT ==> BlockOf(fs1, i, bn) != 0;
      assert a1[k] != a[k];
    } else {
      forall k: nat | k <= NDIRECT
        ensures a1[k] == a[k]
      {
        if k < NDIRECT {
          assert BlockOf(fs, i, k) == a[k] && BlockOf(fs1, i, k) == a1[k];
        }
      }
      assert a1 == a;
    }
  }

  lemma {:induction false} NoNeedNoHole(fs: Fs, i: nat, lo: nat, hi: nat, bn: nat)
    requires i < |fs.inodes| && |fs.inodes[i].addrs| == NDIRECT + 1 && fs.inodes[i].addrs[NDIRECT] < |fs.blocks|
    requires lo <= bn < hi && bn < MAXFILE && Holes(fs, i, lo, hi) == 0
    ensures BlockOf(fs, i, bn) != 0
    decreases hi
  {
    hide Slot;
    if bn < hi - 1 {
      NoNeedNoHole(fs, i, lo, hi - 1, bn);
    }
  }

  lemma NoNeedNoFill(sb: Super, fs: Fs, i: nat, lo: nat, hi: nat)
    requires ShapeOk(sb, fs) && i < sb.ninodes && lo <= hi && NeedOf(fs, i, lo, hi) == 0
    ensures !FillsAddr(sb, fs, i, lo, hi)
  {
    hide Slot;
    forall bn: nat | lo <= bn < hi && bn < MAXFILE
      ensures BlockOf(fs, i, bn) != 0
    {
      NoNeedNoHole(fs, i, lo, hi, bn);
    }
  }

  /** Setting the size of inode i and storing it moves neither blocks nor bytes. */
  lemma Resized(sb: Super, fs: Fs, owner: map<nat, Ref>, i: nat, size: Uint, data: Block, fs0: Fs,
                owner0: map<nat, Ref>)
    requires OwnedBy(sb, fs, owner, {}, NoGap) && i < sb.ninodes
    ensures sb.IBlock(i) < |fs.blocks|
    ensures var fs' := Fs(fs.blocks[sb.IBlock(i) := data], fs.inodes[i := fs.inodes[i].(size := size)]);
      && OwnedBy(sb, fs', owner, {}, NoGap)
      && (forall j: nat, k: nat :: j < sb.ninodes && k < NSLOTS ==> Slot(fs', j, k) == Slot(fs, j, k))
      && (forall p: nat :: ByteAt(fs', i, p) == ByteAt(fs, i, p))
      && (Untouched(sb, fs0, owner0, fs, owner, i) ==> Untouched(sb, fs0, owner0, fs', owner, i))
  {
    hide Slot, BitsOk, BlockBit;
    InodeBlockIsMeta(sb, i);
    var fs1 := fs.(inodes := fs.inodes[i := fs.inodes[i].(size := size)]);
    ResizeKeeps(sb, fs, owner, i, size);
    MetaKeeps(sb, fs1, owner, sb.IBlock(i), data);
    var fs' := fs1.(blocks := fs.blocks[sb.IBlock(i) := data]);
    forall p: nat
      ensures ByteAt(fs', i, p) == ByteAt(fs, i, p)
    {
      if p / BSIZE < MAXFILE && BlockOf(fs, i, p / BSIZE) != 0 {
        OwnedSlot(sb, fs, owner, i, SlotOf(p / BSIZE));
      }
    }
  }

  /** What has been logged is the same while every slot keeps its value. */
  lemma LogsSame(sb: Super, fs: Fs, fs1: Fs, fs2: Fs, before: set<nat>, logged: set<nat>, i: nat, lo: nat, hi: nat)
    requires ShapeOk(sb, fs) && ShapeOk(sb, fs1) && ShapeOk(sb, fs2) && i < sb.ninodes && lo <= hi
    requires forall k: nat :: k < NSLOTS ==> Slot(fs2, i, k) == Slot(fs1, i, k)
    requires LogsSpan(sb, fs, fs1, before, logged, i, lo, hi)
    ensures LogsSpan(sb, fs, fs2, before, logged, i, lo, hi)
  {
    hide Slot, NeedOf, EntryHole, SomeBitmap;
    assert forall bn: nat :: bn < MAXFILE ==> BlockOf(fs2, i, bn) == BlockOf(fs1, i, bn);
    forall b | InSpan(sb, fs1, i, lo, hi, b)
      ensures InSpan(sb, fs2, i, lo, hi, b)
    {
      var bn: nat :| lo <= bn < hi && bn < MAXFILE && BlockOf(fs1, i, bn) == b;
      assert BlockOf(fs2, i, bn) == b;
    }
  }

  lemma StoredSame(sb: Super, blocks: seq<Block>, blocks': seq<Block>, i: nat)
    requires sb.Ok() && |blocks| == |blocks'| == sb.size && i < sb.ninodes && SameInodes(sb, blocks, blocks')
    ensures StoredBut(sb, blocks, blocks', i, Stored(sb, blocks, i))
  {
    hide Stored;
    forall j: nat | j < sb.ninodes
      ensures Stored(sb, blocks', j) == Stored(sb, blocks, j)
    {
      SameStored(sb, blocks, blocks', j);
    }
  }

  // ---------------------------------------------------------------- writei

  /** The file block after those that a write of n bytes at `off` passes over. */
  function EndOf(off: nat, n: nat): (hi: nat)
    ensures off / BSIZE <= hi
  {
    if n == 0 then off / BSIZE else EndBlock(off, n)
  }

  /** What a write of `data` at `off` to inode i leaves behind: the bytes spliced in, exactly the addresses of the
      blocks passed over filled, no other file touched, and `span` with the inode block, if the file grew, logged. */
  ghost predicate Splices(f: FileSystem, fs: Fs, owner: map<nat, Ref>, logged: set<nat>, i: nat, off: nat,
                          data: seq<Byte>, span: set<nat>)
    requires ShapeOk(f.sb, fs) && i < f.sb.ninodes && off <= fs.inodes[i].size && off + |data| <= MAXFILE * BSIZE
    reads f
    ensures Splices(f, fs, owner, logged, i, off, data, span) ==> f.Valid()
  {
    var grows := off + |data| > fs.inodes[i].size;
    && f.Valid()
    && f.inodes[i] == fs.inodes[i].(size := Max(fs.inodes[i].size, off + |data|), addrs := f.inodes[i].addrs)
    && Bytes(f.St(), i) == Splice(Bytes(fs, i), off, data)
    && MappedOver(f.sb, fs, f.St(), i, off / BSIZE, EndOf(off, |data|))
    && |f.owner| == |owner| + SpanNeed(fs, i, off, |data|)
    && Untouched(f.sb, fs, owner, f.St(), f.owner, i)
    && StoredBut(f.sb, fs.blocks, f.blocks, i, if grows then f.inodes[i] else Stored(f.sb, fs.blocks, i))
    && LogsSpan(f.sb, fs, f.St(), logged, span, i, off / BSIZE, EndOf(off, |data|))
    && f.logged == span + if grows then {f.sb.IBlock(i)} else {}
  }

  /** The loop is done and the file has not grown. */
  lemma NotGrown(f: FileSystem, fs: Fs, owner: map<nat, Ref>, logged: set<nat>, i: nat, off: nat, data: seq<Byte>,
                 hi: nat)
    requires Writing(f, fs, owner, logged, i, off / BSIZE, hi) && Covers(off, |data|, |data|, hi)
    requires off + |data| <= fs.inodes[i].size && off + |data| <= MAXFILE * BSIZE
    requires Written(fs, f.St(), i, off, data)
    ensures Splices(f, fs, owner, logged, i, off, data, f.logged)
  {
    hide Slot, SlotsOk, BitsOk, Untouched, ByteAt, MappedOver, NeedOf, SpanNeed, LogsSpan, Covers, Stored, SameInodes;
    CoversAll(fs, i, off, |data|, hi);
    StoredSame(f.sb, fs.blocks, f.blocks, i);
    assert Bytes(f.St(), i) == Splice(Bytes(fs, i), off, data);
  }

  /** writei: on success the file's bytes are spliced and no other file's blocks are touched; it panics exactly when
      fewer blocks are free than the span is short of. The inode goes to disk exactly when the file grows, so a hole
      filled inside the file leaves the on-disk inode without the new address (StoredIff). */
  method Writei(f: FileSystem, i: nat, src: seq<Byte>, off: Uint) returns (r: Io, ghost span: set<nat>)
    requires f.Valid() && i < f.sb.ninodes && f.inodes[i].typ != 0 && |src| < UINT_LIMIT
    modifies f
    ensures r.Device? <==> old(f.inodes[i].typ) == T_DEV
    ensures r.Failed? <==>
      old(f.inodes[i].typ) != T_DEV && !(off <= old(f.inodes[i].size) && off + |src| <= MAXFILE * BSIZE)
    ensures r.Device? || r.Failed? ==>
      f.St() == old(f.St()) && f.owner == old(f.owner) && f.logged == old(f.logged)
    ensures r.Panic? <==>
      && old(f.inodes[i].typ) != T_DEV && off <= old(f.inodes[i].size) && off + |src| <= MAXFILE * BSIZE
      && |FreeBlocks(f.sb, old(f.blocks))| < SpanNeed(old(f.St()), i, off, |src|)
    ensures r.Done? ==> r.n == |src| && Splices(f, old(f.St()), old(f.owner), old(f.logged), i, off, src, span)
  {
    hide Slot, SlotsOk, BitsOk, BitAt, Writing, Written, FreeBlocks, NeedOf, SpanNeed, Covers, Splices;
    var n := |src|;
    span := {};
    FreeCount(f.sb, f.St(), f.owner);
    if f.inodes[i].typ == T_DEV {
      return Device, span;
    }
    WriteFitsMeans(f.inodes[i].size, off, n);
    if off > f.inodes[i].size || (off + n) % UINT_LIMIT < off {
      return Failed, span;
    }
    if (off + n) % UINT_LIMIT > MAXFILE * BSIZE {
      return Failed, span;
    }
    var ok;
    ghost var hi;
    ok, hi := WriteLoop(f, i, src, off);
    if !ok {
      return Panic, span;
    }
    CoversAll(old(f.St()), i, off, n, hi);
    FreeCount(f.sb, f.St(), f.owner);
    span := f.logged;
    SameSize(f, old(f.St()), old(f.owner), old(f.logged), i, off / BSIZE, hi);
    if n > 0 && off + n > f.inodes[i].size {
      Grow(f, old(f.St()), old(f.owner), old(f.logged), i, off, src, hi);
    } else {
      NotGrown(f, old(f.St()), old(f.owner), old(f.logged), i, off, src, hi);
    }
    return Done(n), span;
  }

  lemma SameSize(f: FileSystem, fs: Fs, owner: map<nat, Ref>, logged: set<nat>, i: nat, lo: nat, hi: nat)
    requires Writing(f, fs, owner, logged, i, lo, hi)
    ensures f.inodes[i].size == fs.inodes[i].size
  {
    hide Slot, MappedOver, Untouched, LogsSpan, SlotsOk, BitsOk;
  }

  /** writei's last lines: the new size, and the inode to disk. */
  method Grow(f: FileSystem, ghost fs: Fs, ghost owner: map<nat, Ref>, ghost logged: set<nat>, i: nat, off: Uint,
              data: seq<Byte>, ghost hi: nat)
    requires Writing(f, fs, owner, logged, i, off / BSIZE, hi) && Covers(off, |data|, |data|, hi)
    requires Written(fs, f.St(), i, off, data)
    requires off <= fs.inodes[i].size < off + |data| <= MAXFILE * BSIZE
    modifies f
    ensures Splices(f, fs, owner, logged, i, off, data, old(f.logged))
  {
    hide Slot, SlotsOk, BitsOk, BitAt, Untouched, ByteAt, MappedOver, NeedOf, SpanNeed, LogsSpan, Covers, Stored;
    ghost var was := f.St();
    CoversAll(fs, i, off, |data|, hi);
    ResizeKeeps(f.sb, was, f.owner, i, off + |data|);
    f.inodes := f.inodes[i := f.inodes[i].(size := off + |data|)];
    f.Iupdate(i);
    Resized(f.sb, was, f.owner, i, off + |data|, f.blocks[f.sb.IBlock(i)], fs, owner);
    MappedSame(f.sb, fs, was, f.St(), i, off / BSIZE, hi);
    LogsSame(f.sb, fs, was, f.St(), logged, old(f.logged), i, off / BSIZE, hi);
    StoredAgain(f.sb, fs.blocks, was.blocks, f.blocks, i, f.inodes[i]);
    assert Bytes(f.St(), i) == Splice(Bytes(fs, i), off, data);
  }

  // ---------------------------------------------------------------- what it means

  /** If the on-disk inode was the in-memory one, it is afterwards if and only if the file grew or no hole was filled
      whose address is in the inode itself. */
  lemma StoredIff(f: FileSystem, fs: Fs, owner: map<nat, Ref>, logged: set<nat>, i: nat, off: nat, data: seq<Byte>,
                  span: set<nat>)
    requires ShapeOk(f.sb, fs) && i < f.sb.ninodes && off <= fs.inodes[i].size && off + |data| <= MAXFILE * BSIZE
    requires Splices(f, fs, owner, logged, i, off, data, span) && Stored(f.sb, fs.blocks, i) == fs.inodes[i]
    ensures Stored(f.sb, f.blocks, i) == f.inodes[i] <==>
      off + |data| > fs.inodes[i].size || !FillsAddr(f.sb, fs, i, off / BSIZE, EndOf(off, |data|))
  {
    hide Slot, SlotsOk, BitsOk, Untouched, MappedOver, NeedOf, SpanNeed, LogsSpan, Stored, FillsAddr, Bytes;
    EndOfFits(off, |data|);
    AddrsChange(f.sb, fs, f.St(), i, off / BSIZE, EndOf(off, |data|));
  }

  lemma EndOfFits(off: nat, n: nat)
    requires off + n <= MAXFILE * BSIZE
    ensures EndOf(off, n) <= MAXFILE
  {
  }

  lemma SplicedParts(f: FileSystem, fs: Fs, owner: map<nat, Ref>, logged: set<nat>, i: nat, off: nat,
                     data: seq<Byte>, span: set<nat>)
    requires ShapeOk(f.sb, fs) && i < f.sb.ninodes && off <= fs.inodes[i].size && off + |data| <= MAXFILE * BSIZE
    requires Splices(f, fs, owner, logged, i, off, data, span)
    ensures Bytes(f.St(), i) == Splice(Bytes(fs, i), off, data) && f.inodes[i].typ == fs.inodes[i].typ
    ensures f.inodes[i].size == Max(fs.inodes[i].size, off + |data|)
    ensures MappedOver(f.sb, fs, f.St(), i, off / BSIZE, EndOf(off, |data|))
    ensures |f.owner| == |owner| + SpanNeed(fs, i, off, |data|)
  {
    hide Slot, SlotsOk, BitsOk, Untouched, NeedOf, SpanNeed, LogsSpan, MappedOver, Bytes, Splice, Stored;
  }

  /** A file without holes has none afterwards, its on-disk inode stays the in-memory one, and the write has taken
      what the longer file occupies in addition. */
  lemma WholeStays(f: FileSystem, fs: Fs, owner: map<nat, Ref>, logged: set<nat>, i: nat, off: nat, data: seq<Byte>,
                   span: set<nat>)
    requires ShapeOk(f.sb, fs) && i < f.sb.ninodes && off <= fs.inodes[i].size && off + |data| <= MAXFILE * BSIZE
    requires Splices(f, fs, owner, logged, i, off, data, span)
    requires NoHoles(fs, i) && Stored(f.sb, fs.blocks, i) == fs.inodes[i]
    ensures NoHoles(f.St(), i) && Stored(f.sb, f.blocks, i) == f.inodes[i]
    ensures |f.owner| == |owner| + WriteNeed(fs.inodes[i].size, off + |data|)
  {
    hide Slot, SlotsOk, BitsOk, MappedOver, Splices, Stored, FillsAddr, SpanNeed, WriteNeed, Backed, BlocksFor, EndOf;
    var size, lo, hi := fs.inodes[i].size, off / BSIZE, EndOf(off, |data|);
    SplicedParts(f, fs, owner, logged, i, off, data, span);
    EndOfFits(off, |data|);
    WholeNeed(fs, i, off, |data|);
    StoredIff(f, fs, owner, logged, i, off, data, span);
    if off + |data| <= size {
      NoFillNone(f.sb, fs, i, off, |data|);
    }
    EndOfBlocks(size, off, |data|);
    StillBacked(f.sb, fs, f.St(), i, BlocksFor(size), lo, hi);
  }

  lemma NoFillNone(sb: Super, fs: Fs, i: nat, off: nat, n: nat)
    requires ShapeOk(sb, fs) && i < sb.ninodes && SpanNeed(fs, i, off, n) == 0
    ensures !FillsAddr(sb, fs, i, off / BSIZE, EndOf(off, n))
  {
    hide Slot, FillsAddr, NeedOf;
    if n == 0 {
      NothingFills(sb, fs, i, off / BSIZE);
    } else {
      NoNeedNoFill(sb, fs, i, off / BSIZE, EndOf(off, n));
    }
  }

  lemma NothingFills(sb: Super, fs: Fs, i: nat, lo: nat)
    requires ShapeOk(sb, fs) && i < sb.ninodes
    ensures !FillsAddr(sb, fs, i, lo, lo)
  {
    hide Slot;
  }

  lemma EndOfBlocks(size: nat, off: nat, n: nat)
    requires off <= size
    ensures off / BSIZE <= BlocksFor(size) && BlocksFor(Max(size, off + n)) == Max(BlocksFor(size), EndOf(off, n))
  {
    if n > 0 {
      EndBlocks(size, off, n);
    }
  }
}
