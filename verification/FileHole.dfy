/** A hole filled inside a file: writei does not store the inode, so the disk loses the block. */
module FileHole {
  import opened Machine
  import opened Blocks
  import opened FsLayout
  import opened DiskInode
  import opened Ownership
  import opened FileContents
  import opened FsCode
  import opened FileSpan
  import opened FileIo

  /** Boot block, inode block, bitmap, one data block. */
  const TINY := Super(4, 1, 1, 1, 2)

  /** A file of one byte without a block. */
  function Hollow(): (x: Inode)
    ensures |x.addrs| == NDIRECT + 1 && forall k :: 0 <= k <= NDIRECT ==> x.addrs[k] == 0
  {
    Inode(2, 0, 0, 1, 1, seq<Uint>(NDIRECT + 1, _ => 0))
  }

  /** The bitmap that marks the first three blocks. */
  function ThreeBits(): (b: Block) { ZeroBlock()[0 := 7] }

  function TinyDisk(): (d: seq<Block>)
    ensures |d| == 4
  {
    [ZeroBlock(), PutInode(ZeroBlock(), 0, Hollow()), ThreeBits(), ZeroBlock()]
  }

  lemma TinyStored()
    ensures TINY.Ok() && AllStored(TINY, TinyDisk()) == [Hollow()]
  {
    hide PutInode, GetInode;
    InodeRoundTrip(ZeroBlock(), 0, Hollow(), 0);
    assert Stored(TINY, TinyDisk(), 0) == Hollow();
  }

  lemma TinyBit(b: nat)
    requires b < 4
    ensures BitAt(TINY, TinyDisk(), b) <==> b < 3
  {
    assert Bit(7, 0) && Bit(7, 1) && Bit(7, 2) && !Bit(7, 3) by {
      assert Bit(7, 2) == Bit(3, 1) == Bit(1, 0) && Bit(7, 3) == Bit(3, 2) == Bit(1, 1) == Bit(0, 0);
    }
    assert TinyDisk()[2][0] == 7;
  }

  lemma HollowSlots(blocks: seq<Block>, k: nat)
    requires |blocks| == 4 && k < NSLOTS
    ensures Slot(Fs(blocks, [Hollow()]), 0, k) == 0
  {
  }

  lemma TinyOwned()
    ensures OwnedBy(TINY, Fs(TinyDisk(), [Hollow()]), map[], {}, NoGap)
  {
    hide Slot, BitAt, PutInode;
    forall k: nat | k < NSLOTS
      ensures Slot(Fs(TinyDisk(), [Hollow()]), 0, k) == 0
    {
      HollowSlots(TinyDisk(), k);
    }
    forall b: nat | b < 4
      ensures BitAt(TINY, TinyDisk(), b) <==> b < 3
    {
      TinyBit(b);
    }
  }

  /** With the bit of the data block set, a disk whose one inode is hollow has a block that nobody owns. */
  lemma Leaked(blocks: seq<Block>, owner: map<nat, Ref>)
    requires |blocks| == 4 && BitAt(TINY, blocks, 3)
    ensures !OwnedBy(TINY, Fs(blocks, [Hollow()]), owner, {}, NoGap)
  {
    hide Slot, BitAt;
    if OwnedBy(TINY, Fs(blocks, [Hollow()]), owner, {}, NoGap) {
      HollowSlots(blocks, owner[3].k);
      assert false;
    }
  }

  lemma OneBlockFree()
    ensures |FreeBlocks(TINY, TinyDisk())| == 1
  {
    hide BitAt, OwnedBy;
    TinyOwned();
    FreeCount(TINY, Fs(TinyDisk(), [Hollow()]), map[]);
  }

  lemma OneNeeded()
    ensures SpanNeed(Fs(TinyDisk(), [Hollow()]), 0, 0, 1) == 1
  {
    hide PutInode, Slot;
    HollowSlots(TinyDisk(), 0);
    assert EndBlock(0, 1) == 1 && BlockOf(Fs(TinyDisk(), [Hollow()]), 0, 0) == 0;
    assert Holes(Fs(TinyDisk(), [Hollow()]), 0, 0, 0) == 0;
  }

  /** One byte written to such a file: the write succeeds, the inode in memory has the block, the inode on disk does
      not, and no owner makes the disk consistent. */
  method FillHole() returns (f: FileSystem, r: Io)
    ensures fresh(f) && r == Done(1) && f.Valid() && f.sb == TINY
    ensures f.inodes[0].addrs[0] != 0 && Stored(f.sb, f.blocks, 0) == Hollow() != f.inodes[0]
    ensures forall owner :: !OwnedBy(f.sb, Fs(f.blocks, AllStored(f.sb, f.blocks)), owner, {}, NoGap)
  {
    hide PutInode, GetInode, BitAt, Slot, SlotsOk, BitsOk, Splices, SpanNeed, FreeBlocks;
    TinyStored();
    TinyOwned();
    OneBlockFree();
    OneNeeded();
    f := new FileSystem(TINY, TinyDisk(), map[]);
    ghost var fs := f.St();
    ghost var span;
    r, span := Writei(f, 0, [7], 0);
    HoleFilled(f, fs, span);
    forall owner: map<nat, Ref>
      ensures !OwnedBy(f.sb, Fs(f.blocks, AllStored(f.sb, f.blocks)), owner, {}, NoGap)
    {
      Leaked(f.blocks, owner);
    }
  }

  lemma HoleFilled(f: FileSystem, fs: Fs, span: set<nat>)
    requires f.sb == TINY && fs == Fs(TinyDisk(), [Hollow()]) && ShapeOk(TINY, fs)
    requires Stored(TINY, fs.blocks, 0) == Hollow()
    requires Splices(f, fs, map[], {}, 0, 0, [7], span)
    ensures f.inodes[0].addrs[0] != 0 && Stored(f.sb, f.blocks, 0) == Hollow() != f.inodes[0]
    ensures AllStored(f.sb, f.blocks) == [Hollow()] && BitAt(TINY, f.blocks, 3)
  {
    hide PutInode, GetInode, BitAt, Slot, SlotsOk, Untouched, LogsSpan, Stored, SpanNeed, Bytes;
    assert EndOf(0, 1) == 1;
    HollowSlots(fs.blocks, 0);
    assert BlockOf(fs, 0, 0) == 0 && BlockOf(f.St(), 0, 0) != 0;
    SlotOfAddr(f.St(), 0, 0);
    OwnedSlot(f.sb, f.St(), f.owner, 0, 0);
    assert f.inodes[0].addrs[0] == 3;
  }
}
