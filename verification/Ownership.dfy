/** Block ownership: which bitmap bits are set, and which slot of which inode owns each block. */
module Ownership {
  import opened Machine
  import opened Blocks
  import opened FsLayout
  import opened DiskInode

  datatype Super = Super(size: nat, nblocks: nat, ninodes: nat, inodestart: nat, bmapstart: nat) {
    /** The first data block: everything below is metadata. */
    function DataStart(): int { size - nblocks }
    predicate Data(b: int) { DataStart() <= b < size }
    predicate Bitmap(b: nat) { bmapstart <= b < DataStart() }
    function BBlock(b: nat): nat { b / BPB + bmapstart }
    function IBlock(inum: nat): nat { inum / IPB + inodestart }
    /** The regions lie in order below the data blocks. */
    predicate Ok()
    {
      && 0 < size < UINT_LIMIT
      && 0 < inodestart
      && ninodes / IPB + inodestart < bmapstart
      && (size - 1) / BPB + bmapstart < DataStart()
      && nblocks <= size
    }
  }

  datatype Fs = Fs(blocks: seq<Block>, inodes: seq<Inode>)

  /** Slot k of inode i: 0-11 direct, 12 the indirect block, 13-140 its entries. */
  datatype Ref = Ref(i: nat, k: nat)

  const NSLOTS := NDIRECT + 1 + NINDIRECT

  predicate ShapeOk(sb: Super, fs: Fs)
  {
    && sb.Ok()
    && |fs.blocks| == sb.size
    && |fs.inodes| == sb.ninodes
    && forall i :: 0 <= i < |fs.inodes| ==> |fs.inodes[i].addrs| == NDIRECT + 1 && fs.inodes[i].addrs[NDIRECT] < sb.size
  }

  /** The block number in slot k of inode i, or 0. */
  function Slot(fs: Fs, i: nat, k: nat): (a: Uint)
    requires i < |fs.inodes| && k < NSLOTS && |fs.inodes[i].addrs| == NDIRECT + 1
    requires fs.inodes[i].addrs[NDIRECT] < |fs.blocks|
  {
    var addrs := fs.inodes[i].addrs;
    if k <= NDIRECT then addrs[k]
    else if addrs[NDIRECT] == 0 then 0
    else Word(fs.blocks[addrs[NDIRECT]], k - NDIRECT - 1)
  }

  /** Inode i as its inode block holds it. */
  function Stored(sb: Super, blocks: seq<Block>, i: nat): (x: Inode)
    requires sb.Ok() && |blocks| == sb.size && i < sb.ninodes
    ensures |x.addrs| == NDIRECT + 1
  {
    InodeBlockIsMeta(sb, i);
    GetInode(blocks[sb.IBlock(i)], i % IPB)
  }

  lemma InodeBlockIsMeta(sb: Super, i: nat)
    requires sb.Ok() && i < sb.ninodes
    ensures sb.IBlock(i) < sb.bmapstart < sb.size && !sb.Data(sb.IBlock(i))
  {
    assert i / IPB <= sb.ninodes / IPB;
  }

  /** Of the stored inodes, only inode i may have changed, and it is x. */
  ghost predicate StoredBut(sb: Super, blocks: seq<Block>, blocks': seq<Block>, i: nat, x: Inode)
    requires sb.Ok() && |blocks| == |blocks'| == sb.size
  {
    forall j: nat :: j < sb.ninodes ==> Stored(sb, blocks', j) == if j == i then x else Stored(sb, blocks, j)
  }

  /** The blocks below the bitmap, the inode blocks among them, are the same. */
  ghost predicate SameInodes(sb: Super, blocks: seq<Block>, blocks': seq<Block>)
    requires sb.Ok() && |blocks| == |blocks'| == sb.size
  {
    forall b: nat :: b < sb.bmapstart ==> blocks'[b] == blocks[b]
  }

  lemma SameStored(sb: Super, blocks: seq<Block>, blocks': seq<Block>, i: nat)
    requires sb.Ok() && |blocks| == |blocks'| == sb.size && SameInodes(sb, blocks, blocks') && i < sb.ninodes
    ensures Stored(sb, blocks', i) == Stored(sb, blocks, i)
  {
    InodeBlockIsMeta(sb, i);
  }

  predicate BitAt(sb: Super, blocks: seq<Block>, b: nat)
    requires sb.Ok() && |blocks| == sb.size && b < sb.size
  {
    BlockBit(blocks[sb.BBlock(b)], b % BPB)
  }

  /** Entries of one inode's indirect block that itrunc has already freed. */
  datatype Gap = NoGap | Gap(i: nat, upto: nat) {
    predicate Has(j: nat, k: nat) { Gap? && j == i && NDIRECT < k <= NDIRECT + upto }
  }

  /** `owner` and the slots outside the gap are inverse to each other, and only data blocks are owned. */
  ghost predicate SlotsOk(sb: Super, fs: Fs, owner: map<nat, Ref>, gap: Gap)
    requires ShapeOk(sb, fs)
  {
    && (forall b :: b in owner ==>
         && sb.Data(b)
         && owner[b].i < sb.ninodes && owner[b].k < NSLOTS && !gap.Has(owner[b].i, owner[b].k)
         && Slot(fs, owner[b].i, owner[b].k) == b)
    && (forall i: nat, k: nat :: i < sb.ninodes && k < NSLOTS && !gap.Has(i, k) && Slot(fs, i, k) != 0 ==>
         Slot(fs, i, k) in owner && owner[Slot(fs, i, k)] == Ref(i, k))
  }

  /** A bit is set exactly for metadata, for owned blocks, and for the blocks that balloc has handed
      out and nobody stores yet (`held`). */
  ghost predicate BitsOk(sb: Super, blocks: seq<Block>, owner: map<nat, Ref>, held: set<nat>)
    requires sb.Ok() && |blocks| == sb.size
  {
    && (forall b :: b in held ==> sb.Data(b) && b !in owner)
    && (forall b: nat :: b < sb.size ==> (BitAt(sb, blocks, b) <==> b < sb.DataStart() || b in owner || b in held))
  }

  /** A free inode has no blocks. */
  predicate EmptyIfFree(x: Inode) { x.typ == 0 ==> forall k :: 0 <= k < |x.addrs| ==> x.addrs[k] == 0 }

  predicate FreeOnesEmpty(inodes: seq<Inode>) { forall j :: 0 <= j < |inodes| ==> EmptyIfFree(inodes[j]) }

  ghost predicate OwnedBy(sb: Super, fs: Fs, owner: map<nat, Ref>, held: set<nat>, gap: Gap)
  {
    && ShapeOk(sb, fs) && SlotsOk(sb, fs, owner, gap) && BitsOk(sb, fs.blocks, owner, held)
    && FreeOnesEmpty(fs.inodes)
  }

  // ---------------------------------------------------------------- what it means

  /** The slots of a free inode are empty. */
  lemma FreeSlotsEmpty(sb: Super, fs: Fs, i: nat, k: nat)
    requires ShapeOk(sb, fs) && FreeOnesEmpty(fs.inodes) && i < sb.ninodes && k < NSLOTS
    ensures Slot(fs, i, k) != 0 ==> fs.inodes[i].typ != 0
  {
    assert EmptyIfFree(fs.inodes[i]);
  }

  /** A block number is in one slot of one inode only, which is allocated, and it is a data block. */
  lemma SlotsDistinct(sb: Super, fs: Fs, owner: map<nat, Ref>, i: nat, k: nat, j: nat, l: nat)
    requires OwnedBy(sb, fs, owner, {}, NoGap)
    requires i < sb.ninodes && k < NSLOTS && j < sb.ninodes && l < NSLOTS && Slot(fs, i, k) == Slot(fs, j, l) != 0
    ensures i == j && k == l && sb.Data(Slot(fs, i, k)) && fs.inodes[i].typ != 0
  {
    hide Slot;
    FreeSlotsEmpty(sb, fs, i, k);
  }

  /** b is in a slot of an allocated inode. */
  predicate InUse(sb: Super, fs: Fs, b: nat)
    requires ShapeOk(sb, fs)
  {
    exists i: nat, k: nat :: i < sb.ninodes && k < NSLOTS && Slot(fs, i, k) == b && fs.inodes[i].typ != 0
  }

  /** A bit is set exactly for metadata and for blocks in a slot of an allocated inode. */
  lemma BitIffUsed(sb: Super, fs: Fs, owner: map<nat, Ref>, b: nat)
    requires OwnedBy(sb, fs, owner, {}, NoGap) && b < sb.size
    ensures BitAt(sb, fs.blocks, b) <==> b < sb.DataStart() || InUse(sb, fs, b)
  {
    hide Slot, BitAt;
    if b in owner {
      assert Slot(fs, owner[b].i, owner[b].k) == b && sb.Data(b);
      FreeSlotsEmpty(sb, fs, owner[b].i, owner[b].k);
    }
  }

  // ---------------------------------------------------------------- how many are free

  /** The blocks that balloc can still hand out. */
  ghost function FreeBlocks(sb: Super, blocks: seq<Block>): (s: set<nat>)
    requires sb.Ok() && |blocks| == sb.size
  {
    set b: nat | b < sb.size && !BitAt(sb, blocks, b)
  }

  /** Every data block is free or owned, and not both. */
  lemma FreeCount(sb: Super, fs: Fs, owner: map<nat, Ref>)
    requires OwnedBy(sb, fs, owner, {}, NoGap)
    ensures |FreeBlocks(sb, fs.blocks)| + |owner| == sb.nblocks
    ensures |owner| == sb.nblocks <==> forall c: nat :: c < sb.size ==> BitAt(sb, fs.blocks, c)
  {
    hide Slot, BitAt, BitsOk, FreeBlocks;
    FreeOrOwned(sb, fs.blocks, owner);
    var free := FreeBlocks(sb, fs.blocks);
    assert |free + owner.Keys| == |free| + |owner.Keys| && |owner| == |owner.Keys|;
    assert free == {} <==> |free| == 0;
  }

  lemma FreeOrOwned(sb: Super, blocks: seq<Block>, owner: map<nat, Ref>)
    requires sb.Ok() && |blocks| == sb.size && BitsOk(sb, blocks, owner, {}) && forall b :: b in owner ==> sb.Data(b)
    ensures FreeBlocks(sb, blocks) !! owner.Keys
    ensures FreeBlocks(sb, blocks) + owner.Keys == Range(sb.DataStart(), sb.size)
    ensures FreeBlocks(sb, blocks) == {} <==> forall c: nat :: c < sb.size ==> BitAt(sb, blocks, c)
  {
    hide BitAt;
    assert forall c: nat :: c in FreeBlocks(sb, blocks) <==> c < sb.size && !BitAt(sb, blocks, c);
  }

  // ---------------------------------------------------------------- bits

  /** Setting or clearing one bit of the map moves no other bit. */
  lemma BitUpdate(sb: Super, blocks: seq<Block>, b: nat, v: bool, c: nat)
    requires sb.Ok() && |blocks| == sb.size && b < sb.size && c < sb.size
    ensures var bb := sb.BBlock(b);
      BitAt(sb, blocks[bb := PutBlockBit(blocks[bb], b % BPB, v)], c) == if c == b then v else BitAt(sb, blocks, c)
  {
    hide BlockBit, PutBlockBit;
    if sb.BBlock(b) == sb.BBlock(c) {
      BlockBitPut(blocks[sb.BBlock(b)], b % BPB, v, c % BPB);
      assert b % BPB == c % BPB ==> b == c;
    }
  }

  /** Changing a data block changes no bit. */
  lemma BitFrame(sb: Super, blocks: seq<Block>, b: nat, data: Block, c: nat)
    requires sb.Ok() && |blocks| == sb.size && sb.Data(b) && c < sb.size
    ensures BitAt(sb, blocks[b := data], c) == BitAt(sb, blocks, c)
  {
  }

  /** The blocks after bfree of `b`, or after balloc marks `b`. */
  function Marked(sb: Super, blocks: seq<Block>, b: nat, v: bool): (r: seq<Block>)
    requires sb.Ok() && |blocks| == sb.size && b < sb.size
    ensures |r| == |blocks|
  {
    var bb := sb.BBlock(b);
    blocks[bb := PutBlockBit(blocks[bb], b % BPB, v)]
  }

  /** What balloc does to the blocks: set the bit of `b`, zero `b`. */
  function Taken(sb: Super, blocks: seq<Block>, b: nat): (r: seq<Block>)
    requires sb.Ok() && |blocks| == sb.size && sb.Data(b)
    ensures |r| == |blocks|
  {
    Marked(sb, blocks, b, true)[b := ZeroBlock()]
  }

  lemma TakenBits(sb: Super, blocks: seq<Block>, owner: map<nat, Ref>, held: set<nat>, b: nat)
    requires sb.Ok() && |blocks| == sb.size && BitsOk(sb, blocks, owner, held)
    requires b < sb.size && !BitAt(sb, blocks, b)
    ensures sb.Data(b) && b !in owner && b !in held
    ensures BitsOk(sb, Taken(sb, blocks, b), owner, held + {b})
  {
    hide BitAt, PutBlockBit;
    forall c: nat | c < sb.size
      ensures BitAt(sb, Taken(sb, blocks, b), c) == (c == b || BitAt(sb, blocks, c))
    {
      BitUpdate(sb, blocks, b, true, c);
      BitFrame(sb, Marked(sb, blocks, b, true), b, ZeroBlock(), c);
    }
  }

  lemma FreedBits(sb: Super, blocks: seq<Block>, owner: map<nat, Ref>, held: set<nat>, b: nat)
    requires sb.Ok() && |blocks| == sb.size && BitsOk(sb, blocks, owner, held)
    requires b in owner && sb.Data(b)
    ensures BitAt(sb, blocks, b)
    ensures BitsOk(sb, Marked(sb, blocks, b, false), owner - {b}, held)
  {
    hide BitAt, PutBlockBit;
    forall c: nat | c < sb.size
      ensures BitAt(sb, Marked(sb, blocks, b, false), c) == (c != b && BitAt(sb, blocks, c))
    {
      BitUpdate(sb, blocks, b, false, c);
    }
  }

  lemma DataBits(sb: Super, blocks: seq<Block>, owner: map<nat, Ref>, held: set<nat>, b: nat, data: Block)
    requires sb.Ok() && |blocks| == sb.size && BitsOk(sb, blocks, owner, held) && sb.Data(b)
    ensures BitsOk(sb, blocks[b := data], owner, held)
  {
    hide BitAt;
    forall c: nat | c < sb.size
      ensures BitAt(sb, blocks[b := data], c) == BitAt(sb, blocks, c)
    {
      BitFrame(sb, blocks, b, data, c);
    }
  }

  // ---------------------------------------------------------------- slots

  /** All slots but (i, k) agree. */
  ghost predicate SameSlotsBut(sb: Super, fs: Fs, fs': Fs, i: nat, k: nat)
    requires ShapeOk(sb, fs) && ShapeOk(sb, fs')
  {
    forall j: nat, l: nat :: j < sb.ninodes && l < NSLOTS && !(j == i && l == k) ==> Slot(fs', j, l) == Slot(fs, j, l)
  }

  lemma SlotFilled(sb: Super, fs: Fs, fs': Fs, owner: map<nat, Ref>, i: nat, k: nat, b: nat)
    requires ShapeOk(sb, fs) && ShapeOk(sb, fs') && SlotsOk(sb, fs, owner, NoGap)
    requires i < sb.ninodes && k < NSLOTS && sb.Data(b) && b !in owner
    requires SameSlotsBut(sb, fs, fs', i, k) && Slot(fs, i, k) == 0 && Slot(fs', i, k) == b
    ensures SlotsOk(sb, fs', owner[b := Ref(i, k)], NoGap)
  {
    hide Slot;
    var owner' := owner[b := Ref(i, k)];
    forall c | c in owner'
      ensures sb.Data(c) && owner'[c].i < sb.ninodes && owner'[c].k < NSLOTS && Slot(fs', owner'[c].i, owner'[c].k) == c
    {
      if c != b {
        var r := owner[c];
        assert sb.Data(c) && Slot(fs, r.i, r.k) == c != 0;
        assert Slot(fs', r.i, r.k) == Slot(fs, r.i, r.k);
      }
    }
    forall j: nat, l: nat | j < sb.ninodes && l < NSLOTS && Slot(fs', j, l) != 0
      ensures Slot(fs', j, l) in owner' && owner'[Slot(fs', j, l)] == Ref(j, l)
    {
      if !(j == i && l == k) {
        assert Slot(fs', j, l) == Slot(fs, j, l);
      }
    }
  }

  lemma SlotEmptied(sb: Super, fs: Fs, fs': Fs, owner: map<nat, Ref>, i: nat, k: nat)
    requires ShapeOk(sb, fs) && ShapeOk(sb, fs') && SlotsOk(sb, fs, owner, NoGap)
    requires i < sb.ninodes && k < NSLOTS && Slot(fs, i, k) != 0
    requires SameSlotsBut(sb, fs, fs', i, k) && Slot(fs', i, k) == 0
    ensures SlotsOk(sb, fs', owner - {Slot(fs, i, k)}, NoGap)
  {
    hide Slot;
  }

  lemma SlotIntoGap(sb: Super, fs: Fs, fs': Fs, owner: map<nat, Ref>, i: nat, j: nat)
    requires ShapeOk(sb, fs) && ShapeOk(sb, fs') && SlotsOk(sb, fs, owner, Gap(i, j))
    requires i < sb.ninodes && j < NINDIRECT
    requires forall i': nat, k: nat :: i' < sb.ninodes && k < NSLOTS ==> Slot(fs', i', k) == Slot(fs, i', k)
    ensures SlotsOk(sb, fs', owner - {Slot(fs, i, NDIRECT + 1 + j)}, Gap(i, j + 1))
  {
    hide Slot;
  }

  /** A slot's value depends only on its inode and that inode's indirect block. */
  lemma SlotFrame(fs: Fs, fs': Fs, i: nat, k: nat)
    requires i < |fs.inodes| && i < |fs'.inodes| && k < NSLOTS && |fs.inodes[i].addrs| == NDIRECT + 1
    requires fs.inodes[i] == fs'.inodes[i]
    requires fs.inodes[i].addrs[NDIRECT] < |fs.blocks| && fs.inodes[i].addrs[NDIRECT] < |fs'.blocks|
    requires var x := fs.inodes[i].addrs[NDIRECT]; x != 0 ==> fs.blocks[x] == fs'.blocks[x]
    ensures Slot(fs, i, k) == Slot(fs', i, k)
  {
  }

  /** An indirect block is a data block owned by its inode, unless slot 12 is empty. */
  lemma IndirectIsOwned(sb: Super, fs: Fs, owner: map<nat, Ref>, gap: Gap, i: nat)
    requires ShapeOk(sb, fs) && SlotsOk(sb, fs, owner, gap) && i < sb.ninodes
    ensures var x := fs.inodes[i].addrs[NDIRECT];
      x != 0 ==> x in owner && owner[x] == Ref(i, NDIRECT) && sb.Data(x)
  {
    hide Word;
    assert Slot(fs, i, NDIRECT) == fs.inodes[i].addrs[NDIRECT];
  }

  /** Changing blocks other than indirect blocks changes no slot. */
  lemma SlotsFrame(sb: Super, fs: Fs, blocks: seq<Block>, owner: map<nat, Ref>, gap: Gap)
    requires ShapeOk(sb, fs) && SlotsOk(sb, fs, owner, gap) && |blocks| == sb.size
    requires forall b: nat :: b in owner && owner[b].k == NDIRECT ==> b < sb.size && blocks[b] == fs.blocks[b]
    ensures forall i: nat, k: nat :: i < sb.ninodes && k < NSLOTS ==>
      Slot(fs.(blocks := blocks), i, k) == Slot(fs, i, k)
    ensures SlotsOk(sb, fs.(blocks := blocks), owner, gap)
  {
    hide Slot;
    forall i: nat, k: nat | i < sb.ninodes && k < NSLOTS
      ensures Slot(fs.(blocks := blocks), i, k) == Slot(fs, i, k)
    {
      IndirectIsOwned(sb, fs, owner, gap, i);
      SlotFrame(fs, fs.(blocks := blocks), i, k);
    }
  }

  lemma BitmapIsMeta(sb: Super, b: nat)
    requires sb.Ok() && b < sb.size
    ensures sb.BBlock(b) < sb.DataStart() && sb.Bitmap(sb.BBlock(b))
  {
    assert b / BPB <= (sb.size - 1) / BPB;
  }

  /** Bit bi of the bitmap block that covers the blocks from `base` on. */
  lemma BitOfBlock(sb: Super, blocks: seq<Block>, base: nat, bi: nat)
    requires sb.Ok() && |blocks| == sb.size && base % BPB == 0 && bi < BPB && base + bi < sb.size
    ensures sb.BBlock(base) == sb.BBlock(base + bi) < sb.size && (base + bi) % BPB == bi
    ensures BitAt(sb, blocks, base + bi) == BlockBit(blocks[sb.BBlock(base)], bi)
  {
    hide BlockBit;
    BitmapIsMeta(sb, base + bi);
  }

  /** Marking the bitmap changes no slot. */
  lemma MarkSlots(sb: Super, fs: Fs, owner: map<nat, Ref>, gap: Gap, b: nat, v: bool)
    requires ShapeOk(sb, fs) && SlotsOk(sb, fs, owner, gap) && b < sb.size
    ensures var fs' := fs.(blocks := Marked(sb, fs.blocks, b, v));
      && SlotsOk(sb, fs', owner, gap)
      && forall i: nat, k: nat :: i < sb.ninodes && k < NSLOTS ==> Slot(fs', i, k) == Slot(fs, i, k)
  {
    hide PutBlockBit, Slot;
    BitmapIsMeta(sb, b);
    SlotsFrame(sb, fs, Marked(sb, fs.blocks, b, v), owner, gap);
  }

  // ---------------------------------------------------------------- the operations on blocks

  /** balloc of a clear bit: every slot keeps its value, and the block is held. */
  lemma AllocKeeps(sb: Super, fs: Fs, owner: map<nat, Ref>, held: set<nat>, gap: Gap, b: nat)
    requires OwnedBy(sb, fs, owner, held, gap) && b < sb.size && !BitAt(sb, fs.blocks, b)
    ensures sb.Data(b) && b !in owner && b !in held
    ensures OwnedBy(sb, fs.(blocks := Taken(sb, fs.blocks, b)), owner, held + {b}, gap)
    ensures forall i: nat, k: nat :: i < sb.ninodes && k < NSLOTS ==>
      Slot(fs.(blocks := Taken(sb, fs.blocks, b)), i, k) == Slot(fs, i, k)
  {
    hide Slot, BitAt, PutBlockBit;
    TakenBits(sb, fs.blocks, owner, held, b);
    SlotsFrame(sb, fs, Taken(sb, fs.blocks, b), owner, gap);
  }

  /** New contents for a block that is no inode's indirect block. */
  lemma DataKeeps(sb: Super, fs: Fs, owner: map<nat, Ref>, held: set<nat>, gap: Gap, b: nat, data: Block)
    requires OwnedBy(sb, fs, owner, held, gap) && sb.Data(b) && (b in owner ==> owner[b].k != NDIRECT)
    ensures OwnedBy(sb, fs.(blocks := fs.blocks[b := data]), owner, held, gap)
    ensures forall i: nat, k: nat :: i < sb.ninodes && k < NSLOTS ==>
      Slot(fs.(blocks := fs.blocks[b := data]), i, k) == Slot(fs, i, k)
  {
    hide Slot, BitAt;
    DataBits(sb, fs.blocks, owner, held, b, data);
    SlotsFrame(sb, fs, fs.blocks[b := data], owner, gap);
  }

  function SetAddr(fs: Fs, i: nat, k: nat, a: Uint): (r: Fs)
    requires i < |fs.inodes| && k < |fs.inodes[i].addrs|
  {
    fs.(inodes := fs.inodes[i := fs.inodes[i].(addrs := fs.inodes[i].addrs[k := a])])
  }

  /** Storing `a` in an address field leaves every other slot alone, if the inode has no indirect
      entries that the change could hide or reveal. */
  lemma SetAddrSlots(sb: Super, fs: Fs, i: nat, k: nat, a: Uint)
    requires ShapeOk(sb, fs) && i < sb.ninodes && k <= NDIRECT && a < sb.size
    requires k == NDIRECT && a != 0 ==> fs.inodes[i].addrs[k] == 0 && fs.blocks[a] == ZeroBlock()
    requires k == NDIRECT && a == 0 ==> forall j: nat :: NDIRECT < j < NSLOTS ==> Slot(fs, i, j) == 0
    ensures ShapeOk(sb, SetAddr(fs, i, k, a))
    ensures SameSlotsBut(sb, fs, SetAddr(fs, i, k, a), i, k) && Slot(SetAddr(fs, i, k, a), i, k) == a
  {
    hide Word;
    var fs' := SetAddr(fs, i, k, a);
    if k == NDIRECT && a != 0 {
      forall j: nat | j < NINDIRECT
        ensures Word(fs'.blocks[a], j) == 0
      {
        ZeroWord(j);
      }
    }
  }

  /** bmap stores a fresh block in a direct slot or in the indirect slot. */
  lemma LinkKeeps(sb: Super, fs: Fs, owner: map<nat, Ref>, held: set<nat>, i: nat, k: nat, b: nat)
    requires OwnedBy(sb, fs, owner, held, NoGap) && b in held && i < sb.ninodes && k <= NDIRECT && fs.inodes[i].typ != 0
    requires fs.inodes[i].addrs[k] == 0 && (k == NDIRECT ==> fs.blocks[b] == ZeroBlock())
    ensures ShapeOk(sb, SetAddr(fs, i, k, b))
    ensures OwnedBy(sb, SetAddr(fs, i, k, b), owner[b := Ref(i, k)], held - {b}, NoGap)
    ensures SameSlotsBut(sb, fs, SetAddr(fs, i, k, b), i, k) && Slot(SetAddr(fs, i, k, b), i, k) == b
  {
    hide BitAt, Word;
    SetAddrSlots(sb, fs, i, k, b);
    SlotFilled(sb, fs, SetAddr(fs, i, k, b), owner, i, k, b);
  }

  function SetEntry(fs: Fs, x: nat, j: nat, a: Uint): (r: Fs)
    requires x < |fs.blocks| && j < NINDIRECT
  {
    fs.(blocks := fs.blocks[x := PutWord(fs.blocks[x], j, a)])
  }

  lemma SetEntrySlots(sb: Super, fs: Fs, owner: map<nat, Ref>, i: nat, j: nat, b: nat)
    requires ShapeOk(sb, fs) && SlotsOk(sb, fs, owner, NoGap) && i < sb.ninodes && j < NINDIRECT && b < sb.size
    requires fs.inodes[i].addrs[NDIRECT] != 0
    ensures var fs' := SetEntry(fs, fs.inodes[i].addrs[NDIRECT], j, b);
      && ShapeOk(sb, fs') && SameSlotsBut(sb, fs, fs', i, NDIRECT + 1 + j) && Slot(fs', i, NDIRECT + 1 + j) == b
  {
    hide PutWord, Word;
    var x := fs.inodes[i].addrs[NDIRECT];
    var fs' := SetEntry(fs, x, j, b);
    WordRoundTrip(fs.blocks[x], j, b);
    forall i': nat, k: nat | i' < sb.ninodes && k < NSLOTS && !(i' == i && k == NDIRECT + 1 + j)
      ensures Slot(fs', i', k) == Slot(fs, i', k)
    {
      IndirectIsOwned(sb, fs, owner, NoGap, i);
      IndirectIsOwned(sb, fs, owner, NoGap, i');
    }
  }

  /** bmap stores a fresh block in an entry of the indirect block. */
  lemma LinkEntryKeeps(sb: Super, fs: Fs, owner: map<nat, Ref>, held: set<nat>, i: nat, j: nat, b: nat)
    requires OwnedBy(sb, fs, owner, held, NoGap) && b in held && i < sb.ninodes && j < NINDIRECT
    requires fs.inodes[i].addrs[NDIRECT] != 0 && Slot(fs, i, NDIRECT + 1 + j) == 0
    ensures var fs' := SetEntry(fs, fs.inodes[i].addrs[NDIRECT], j, b);
      && OwnedBy(sb, fs', owner[b := Ref(i, NDIRECT + 1 + j)], held - {b}, NoGap)
      && SameSlotsBut(sb, fs, fs', i, NDIRECT + 1 + j) && Slot(fs', i, NDIRECT + 1 + j) == b
  {
    hide BitAt, PutWord, Slot;
    var x := fs.inodes[i].addrs[NDIRECT];
    IndirectIsOwned(sb, fs, owner, NoGap, i);
    SetEntrySlots(sb, fs, owner, i, j, b);
    SlotFilled(sb, fs, SetEntry(fs, x, j, b), owner, i, NDIRECT + 1 + j, b);
    DataBits(sb, fs.blocks, owner, held, x, PutWord(fs.blocks[x], j, b));
  }

  /** bfree of a direct block and the clearing of its slot. */
  lemma UnlinkKeeps(sb: Super, fs: Fs, owner: map<nat, Ref>, held: set<nat>, i: nat, k: nat)
    requires OwnedBy(sb, fs, owner, held, NoGap) && i < sb.ninodes && k < NDIRECT && fs.inodes[i].addrs[k] != 0
    ensures sb.Data(fs.inodes[i].addrs[k])
    ensures var a := fs.inodes[i].addrs[k]; var fs1 := fs.(blocks := Marked(sb, fs.blocks, a, false));
      && a in owner && owner[a] == Ref(i, k) && BitAt(sb, fs.blocks, a)
      && ShapeOk(sb, SetAddr(fs1, i, k, 0))
      && OwnedBy(sb, SetAddr(fs1, i, k, 0), owner - {a}, held, NoGap)
      && SameSlotsBut(sb, fs, SetAddr(fs1, i, k, 0), i, k)
  {
    hide Slot, BitAt, PutBlockBit;
    var a := fs.inodes[i].addrs[k];
    assert Slot(fs, i, k) == a by { SlotOfAddr(fs, i, k); }
    var fs1 := fs.(blocks := Marked(sb, fs.blocks, a, false));
    FreedBits(sb, fs.blocks, owner, held, a);
    MarkSlots(sb, fs, owner, NoGap, a, false);
    SetAddrSlots(sb, fs1, i, k, 0);
    assert Slot(fs1, i, k) == Slot(fs, i, k);
    SlotEmptied(sb, fs1, SetAddr(fs1, i, k, 0), owner, i, k);
  }

  lemma SlotOfAddr(fs: Fs, i: nat, k: nat)
    requires i < |fs.inodes| && k <= NDIRECT && |fs.inodes[i].addrs| == NDIRECT + 1
    requires fs.inodes[i].addrs[NDIRECT] < |fs.blocks|
    ensures Slot(fs, i, k) == fs.inodes[i].addrs[k]
  {
  }

  lemma SkipEntryKeeps(sb: Super, fs: Fs, owner: map<nat, Ref>, i: nat, j: nat)
    requires ShapeOk(sb, fs) && SlotsOk(sb, fs, owner, Gap(i, j)) && i < sb.ninodes && j < NINDIRECT
    requires Slot(fs, i, NDIRECT + 1 + j) == 0
    ensures SlotsOk(sb, fs, owner, Gap(i, j + 1))
  {
    hide Slot;
    assert 0 !in owner && owner - {0} == owner;
    SlotIntoGap(sb, fs, fs, owner, i, j);
  }

  /** itrunc frees entry j of the indirect block, leaving the entry itself in place. */
  lemma FreeEntryKeeps(sb: Super, fs: Fs, owner: map<nat, Ref>, held: set<nat>, i: nat, j: nat)
    requires OwnedBy(sb, fs, owner, held, Gap(i, j)) && i < sb.ninodes && j < NINDIRECT
    requires Slot(fs, i, NDIRECT + 1 + j) != 0
    ensures var a := Slot(fs, i, NDIRECT + 1 + j);
      && sb.Data(a) && a in owner && owner[a] == Ref(i, NDIRECT + 1 + j) && BitAt(sb, fs.blocks, a)
      && OwnedBy(sb, fs.(blocks := Marked(sb, fs.blocks, a, false)), owner - {a}, held, Gap(i, j + 1))
      && forall i': nat, k: nat :: i' < sb.ninodes && k < NSLOTS ==>
           Slot(fs.(blocks := Marked(sb, fs.blocks, a, false)), i', k) == Slot(fs, i', k)
  {
    hide Slot, BitAt, PutBlockBit;
    var a := Slot(fs, i, NDIRECT + 1 + j);
    var fs1 := fs.(blocks := Marked(sb, fs.blocks, a, false));
    FreedBits(sb, fs.blocks, owner, held, a);
    MarkSlots(sb, fs, owner, Gap(i, j), a, false);
    SlotIntoGap(sb, fs, fs1, owner, i, j);
  }

  /** Clearing the indirect slot, once all its entries are in the gap. */
  lemma IndirectGone(sb: Super, fs: Fs, owner: map<nat, Ref>, i: nat)
    requires ShapeOk(sb, fs) && SlotsOk(sb, fs, owner, Gap(i, NINDIRECT)) && i < sb.ninodes
    requires fs.inodes[i].addrs[NDIRECT] != 0
    ensures ShapeOk(sb, SetAddr(fs, i, NDIRECT, 0))
    ensures SlotsOk(sb, SetAddr(fs, i, NDIRECT, 0), owner - {fs.inodes[i].addrs[NDIRECT]}, NoGap)
  {
    hide Slot;
    var fs' := SetAddr(fs, i, NDIRECT, 0);
    var x := fs.inodes[i].addrs[NDIRECT];
    ClearedIndirect(sb, fs, i);
    SlotOfAddr(fs, i, NDIRECT);
    forall b | b in owner - {x}
      ensures Slot(fs', owner[b].i, owner[b].k) == b
    {
      var r := owner[b];
      assert Slot(fs, r.i, r.k) == b && !(r.i == i && r.k >= NDIRECT);
    }
    forall j: nat, k: nat | j < sb.ninodes && k < NSLOTS && Slot(fs', j, k) != 0
      ensures Slot(fs', j, k) in owner - {x} && owner[Slot(fs', j, k)] == Ref(j, k)
    {
      assert Slot(fs', j, k) == Slot(fs, j, k);
    }
  }

  lemma ClearedIndirect(sb: Super, fs: Fs, i: nat)
    requires ShapeOk(sb, fs) && i < sb.ninodes
    ensures var fs' := SetAddr(fs, i, NDIRECT, 0);
      && ShapeOk(sb, fs')
      && (forall j: nat, k: nat :: j < sb.ninodes && k < NSLOTS && (j != i || k < NDIRECT) ==>
           Slot(fs', j, k) == Slot(fs, j, k))
      && (forall k: nat :: NDIRECT <= k < NSLOTS ==> Slot(fs', i, k) == 0)
  {
    hide Word;
  }

  /** When every entry is freed, the indirect block itself goes. */
  lemma FreeIndirectKeeps(sb: Super, fs: Fs, owner: map<nat, Ref>, held: set<nat>, i: nat)
    requires OwnedBy(sb, fs, owner, held, Gap(i, NINDIRECT)) && i < sb.ninodes && fs.inodes[i].addrs[NDIRECT] != 0
    ensures var x := fs.inodes[i].addrs[NDIRECT]; var fs1 := fs.(blocks := Marked(sb, fs.blocks, x, false));
      && sb.Data(x) && x in owner && owner[x] == Ref(i, NDIRECT) && BitAt(sb, fs.blocks, x)
      && ShapeOk(sb, SetAddr(fs1, i, NDIRECT, 0))
      && OwnedBy(sb, SetAddr(fs1, i, NDIRECT, 0), owner - {x}, held, NoGap)
      && (forall j: nat, k: nat :: j < sb.ninodes && k < NSLOTS && (j != i || k < NDIRECT) ==>
            Slot(SetAddr(fs1, i, NDIRECT, 0), j, k) == Slot(fs, j, k))
      && (forall k: nat :: NDIRECT <= k < NSLOTS ==> Slot(SetAddr(fs1, i, NDIRECT, 0), i, k) == 0)
  {
    hide BitAt, PutBlockBit, Slot;
    var x := fs.inodes[i].addrs[NDIRECT];
    IndirectIsOwned(sb, fs, owner, Gap(i, NINDIRECT), i);
    var fs1 := fs.(blocks := Marked(sb, fs.blocks, x, false));
    FreedBits(sb, fs.blocks, owner, held, x);
    MarkSlots(sb, fs, owner, Gap(i, NINDIRECT), x, false);
    IndirectGone(sb, fs1, owner, i);
    ClearedIndirect(sb, fs1, i);
  }

  /** New contents for a block below the bitmap. */
  lemma MetaKeeps(sb: Super, fs: Fs, owner: map<nat, Ref>, b: nat, data: Block)
    requires OwnedBy(sb, fs, owner, {}, NoGap) && b < sb.bmapstart
    ensures |fs.blocks| > b && OwnedBy(sb, fs.(blocks := fs.blocks[b := data]), owner, {}, NoGap)
    ensures forall i: nat, k: nat :: i < sb.ninodes && k < NSLOTS ==>
      Slot(fs.(blocks := fs.blocks[b := data]), i, k) == Slot(fs, i, k)
  {
    hide Slot, BlockBit;
    var blocks := fs.blocks[b := data];
    forall c: nat | c < sb.size
      ensures BitAt(sb, blocks, c) == BitAt(sb, fs.blocks, c)
    {
      BitmapIsMeta(sb, c);
    }
    SlotsFrame(sb, fs, blocks, owner, NoGap);
  }

  // ---------------------------------------------------------------- growing a file

  /** fs' has everything fs has: inode i may have gained blocks, which were free before, and of the
      blocks already owned only inode i's indirect block may differ. */
  ghost predicate Grown(sb: Super, fs: Fs, owner: map<nat, Ref>, fs': Fs, owner': map<nat, Ref>, i: nat)
  {
    && ShapeOk(sb, fs) && ShapeOk(sb, fs') && i < sb.ninodes
    && fs'.inodes == fs.inodes[i := fs.inodes[i].(addrs := fs'.inodes[i].addrs)]
    && (forall b :: b in owner ==> b in owner' && owner'[b] == owner[b])
    && (forall b :: b in owner' && b !in owner ==> owner'[b].i == i)
    && (forall b: nat :: b in owner && b < sb.size && owner[b] != Ref(i, NDIRECT) ==> fs'.blocks[b] == fs.blocks[b])
    && SameInodes(sb, fs.blocks, fs'.blocks)
  }

  lemma GrownSelf(sb: Super, fs: Fs, owner: map<nat, Ref>, i: nat)
    requires ShapeOk(sb, fs) && i < sb.ninodes
    ensures Grown(sb, fs, owner, fs, owner, i)
    ensures forall k: nat :: SameSlotsBut(sb, fs, fs, i, k)
  {
    hide Slot;
  }

  lemma GrownKeys(sb: Super, fs: Fs, owner: map<nat, Ref>, fs': Fs, owner': map<nat, Ref>, i: nat)
    requires Grown(sb, fs, owner, fs', owner', i)
    ensures owner.Keys <= owner'.Keys
  {
    hide ShapeOk;
  }

  lemma GrownTwice(sb: Super, fs: Fs, own: map<nat, Ref>, fs1: Fs, own1: map<nat, Ref>, fs2: Fs, own2: map<nat, Ref>,
                   i: nat)
    requires Grown(sb, fs, own, fs1, own1, i) && Grown(sb, fs1, own1, fs2, own2, i)
    ensures Grown(sb, fs, own, fs2, own2, i)
  {
  }

  /** balloc, then store the block in address field k. */
  lemma GrowAddr(sb: Super, fs: Fs, owner: map<nat, Ref>, i: nat, k: nat, b: nat)
    requires OwnedBy(sb, fs, owner, {}, NoGap) && i < sb.ninodes && k <= NDIRECT
    requires fs.inodes[i].typ != 0 && fs.inodes[i].addrs[k] == 0
    requires b < sb.size && !BitAt(sb, fs.blocks, b)
    ensures sb.Data(b) && b !in owner
    ensures var fs' := SetAddr(fs.(blocks := Taken(sb, fs.blocks, b)), i, k, b);
      && OwnedBy(sb, fs', owner[b := Ref(i, k)], {}, NoGap)
      && Grown(sb, fs, owner, fs', owner[b := Ref(i, k)], i)
      && SameSlotsBut(sb, fs, fs', i, k) && Slot(fs', i, k) == b
      && fs'.blocks[b] == ZeroBlock()
  {
    hide Slot, SlotsOk, BitsOk, BitAt, PutBlockBit;
    AllocKeeps(sb, fs, owner, {}, NoGap, b);
    var fs1 := fs.(blocks := Taken(sb, fs.blocks, b));
    assert {} + {b} == {b} && {b} - {b} == {};
    LinkKeeps(sb, fs1, owner, {b}, i, k, b);
    TakenKeepsOwned(sb, fs, owner, b);
  }

  lemma TakenKeepsOwned(sb: Super, fs: Fs, owner: map<nat, Ref>, b: nat)
    requires ShapeOk(sb, fs) && SlotsOk(sb, fs, owner, NoGap) && sb.Data(b) && b !in owner
    ensures forall c: nat :: c in owner && c < sb.size ==> Taken(sb, fs.blocks, b)[c] == fs.blocks[c]
    ensures SameInodes(sb, fs.blocks, Taken(sb, fs.blocks, b))
  {
    hide Slot, PutBlockBit;
    BitmapIsMeta(sb, b);
  }

  /** balloc, then store the block in entry j of the indirect block. */
  lemma GrowEntry(sb: Super, fs: Fs, owner: map<nat, Ref>, i: nat, j: nat, b: nat)
    requires OwnedBy(sb, fs, owner, {}, NoGap) && i < sb.ninodes && j < NINDIRECT
    requires fs.inodes[i].addrs[NDIRECT] != 0 && Slot(fs, i, NDIRECT + 1 + j) == 0
    requires b < sb.size && !BitAt(sb, fs.blocks, b)
    ensures sb.Data(b) && b !in owner
    ensures var fs' := SetEntry(fs.(blocks := Taken(sb, fs.blocks, b)), fs.inodes[i].addrs[NDIRECT], j, b);
      && OwnedBy(sb, fs', owner[b := Ref(i, NDIRECT + 1 + j)], {}, NoGap)
      && Grown(sb, fs, owner, fs', owner[b := Ref(i, NDIRECT + 1 + j)], i)
      && SameSlotsBut(sb, fs, fs', i, NDIRECT + 1 + j) && Slot(fs', i, NDIRECT + 1 + j) == b
      && fs'.blocks[b] == ZeroBlock()
  {
    hide Slot, SlotsOk, BitsOk, BitAt, PutBlockBit, PutWord;
    AllocKeeps(sb, fs, owner, {}, NoGap, b);
    var fs1 := fs.(blocks := Taken(sb, fs.blocks, b));
    assert {} + {b} == {b} && {b} - {b} == {};
    LinkEntryKeeps(sb, fs1, owner, {b}, i, j, b);
    TakenKeepsOwned(sb, fs, owner, b);
    IndirectIsOwned(sb, fs, owner, NoGap, i);
  }

  /** A non-empty slot holds a data block that it owns. */
  lemma OwnedSlot(sb: Super, fs: Fs, owner: map<nat, Ref>, i: nat, k: nat)
    requires ShapeOk(sb, fs) && SlotsOk(sb, fs, owner, NoGap) && i < sb.ninodes && k < NSLOTS && Slot(fs, i, k) != 0
    ensures var a := Slot(fs, i, k); sb.Data(a) && a in owner && owner[a] == Ref(i, k)
  {
    hide Slot;
  }

  /** Growing inode i leaves every slot of the other inodes as it was. */
  lemma GrownSlots(sb: Super, fs: Fs, owner: map<nat, Ref>, fs': Fs, owner': map<nat, Ref>, i: nat, j: nat, k: nat)
    requires OwnedBy(sb, fs, owner, {}, NoGap) && Grown(sb, fs, owner, fs', owner', i)
    requires j < sb.ninodes && j != i && k < NSLOTS
    ensures Slot(fs', j, k) == Slot(fs, j, k)
  {
    hide Slot, BitsOk;
    IndirectIsOwned(sb, fs, owner, NoGap, j);
    SlotFrame(fs, fs', j, k);
  }

  // ---------------------------------------------------------------- shrinking a file

  /** fs' is fs with some blocks of inode i given back; no data block's contents changed. */
  ghost predicate Shrunk(sb: Super, fs: Fs, owner: map<nat, Ref>, fs': Fs, owner': map<nat, Ref>, i: nat)
  {
    && ShapeOk(sb, fs) && ShapeOk(sb, fs') && i < sb.ninodes
    && fs'.inodes == fs.inodes[i := fs.inodes[i].(addrs := fs'.inodes[i].addrs)]
    && (forall b :: b in owner' ==> b in owner && owner'[b] == owner[b])
    && (forall b :: b in owner && b !in owner' ==> owner[b].i == i)
    && (forall b: nat :: sb.Data(b) ==> fs'.blocks[b] == fs.blocks[b])
    && SameInodes(sb, fs.blocks, fs'.blocks)
  }

  lemma ShrunkTwice(sb: Super, fs: Fs, own: map<nat, Ref>, fs1: Fs, own1: map<nat, Ref>, fs2: Fs, own2: map<nat, Ref>,
                    i: nat)
    requires Shrunk(sb, fs, own, fs1, own1, i) && Shrunk(sb, fs1, own1, fs2, own2, i)
    ensures Shrunk(sb, fs, own, fs2, own2, i)
  {
  }

  /** Freeing one block of inode i: its bit, its owner, and maybe an address field of i. */
  lemma ShrunkOnce(sb: Super, fs: Fs, owner: map<nat, Ref>, a: nat, addrs: seq<Uint>, i: nat)
    requires ShapeOk(sb, fs) && i < sb.ninodes && a < sb.size && a in owner && owner[a].i == i
    requires |addrs| == NDIRECT + 1 && addrs[NDIRECT] < sb.size
    ensures Shrunk(sb, fs, owner,
              Fs(Marked(sb, fs.blocks, a, false), fs.inodes[i := fs.inodes[i].(addrs := addrs)]), owner - {a}, i)
  {
    hide PutBlockBit;
    BitmapIsMeta(sb, a);
  }

  /** Shrinking inode i leaves every slot of the other inodes as it was. */
  lemma ShrunkSlots(sb: Super, fs: Fs, owner: map<nat, Ref>, fs': Fs, owner': map<nat, Ref>, i: nat, j: nat, k: nat)
    requires ShapeOk(sb, fs) && SlotsOk(sb, fs, owner, NoGap) && Shrunk(sb, fs, owner, fs', owner', i)
    requires j < sb.ninodes && j != i && k < NSLOTS
    ensures Slot(fs', j, k) == Slot(fs, j, k)
  {
    hide Slot;
    IndirectIsOwned(sb, fs, owner, NoGap, j);
    SlotFrame(fs, fs', j, k);
  }
}
