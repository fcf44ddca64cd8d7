/** fs.c's block allocator, block map, truncation, read and write, as code over the block cache. */
module FsCode {
  import opened Machine
  import opened Blocks
  import opened FsLayout
  import opened DiskInode
  import opened Ownership
  import opened FileContents

  const T_DEV := 3

  datatype Mapped = Mapped(addr: Uint) | OutOfBlocks | OutOfRange

  /** Every inode as the inode blocks hold it. */
  function AllStored(sb: Super, blocks: seq<Block>): (s: seq<Inode>)
    requires sb.Ok() && |blocks| == sb.size
    ensures |s| == sb.ninodes && forall i: nat :: i < |s| ==> s[i] == Stored(sb, blocks, i)
  {
    seq(sb.ninodes, i requires 0 <= i < sb.ninodes => Stored(sb, blocks, i))
  }

  lemma StoredAgain(sb: Super, blocks: seq<Block>, mid: seq<Block>, blocks': seq<Block>, i: nat, x: Inode)
    requires sb.Ok() && |blocks| == |mid| == |blocks'| == sb.size
    requires SameInodes(sb, blocks, mid) && StoredBut(sb, mid, blocks', i, x)
    ensures StoredBut(sb, blocks, blocks', i, x)
  {
    hide Stored;
    forall j: nat | j < sb.ninodes
      ensures Stored(sb, mid, j) == Stored(sb, blocks, j)
    {
      SameStored(sb, blocks, mid, j);
    }
  }

  class FileSystem {
    const sb: Super
    /** Every block as bread returns it. */
    var blocks: seq<Block>
    /** The inodes as the kernel sees them: the in-memory copy where there is one. */
    var inodes: seq<Inode>
    ghost var owner: map<nat, Ref>
    /** The block numbers passed to log_write since this field was last emptied. */
    ghost var logged: set<nat>

    ghost function St(): (fs: Fs)
      reads this
    {
      Fs(blocks, inodes)
    }

    /** Ownership with `held` blocks handed out and not yet stored. */
    ghost predicate Holding(held: set<nat>)
      reads this
    {
      OwnedBy(sb, St(), owner, held, NoGap)
    }

    ghost predicate Valid()
      reads this
    {
      Holding({})
    }

    constructor (sb: Super, blocks: seq<Block>, ghost owner: map<nat, Ref>)
      requires sb.Ok() && |blocks| == sb.size && OwnedBy(sb, Fs(blocks, AllStored(sb, blocks)), owner, {}, NoGap)
      ensures Valid() && this.sb == sb && this.blocks == blocks && inodes == AllStored(sb, blocks)
      ensures this.owner == owner && logged == {}
    {
      this.sb, this.blocks, this.inodes, this.owner := sb, blocks, AllStored(sb, blocks), owner;
      logged := {};
    }

    /** balloc: the lowest clear bit, its block zeroed; fails (panics) when every bit is set. */
    method Balloc() returns (ok: bool, b: nat)
      requires Valid()
      modifies this`blocks, this`logged
      ensures ok <==> exists c: nat :: c < sb.size && !BitAt(sb, old(blocks), c)
      ensures ok ==> sb.Data(b) && !BitAt(sb, old(blocks), b) && forall c: nat :: c < b ==> BitAt(sb, old(blocks), c)
      ensures ok ==> blocks == Taken(sb, old(blocks), b) && logged == old(logged) + {sb.BBlock(b), b}
      ensures !ok ==> blocks == old(blocks) && logged == old(logged)
    {
      hide Slot, SlotsOk, BitsOk, BitAt, BlockBit, PutBlockBit;
      var base := 0;
      while base < sb.size
        invariant 0 <= base && base % BPB == 0
        invariant blocks == old(blocks) && logged == old(logged)
        invariant forall c: nat :: c < sb.size && c < base ==> BitAt(sb, blocks, c)
        decreases sb.size - base
      {
        var bi := 0;
        while bi < BPB && base + bi < sb.size
          invariant 0 <= bi <= BPB
          invariant blocks == old(blocks) && logged == old(logged)
          invariant forall c: nat :: c < sb.size && c < base + bi ==> BitAt(sb, blocks, c)
        {
          BitOfBlock(sb, blocks, base, bi);
          var bb := sb.BBlock(base);
          if !BlockBit(blocks[bb], bi) {
            b := base + bi;
            TakenBits(sb, blocks, owner, {}, b);
            blocks := blocks[bb := PutBlockBit(blocks[bb], bi, true)];
            logged := logged + {bb};
            Bzero(b);
            return true, b;
          }
          bi := bi + 1;
        }
        base := base + BPB;
      }
      return false, 0;
    }

    method Bzero(b: nat)
      requires b < |blocks|
      modifies this`blocks, this`logged
      ensures blocks == old(blocks)[b := ZeroBlock()] && logged == old(logged) + {b}
    {
      blocks := blocks[b := ZeroBlock()];
      logged := logged + {b};
    }

    /** bfree: clears a set bit; panics on a clear one. */
    method Bfree(b: nat) returns (panic: bool)
      requires sb.Ok() && |blocks| == sb.size && b < sb.size
      modifies this`blocks, this`logged
      ensures panic <==> !BitAt(sb, old(blocks), b)
      ensures !panic ==> blocks == Marked(sb, old(blocks), b, false) && logged == old(logged) + {sb.BBlock(b)}
      ensures panic ==> blocks == old(blocks) && logged == old(logged)
    {
      BitmapIsMeta(sb, b);
      var bb := sb.BBlock(b);
      var bi := b % BPB;
      if !BlockBit(blocks[bb], bi) {
        return true;
      }
      blocks := blocks[bb := PutBlockBit(blocks[bb], bi, false)];
      logged := logged + {bb};
      return false;
    }

    /** iupdate: the on-disk inode becomes the in-memory one; the others in its block, and every other block,
        stay as they are. */
    method Iupdate(i: nat)
      requires Valid() && i < sb.ninodes
      modifies this`blocks, this`logged
      ensures Valid() && StoredBut(sb, old(blocks), blocks, i, inodes[i])
      ensures blocks == old(blocks)[sb.IBlock(i) := blocks[sb.IBlock(i)]] && logged == old(logged) + {sb.IBlock(i)}
      ensures forall j: nat, k: nat :: j < sb.ninodes && k < NSLOTS ==> Slot(St(), j, k) == Slot(old(St()), j, k)
    {
      hide Slot, SlotsOk, BitsOk, BitAt, PutInode, GetInode;
      InodeBlockIsMeta(sb, i);
      var bb := sb.IBlock(i);
      var data := PutInode(blocks[bb], i % IPB, inodes[i]);
      MetaKeeps(sb, St(), owner, bb, data);
      blocks := blocks[bb := data];
      logged := logged + {bb};
      forall j: nat | j < sb.ninodes
        ensures Stored(sb, blocks, j) == if j == i then inodes[i] else Stored(sb, old(blocks), j)
      {
        InodeBlockIsMeta(sb, j);
        InodeRoundTrip(old(blocks)[bb], i % IPB, inodes[i], j % IPB);
        assert sb.IBlock(j) == bb && j % IPB == i % IPB ==> j == i;
      }
    }

    /** `if((addr = ip->addrs[k]) == 0) ip->addrs[k] = addr = balloc()`: fails only when the slot is
        empty and no block is free, and then changes nothing. */
    method LoadAddr(i: nat, k: nat) returns (ok: bool, addr: Uint)
      requires Valid() && i < sb.ninodes && k <= NDIRECT && inodes[i].typ != 0
      modifies this`blocks, this`inodes, this`owner, this`logged
      ensures old(logged) <= logged
      ensures Valid() && Grown(sb, old(St()), old(owner), St(), owner, i)
      ensures SameSlotsBut(sb, old(St()), St(), i, k)
      ensures ok ==> addr == Slot(St(), i, k) == inodes[i].addrs[k] != 0 && sb.Data(addr)
      ensures !ok ==> Slot(old(St()), i, k) == 0 && |owner| == sb.nblocks
      ensures |owner| == |old(owner)| + if ok && Slot(old(St()), i, k) == 0 then 1 else 0
      ensures !ok || Slot(old(St()), i, k) != 0 ==>
        St() == old(St()) && owner == old(owner) && logged == old(logged)
      ensures ok && Slot(old(St()), i, k) == 0 ==>
        addr !in old(owner) && blocks[addr] == ZeroBlock() && logged == old(logged) + {sb.BBlock(addr), addr}
    {
      hide Slot, SlotsOk, BitsOk, BitAt, Taken, Grown, SameSlotsBut;
      addr := inodes[i].addrs[k];
      SlotOfAddr(St(), i, k);
      GrownSelf(sb, St(), owner, i);
      ok := true;
      if addr == 0 {
        var b;
        FreeCount(sb, St(), owner);
        ok, b := Balloc();
        if ok {
          GrowAddr(sb, old(St()), owner, i, k, b);
          assert |owner[b := Ref(i, k)]| == |owner| + 1;
          inodes := inodes[i := inodes[i].(addrs := inodes[i].addrs[k := b])];
          owner := owner[b := Ref(i, k)];
          addr := b;
          assert St() == SetAddr(old(St()).(blocks := Taken(sb, old(blocks), b)), i, k, b);
        }
      } else {
        OwnedSlot(sb, St(), owner, i, k);
      }
    }

    /** Everything newly passed to log_write is bitmap, a, or x. */
    ghost predicate LogsOnly(before: set<nat>, a: nat, x: nat)
      reads this
    {
      forall b :: b in logged && b !in before ==> b == a || b == x || sb.Bitmap(b)
    }

    /** The indirect half of bmap, with the indirect block x already loaded: entry j, allocated if empty. */
    method LoadEntry(i: nat, j: nat) returns (ok: bool, addr: Uint)
      requires Valid() && i < sb.ninodes && j < NINDIRECT && inodes[i].addrs[NDIRECT] != 0
      modifies this`blocks, this`owner, this`logged
      ensures old(logged) <= logged
      ensures Valid() && Grown(sb, old(St()), old(owner), St(), owner, i)
      ensures SameSlotsBut(sb, old(St()), St(), i, NDIRECT + 1 + j)
      ensures ok ==> addr == Slot(St(), i, NDIRECT + 1 + j) != 0 && sb.Data(addr)
      ensures !ok ==> Slot(old(St()), i, NDIRECT + 1 + j) == 0 && |owner| == sb.nblocks
      ensures |owner| == |old(owner)| + if ok && Slot(old(St()), i, NDIRECT + 1 + j) == 0 then 1 else 0
      ensures !ok || Slot(old(St()), i, NDIRECT + 1 + j) != 0 ==>
        blocks == old(blocks) && owner == old(owner) && logged == old(logged)
      ensures ok && Slot(old(St()), i, NDIRECT + 1 + j) == 0 ==> addr !in old(owner) && blocks[addr] == ZeroBlock()
      ensures ok ==> LogsOnly(old(logged), addr, inodes[i].addrs[NDIRECT])
      ensures ok && Slot(old(St()), i, NDIRECT + 1 + j) == 0 ==>
        sb.BBlock(addr) in logged && addr in logged && inodes[i].addrs[NDIRECT] in logged
    {
      hide Slot, SlotsOk, BitsOk, BitAt, Taken, Grown, SameSlotsBut, Word, PutWord;
      var x := inodes[i].addrs[NDIRECT];
      addr := Word(blocks[x], j);
      SlotOfEntry(St(), i, j);
      GrownSelf(sb, St(), owner, i);
      ok := true;
      if addr == 0 {
        var b;
        FreeCount(sb, St(), owner);
        ok, b := Balloc();
        if ok {
          GrowEntry(sb, old(St()), owner, i, j, b);
          assert |owner[b := Ref(i, NDIRECT + 1 + j)]| == |owner| + 1;
          blocks := blocks[x := PutWord(blocks[x], j, b)];
          logged := logged + {x};
          owner := owner[b := Ref(i, NDIRECT + 1 + j)];
          addr := b;
          BitmapIsMeta(sb, b);
        }
      } else {
        OwnedSlot(sb, St(), owner, i, NDIRECT + 1 + j);
      }
    }

    /** bmap: the disk block of file block bn, allocating it (and the indirect block) if it has none. */
    method Bmap(i: nat, bn: nat) returns (r: Mapped)
      requires Valid() && i < sb.ninodes && inodes[i].typ != 0
      modifies this`blocks, this`inodes, this`owner, this`logged
      ensures old(logged) <= logged
      ensures Valid() && Grown(sb, old(St()), old(owner), St(), owner, i)
      ensures r.OutOfRange? <==> bn >= MAXFILE
      ensures r.Mapped? ==> r.addr == BlockOf(St(), i, bn) != 0 && sb.Data(r.addr)
      ensures r.OutOfBlocks? <==> bn < MAXFILE && |FreeBlocks(sb, old(blocks))| < BmapNeed(old(St()), i, bn)
      ensures r.Mapped? ==> |owner| == |old(owner)| + BmapNeed(old(St()), i, bn)
      ensures r.OutOfRange? || BlockOf(old(St()), i, bn) != 0 ==>
        St() == old(St()) && owner == old(owner) && logged == old(logged)
      ensures r.Mapped? && BlockOf(old(St()), i, bn) == 0 ==> r.addr !in old(owner) && blocks[r.addr] == ZeroBlock()
      ensures r.Mapped? ==> SlotsBut(old(St()), St(), i, bn)
      ensures r.Mapped? ==> LogsOnly(old(logged), r.addr, if bn < NDIRECT then r.addr else inodes[i].addrs[NDIRECT])
      ensures r.Mapped? && BlockOf(old(St()), i, bn) == 0 ==>
        sb.BBlock(r.addr) in logged && (bn >= NDIRECT ==> inodes[i].addrs[NDIRECT] in logged)
    {
      hide Slot, SlotsOk, BitsOk, BitAt, Grown, SlotsBut, SameSlotsBut, FreeBlocks;
      FreeCount(sb, St(), owner);
      if bn < NDIRECT {
        var ok, addr := LoadAddr(i, bn);
        FreeCount(sb, St(), owner);
        if !ok {
          return OutOfBlocks;
        }
        BitmapIsMeta(sb, addr);
        DirectSlots(old(St()), St(), i, bn);
        return Mapped(addr);
      }
      if bn - NDIRECT < NINDIRECT {
        r := BmapIndirect(i, bn - NDIRECT);
        FreeCount(sb, St(), owner);
        return r;
      }
      GrownSelf(sb, St(), owner, i);
      return OutOfRange;
    }

    method BmapIndirect(i: nat, j: nat) returns (r: Mapped)
      requires Valid() && i < sb.ninodes && j < NINDIRECT && inodes[i].typ != 0
      modifies this`blocks, this`inodes, this`owner, this`logged
      ensures old(logged) <= logged
      ensures Valid() && Grown(sb, old(St()), old(owner), St(), owner, i) && !r.OutOfRange?
      ensures r.Mapped? ==> r.addr == Slot(St(), i, NDIRECT + 1 + j) != 0 && sb.Data(r.addr)
      ensures r.OutOfBlocks? ==> |old(owner)| + BmapNeed(old(St()), i, NDIRECT + j) > sb.nblocks
      ensures r.Mapped? ==> |owner| == |old(owner)| + BmapNeed(old(St()), i, NDIRECT + j)
      ensures Slot(old(St()), i, NDIRECT + 1 + j) != 0 ==>
        St() == old(St()) && owner == old(owner) && logged == old(logged)
      ensures r.Mapped? && Slot(old(St()), i, NDIRECT + 1 + j) == 0 ==>
        r.addr !in old(owner) && blocks[r.addr] == ZeroBlock()
      ensures r.Mapped? ==> SlotsBut(old(St()), St(), i, NDIRECT + j)
      ensures r.Mapped? ==> LogsOnly(old(logged), r.addr, inodes[i].addrs[NDIRECT])
      ensures r.Mapped? && Slot(old(St()), i, NDIRECT + 1 + j) == 0 ==>
        sb.BBlock(r.addr) in logged && inodes[i].addrs[NDIRECT] in logged
    {
      hide Slot, SlotsOk, BitsOk, BitAt, Grown, SameSlotsBut, SlotsBut;
      EmptyIndirect(St(), i, j);
      var ok, x := LoadAddr(i, NDIRECT);
      if !ok {
        return OutOfBlocks;
      }
      BitmapIsMeta(sb, x);
      ghost var mid, midOwner := St(), owner;
      SlotAfter(sb, old(St()), mid, i, NDIRECT, j);
      var addr;
      ok, addr := LoadEntry(i, j);
      GrownTwice(sb, old(St()), old(owner), mid, midOwner, St(), owner, i);
      GrownKeys(sb, old(St()), old(owner), mid, midOwner, i);
      if !ok {
        return OutOfBlocks;
      }
      IndirectSlots(old(St()), mid, St(), i, j);
      return Mapped(addr);
    }

    /** Only file block bn of inode i, and its indirect block if it had none, can have a new address. */
    ghost predicate SlotsBut(fs: Fs, fs': Fs, i: nat, bn: nat)
      requires ShapeOk(sb, fs) && ShapeOk(sb, fs') && i < sb.ninodes
    {
      && (forall j: nat, k: nat :: j < sb.ninodes && k < NSLOTS && !(j == i && (k == SlotOf(bn) || k == NDIRECT)) ==>
            Slot(fs', j, k) == Slot(fs, j, k))
      && (bn < NDIRECT || Slot(fs, i, NDIRECT) != 0 ==> Slot(fs', i, NDIRECT) == Slot(fs, i, NDIRECT))
      && (bn >= NDIRECT ==> Slot(fs', i, NDIRECT) != 0)
    }

    /** itrunc, the direct blocks. */
    method FreeDirect(i: nat) returns (panic: bool)
      requires Valid() && i < sb.ninodes
      modifies this`blocks, this`inodes, this`owner, this`logged
      ensures !panic && Valid() && Shrunk(sb, old(St()), old(owner), St(), owner, i)
      ensures forall k :: 0 <= k < NDIRECT ==> inodes[i].addrs[k] == 0
      ensures inodes[i].addrs[NDIRECT] == old(inodes[i].addrs[NDIRECT])
    {
      hide Slot, SlotsOk, BitsOk, BitAt, PutBlockBit, SameSlotsBut;
      var k := 0;
      while k < NDIRECT
        invariant 0 <= k <= NDIRECT && Valid() && Shrunk(sb, old(St()), old(owner), St(), owner, i)
        invariant forall k' :: 0 <= k' < k ==> inodes[i].addrs[k'] == 0
        invariant inodes[i].addrs[NDIRECT] == old(inodes[i].addrs[NDIRECT])
      {
        if inodes[i].addrs[k] != 0 {
          panic := FreeAddr(i, k);
          assert !panic;
        }
        k := k + 1;
      }
      return false;
    }

    /** bfree of address field k < NDIRECT, which is then cleared. */
    method FreeAddr(i: nat, k: nat) returns (panic: bool)
      requires Valid() && i < sb.ninodes && k < NDIRECT && inodes[i].addrs[k] != 0
      modifies this`blocks, this`inodes, this`owner, this`logged
      ensures !panic && Valid() && Shrunk(sb, old(St()), old(owner), St(), owner, i)
      ensures inodes[i].addrs == old(inodes[i].addrs)[k := 0]
    {
      hide Slot, SlotsOk, BitsOk, BitAt, PutBlockBit, SameSlotsBut;
      var a := inodes[i].addrs[k];
      UnlinkKeeps(sb, St(), owner, {}, i, k);
      ShrunkOnce(sb, St(), owner, a, inodes[i].addrs[k := 0], i);
      panic := Bfree(a);
      inodes := inodes[i := inodes[i].(addrs := inodes[i].addrs[k := 0])];
      owner := owner - {a};
    }

    /** bfree of entry j of the indirect block; the entry stays in the block. */
    method FreeEntry(i: nat, j: nat) returns (panic: bool)
      requires OwnedBy(sb, St(), owner, {}, Gap(i, j)) && i < sb.ninodes && j < NINDIRECT
      requires inodes[i].addrs[NDIRECT] != 0
      modifies this`blocks, this`owner, this`logged
      ensures !panic && OwnedBy(sb, St(), owner, {}, Gap(i, j + 1))
      ensures Shrunk(sb, old(St()), old(owner), St(), owner, i)
    {
      hide Slot, SlotsOk, BitsOk, BitAt, PutBlockBit, Word;
      var a := Word(blocks[inodes[i].addrs[NDIRECT]], j);
      SlotOfEntry(St(), i, j);
      if a != 0 {
        FreeEntryKeeps(sb, St(), owner, {}, i, j);
        ShrunkOnce(sb, St(), owner, a, inodes[i].addrs, i);
        assert St().inodes[i := inodes[i].(addrs := inodes[i].addrs)] == inodes;
        panic := Bfree(a);
        owner := owner - {a};
      } else {
        SkipEntryKeeps(sb, St(), owner, i, j);
        panic := false;
      }
    }

    /** itrunc, the indirect block and its entries. */
    method FreeIndirect(i: nat) returns (panic: bool)
      requires Valid() && i < sb.ninodes && inodes[i].addrs[NDIRECT] != 0
      requires forall k :: 0 <= k < NDIRECT ==> inodes[i].addrs[k] == 0
      modifies this`blocks, this`inodes, this`owner, this`logged
      ensures !panic && Valid() && Shrunk(sb, old(St()), old(owner), St(), owner, i)
      ensures inodes[i].addrs == old(inodes[i].addrs)[NDIRECT := 0]
      ensures forall k: nat :: k < NSLOTS ==> Slot(St(), i, k) == 0
    {
      hide Slot, SlotsOk, BitsOk, BitAt, PutBlockBit;
      assert OwnedBy(sb, St(), owner, {}, Gap(i, 0)) by { StartGap(sb, St(), owner, i); }
      var j := 0;
      while j < NINDIRECT
        invariant 0 <= j <= NINDIRECT && OwnedBy(sb, St(), owner, {}, Gap(i, j))
        invariant Shrunk(sb, old(St()), old(owner), St(), owner, i) && inodes == old(inodes)
      {
        panic := FreeEntry(i, j);
        j := j + 1;
      }
      var x := inodes[i].addrs[NDIRECT];
      FreeIndirectKeeps(sb, St(), owner, {}, i);
      ShrunkOnce(sb, St(), owner, x, inodes[i].addrs[NDIRECT := 0], i);
      ghost var mid, midOwner := St(), owner;
      panic := Bfree(x);
      inodes := inodes[i := inodes[i].(addrs := inodes[i].addrs[NDIRECT := 0])];
      owner := owner - {x};
      ShrunkTwice(sb, old(St()), old(owner), mid, midOwner, St(), owner, i);
      forall k: nat | k < NDIRECT
        ensures Slot(St(), i, k) == 0
      {
        SlotOfAddr(St(), i, k);
      }
    }

    /** itrunc: every block goes back to the free map, and the empty inode goes to disk. The
        "freeing free block" panic of bfree is not reached. */
    method Itrunc(i: nat) returns (panic: bool)
      requires Valid() && i < sb.ninodes
      modifies this
      ensures !panic && Valid()
      ensures inodes == old(inodes)[i := old(inodes[i]).(size := 0, addrs := inodes[i].addrs)]
      ensures StoredBut(sb, old(blocks), blocks, i, inodes[i])
      ensures forall k: nat :: k < NSLOTS ==> Slot(St(), i, k) == 0
      ensures forall j: nat, k: nat :: j < sb.ninodes && j != i && k < NSLOTS ==>
        Slot(St(), j, k) == Slot(old(St()), j, k)
      ensures forall b :: b in owner <==> b in old(owner) && old(owner)[b].i != i
      ensures forall b: nat :: sb.Data(b) ==> blocks[b] == old(blocks)[b]
    {
      hide Slot, SlotsOk, BitsOk, BitAt;
      panic := FreeDirect(i);
      if inodes[i].addrs[NDIRECT] != 0 {
        ghost var mid, midOwner := St(), owner;
        panic := FreeIndirect(i);
        ShrunkTwice(sb, old(St()), old(owner), mid, midOwner, St(), owner, i);
      } else {
        NoAddrs(sb, St(), i);
      }
      forall j: nat, k: nat | j < sb.ninodes && j != i && k < NSLOTS
        ensures Slot(St(), j, k) == Slot(old(St()), j, k)
      {
        ShrunkSlots(sb, old(St()), old(owner), St(), owner, i, j, k);
      }
      EmptyOwnsNothing(sb, St(), owner, i);
      ghost var fs := St();
      inodes := inodes[i := inodes[i].(size := 0)];
      ResizeKeeps(sb, fs, owner, i, 0);
      Iupdate(i);
      StoredAgain(sb, old(blocks), fs.blocks, blocks, i, inodes[i]);
    }

    /** iput of a reference; `valid` and `busy` are I_VALID and I_BUSY. The last one to an unlinked inode frees the
        inode, all its blocks and its flags; it panics exactly when that inode is busy. No slot of a free inode
        holds a block. */
    method Iput(i: nat, ref: nat, valid: bool, busy: bool) returns (left: nat, valid': bool, busy': bool, panic: bool)
      requires Valid() && i < sb.ninodes && ref >= 1
      modifies this
      ensures var frees := ref == 1 && valid && old(inodes[i].nlink) == 0;
        && Valid() && (panic <==> frees && busy)
        && (!panic ==> left == ref - 1 && valid' == (valid && !frees) && busy' == (busy && !frees))
        && (!frees || panic ==> St() == old(St()) && owner == old(owner) && logged == old(logged))
        && (frees && !panic ==>
              && inodes == old(inodes)[i := old(inodes[i]).(typ := 0, size := 0, addrs := inodes[i].addrs)]
              && StoredBut(sb, old(blocks), blocks, i, inodes[i])
              && (forall k: nat :: k < NSLOTS ==> Slot(St(), i, k) == 0)
              && (forall b :: b in owner <==> b in old(owner) && old(owner)[b].i != i)
              && (forall b: nat :: sb.Data(b) ==> blocks[b] == old(blocks)[b]))
    {
      hide Slot, SlotsOk, BitsOk, BitAt;
      left, valid', busy', panic := ref, valid, busy, false;
      if ref == 1 && valid && inodes[i].nlink == 0 {
        if busy {
          return ref, valid, busy, true;
        }
        panic := Itrunc(i);
        ghost var fs := St();
        inodes := inodes[i := inodes[i].(typ := 0)];
        RetypeKeeps(sb, fs, owner, i);
        Iupdate(i);
        valid', busy' := false, false;
      }
      left := ref - 1;
    }

    lemma DirectSlots(fs: Fs, fs': Fs, i: nat, k: nat)
      requires ShapeOk(sb, fs) && ShapeOk(sb, fs') && i < sb.ninodes && k < NDIRECT
      requires SameSlotsBut(sb, fs, fs', i, k)
      ensures SlotsBut(fs, fs', i, k)
    {
      hide Slot;
    }

    lemma IndirectSlots(fs: Fs, mid: Fs, fs': Fs, i: nat, j: nat)
      requires ShapeOk(sb, fs) && ShapeOk(sb, mid) && ShapeOk(sb, fs') && i < sb.ninodes && j < NINDIRECT
      requires SameSlotsBut(sb, fs, mid, i, NDIRECT) && SameSlotsBut(sb, mid, fs', i, NDIRECT + 1 + j)
      requires Slot(mid, i, NDIRECT) != 0 && (Slot(fs, i, NDIRECT) != 0 ==> mid == fs)
      ensures SlotsBut(fs, fs', i, NDIRECT + j)
    {
      hide Slot;
      forall i': nat, k: nat | i' < sb.ninodes && k < NSLOTS && !(i' == i && (k == SlotOf(NDIRECT + j) || k == NDIRECT))
        ensures Slot(fs', i', k) == Slot(fs, i', k)
      {
        assert Slot(fs', i', k) == Slot(mid, i', k) == Slot(fs, i', k);
      }
    }
  }

  /** An entry keeps its value when only slot k changes. */
  lemma SlotAfter(sb: Super, fs: Fs, fs': Fs, i: nat, k: nat, j: nat)
    requires ShapeOk(sb, fs) && ShapeOk(sb, fs') && i < sb.ninodes && k <= NDIRECT && j < NINDIRECT
    requires SameSlotsBut(sb, fs, fs', i, k)
    ensures Slot(fs', i, NDIRECT + 1 + j) == Slot(fs, i, NDIRECT + 1 + j)
  {
    hide Slot;
  }

  lemma SlotOfEntry(fs: Fs, i: nat, j: nat)
    requires i < |fs.inodes| && j < NINDIRECT && |fs.inodes[i].addrs| == NDIRECT + 1
    requires 0 < fs.inodes[i].addrs[NDIRECT] < |fs.blocks|
    ensures Slot(fs, i, NDIRECT + 1 + j) == Word(fs.blocks[fs.inodes[i].addrs[NDIRECT]], j)
  {
  }

  /** An inode without an indirect block has no indirect entries. */
  lemma EmptyIndirect(fs: Fs, i: nat, j: nat)
    requires i < |fs.inodes| && j < NINDIRECT && |fs.inodes[i].addrs| == NDIRECT + 1
    requires fs.inodes[i].addrs[NDIRECT] < |fs.blocks|
    ensures Slot(fs, i, NDIRECT) == 0 ==> Slot(fs, i, NDIRECT + 1 + j) == 0
  {
  }

  lemma StartGap(sb: Super, fs: Fs, owner: map<nat, Ref>, i: nat)
    requires OwnedBy(sb, fs, owner, {}, NoGap)
    ensures OwnedBy(sb, fs, owner, {}, Gap(i, 0))
  {
    hide Slot, BitsOk;
  }

  lemma NoAddrs(sb: Super, fs: Fs, i: nat)
    requires ShapeOk(sb, fs) && i < sb.ninodes && forall k :: 0 <= k <= NDIRECT ==> fs.inodes[i].addrs[k] == 0
    ensures forall k: nat :: k < NSLOTS ==> Slot(fs, i, k) == 0
  {
  }

  lemma EmptyOwnsNothing(sb: Super, fs: Fs, owner: map<nat, Ref>, i: nat)
    requires OwnedBy(sb, fs, owner, {}, NoGap) && i < sb.ninodes && forall k: nat :: k < NSLOTS ==> Slot(fs, i, k) == 0
    ensures forall b :: b in owner ==> owner[b].i != i
  {
    hide Slot, BitsOk;
    forall b | b in owner
      ensures owner[b].i != i
    {
      assert Slot(fs, owner[b].i, owner[b].k) == b && sb.Data(b);
    }
  }

  /** Ownership does not depend on sizes. */
  lemma ResizeKeeps(sb: Super, fs: Fs, owner: map<nat, Ref>, i: nat, size: Uint)
    requires OwnedBy(sb, fs, owner, {}, NoGap) && i < sb.ninodes
    ensures var fs' := fs.(inodes := fs.inodes[i := fs.inodes[i].(size := size)]);
      && OwnedBy(sb, fs', owner, {}, NoGap)
      && forall j: nat, k: nat :: j < sb.ninodes && k < NSLOTS ==> Slot(fs', j, k) == Slot(fs, j, k)
  {
    hide BitsOk, Word;
    var fs' := fs.(inodes := fs.inodes[i := fs.inodes[i].(size := size)]);
    assert forall j: nat, k: nat :: j < sb.ninodes && k < NSLOTS ==> Slot(fs', j, k) == Slot(fs, j, k);
  }

  /** An inode without blocks can be made free. */
  lemma RetypeKeeps(sb: Super, fs: Fs, owner: map<nat, Ref>, i: nat)
    requires OwnedBy(sb, fs, owner, {}, NoGap) && i < sb.ninodes && forall k: nat :: k < NSLOTS ==> Slot(fs, i, k) == 0
    ensures var fs' := fs.(inodes := fs.inodes[i := fs.inodes[i].(typ := 0)]);
      && OwnedBy(sb, fs', owner, {}, NoGap)
      && forall j: nat, k: nat :: j < sb.ninodes && k < NSLOTS ==> Slot(fs', j, k) == Slot(fs, j, k)
  {
    hide BitsOk, Word;
    var fs' := fs.(inodes := fs.inodes[i := fs.inodes[i].(typ := 0)]);
    assert forall j: nat, k: nat :: j < sb.ninodes && k < NSLOTS ==> Slot(fs', j, k) == Slot(fs, j, k);
    forall k | 0 <= k <= NDIRECT
      ensures fs.inodes[i].addrs[k] == 0
    {
      assert Slot(fs, i, k) == 0;
    }
  }
}
