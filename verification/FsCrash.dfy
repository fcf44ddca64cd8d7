/** The log and the file system together: ownership survives crashes, and what a hole does to it. */
module FsCrash {
  import opened RedoLog
  import opened CrashAtomicity
  import opened LogRuns
  import opened LogSafety
  import opened FsLayout
  import opened DiskInode
  import opened Ownership
  import opened FsCode

  // ---------------------------------------------------------------- crashes

  /** On this disk every block is metadata, free, or in exactly one slot of one allocated inode, as the bitmap says:
      the inodes are those of the inode blocks. */
  ghost predicate Consistent(sb: Super, d: Disk)
  {
    sb.Ok() && |d| == sb.size && exists owner :: OwnedBy(sb, Fs(d, AllStored(sb, d)), owner, {}, NoGap)
  }

  /** The log lies below the inode blocks. */
  predicate LogFirst(g: Region, sb: Super) { g.start + g.size <= sb.inodestart }

  /** Whether a disk is consistent depends on its home blocks alone. */
  lemma ConsistentAgain(g: Region, sb: Super, x: Disk, y: Disk, owner: map<nat, Ref>)
    requires sb.Ok() && LogFirst(g, sb) && |x| == |y| == sb.size && SameHome(g, x, y)
    requires OwnedBy(sb, Fs(x, AllStored(sb, x)), owner, {}, NoGap)
    ensures OwnedBy(sb, Fs(y, AllStored(sb, y)), owner, {}, NoGap)
  {
    hide Slot, BlockBit, GetInode, BitAt;
    forall i: nat | i < sb.ninodes
      ensures Stored(sb, y, i) == Stored(sb, x, i)
    {
      InodeBlockIsMeta(sb, i);
    }
    assert AllStored(sb, y) == AllStored(sb, x);
    var fs := Fs(x, AllStored(sb, x));
    SlotsFrame(sb, fs, y, owner, NoGap);
    forall b: nat | b < sb.size
      ensures BitAt(sb, y, b) == BitAt(sb, x, b)
    {
      SameBit(g, sb, x, y, b);
    }
  }

  lemma SameBit(g: Region, sb: Super, x: Disk, y: Disk, b: nat)
    requires sb.Ok() && LogFirst(g, sb) && |x| == |y| == sb.size && SameHome(g, x, y) && b < sb.size
    ensures BitAt(sb, y, b) == BitAt(sb, x, b)
  {
    hide BlockBit;
    BitmapIsMeta(sb, b);
  }

  lemma ConsistentOfHome(g: Region, sb: Super)
    requires LogFirst(g, sb)
    ensures OfHome(g, d => Consistent(sb, d))
  {
    hide OwnedBy;
    forall x: Disk, y: Disk | |x| == |y| && SameHome(g, x, y) && Consistent(sb, x)
      ensures Consistent(sb, y)
    {
      var owner :| OwnedBy(sb, Fs(x, AllStored(sb, x)), owner, {}, NoGap);
      ConsistentAgain(g, sb, x, y, owner);
    }
  }

  /** If the disk as the cache shows it is consistent whenever no operation is under way, and the boot image was, then
      it is consistent after every crash, wherever in the run it came and however often recovery was cut. */
  lemma OwnershipSurvivesCrashes(g: Region, sb: Super, d: Disk, s: State, run: seq<Step>, t: State, cuts: seq<nat>)
    requires Init(g, d, s) && Run(g, s, run, t) && LogFirst(g, sb) && Consistent(sb, Recover(g, d))
    requires forall k: nat, u :: k <= |run| && Run(g, s, run[..k], u) && Quiet(u) ==> Consistent(sb, View(u))
    ensures LogOk(g, t.disk) && Consistent(sb, Recover(g, Cuts(g, t.disk, cuts)))
  {
    hide LogOk, Recover, View, Run, Consistent, Quiet;
    ConsistentOfHome(g, sb);
    QuietPropertiesSurvive(g, d, s, run, t, cuts, x => Consistent(sb, x));
  }
}
