/** Buffers, and the driver of memide.c, which moves a block between a buffer and the disk at once. */
module MemIde {
  import opened Blocks

  /** A device and block number; -1 is the device of a buffer never used. */
  datatype Key = Key(dev: int, blockno: nat)

  datatype Buf = Buf(key: Key, busy: bool, valid: bool, dirty: bool, data: Block)

  type Disk = map<Key, Block>

  /** The guards of iderw, in both drivers: the buffer is held, there is something to do, the block exists. */
  predicate Ready(d: Disk, x: Buf) { x.busy && !(x.valid && !x.dirty) && x.key in d }

  /** iderw: write a dirty buffer to the disk, or fill a clean one from it. */
  function SyncBuf(d: Disk, x: Buf): (r: Buf)
    requires x.key in d
  {
    if x.dirty then x.(dirty := false, valid := true) else x.(data := d[x.key], valid := true)
  }

  function SyncDisk(d: Disk, x: Buf): (r: Disk)
    requires x.key in d
  {
    if x.dirty then d[x.key := x.data] else d
  }

  /** After iderw the buffer is valid, clean, and equal to its disk block. */
  lemma SyncAgrees(d: Disk, x: Buf)
    requires Ready(d, x)
    ensures SyncBuf(d, x).valid && !SyncBuf(d, x).dirty && SyncBuf(d, x).key == x.key
    ensures SyncDisk(d, x)[x.key] == SyncBuf(d, x).data
    ensures forall k :: k in d && k != x.key ==> SyncDisk(d, x)[k] == d[k]
  {
  }
}
