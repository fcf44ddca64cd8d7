/** bio.c: the buffer cache. At most one buffer per block, recycled in least-recently-released order and
    never while busy or dirty; what bread returns is what a plain map of blocks would. */
module BufCache {
  import opened Machine
  import opened Blocks
  import opened MemIde

  const NODEV := -1

  datatype Got = Hit(b: nat) | Recycled(b: nat) | MustWait(b: nat) | NoBuffers

  predicate Match(bufs: seq<Buf>, b: nat, key: Key) { b < |bufs| && bufs[b].key == key }
  predicate Reusable(bufs: seq<Buf>, b: nat) { b < |bufs| && !bufs[b].busy && !bufs[b].dirty }

  // ---------------------------------------------------------------- what bget chooses

  /** The first place from i on, in ring order, of a buffer for this block. */
  function FindFrom(bufs: seq<Buf>, ring: seq<nat>, key: Key, i: nat): (j: nat)
    requires i <= |ring|
    ensures i <= j <= |ring| && (j < |ring| ==> Match(bufs, ring[j], key))
    ensures forall k :: i <= k < j ==> !Match(bufs, ring[k], key)
    decreases |ring| - i
  {
    if i == |ring| || Match(bufs, ring[i], key) then i else FindFrom(bufs, ring, key, i + 1)
  }

  /** The last place up to i, in ring order, of a buffer that is neither busy nor dirty. */
  function ReuseUpto(bufs: seq<Buf>, ring: seq<nat>, i: nat): (j: nat)
    requires i < |ring|
    ensures j <= i && (j > 0 ==> Reusable(bufs, ring[j]))
    ensures forall k :: j < k <= i ==> !Reusable(bufs, ring[k])
  {
    if i == 0 || Reusable(bufs, ring[i]) then i else ReuseUpto(bufs, ring, i - 1)
  }

  function Choose(bufs: seq<Buf>, ring: seq<nat>, key: Key): (g: Got)
    requires |ring| >= 1
  {
    var j := FindFrom(bufs, ring, key, 1);
    if j < |ring| then if bufs[ring[j]].busy then MustWait(ring[j]) else Hit(ring[j])
    else
      var k := ReuseUpto(bufs, ring, |ring| - 1);
      if k > 0 then Recycled(ring[k]) else NoBuffers
  }

  function AfterGet(bufs: seq<Buf>, g: Got, key: Key): (r: seq<Buf>)
    requires (g.Hit? || g.Recycled?) ==> g.b < |bufs|
    ensures |r| == |bufs|
  {
    match g
    case Hit(b) => bufs[b := bufs[b].(busy := true)]
    case Recycled(b) => bufs[b := Buf(key, true, false, false, bufs[b].data)]
    case _ => bufs
  }

  /** The head, then every buffer once. */
  ghost predicate RingOf(ring: seq<nat>, n: nat)
  {
    && |ring| == n + 1 && ring[0] == n && Distinct(ring)
    && (forall i :: 0 < i < |ring| ==> ring[i] < n)
    && (forall b: nat :: b < n ==> b in ring)
  }

  lemma Place(ring: seq<nat>, n: nat, b: nat) returns (i: nat)
    requires RingOf(ring, n) && b < n
    ensures 0 < i < |ring| && ring[i] == b
  {
    assert b in ring;
    i :| i < |ring| && ring[i] == b;
  }

  /** What bget grants, by the buffers alone: an idle buffer of the block; for a block in no buffer, the
      idle clean buffer released longest ago; it waits exactly for a busy buffer of the block, and finds
      no buffer exactly when all are busy or dirty and none is the block's. */
  lemma Chosen(bufs: seq<Buf>, ring: seq<nat>, key: Key)
    requires RingOf(ring, |bufs|) && Unique(bufs) && key.dev != NODEV
    ensures var g := Choose(bufs, ring, key);
      && (g.Hit? || g.Recycled? ==> g.b < |bufs| && !bufs[g.b].busy)
      && (g.Hit? <==> exists b: nat :: b < |bufs| && bufs[b].key == key && !bufs[b].busy)
      && (g.Hit? ==> bufs[g.b].key == key)
      && (g.MustWait? <==> exists b: nat :: b < |bufs| && bufs[b].key == key && bufs[b].busy)
      && (g.MustWait? ==> g.b < |bufs| && bufs[g.b].key == key && bufs[g.b].busy)
      && (g.Recycled? ==> !bufs[g.b].dirty && g.b in ring && forall b: nat :: b < |bufs| ==> bufs[b].key != key)
      && (g.Recycled? ==> LongestAgo(bufs, ring, g.b))
      && (g.NoBuffers? <==> forall b: nat :: b < |bufs| ==> bufs[b].key != key && (bufs[b].busy || bufs[b].dirty))
  {
    var j := FindFrom(bufs, ring, key, 1);
    forall b: nat | b < |bufs| && bufs[b].key == key
      ensures j < |ring| && ring[j] == b
    {
      var i := Place(ring, |bufs|, b);
      assert Match(bufs, ring[i], key);
    }
    var k := ReuseUpto(bufs, ring, |ring| - 1);
    if k == 0 {
      forall b: nat | b < |bufs|
        ensures bufs[b].busy || bufs[b].dirty
      {
        var i := Place(ring, |bufs|, b);
        assert !Reusable(bufs, ring[i]);
      }
    }
  }

  /** Every buffer behind b in the ring is busy or dirty. */
  ghost predicate LongestAgo(bufs: seq<Buf>, ring: seq<nat>, b: nat)
  {
    exists k :: 0 < k < |ring| && ring[k] == b &&
      forall i :: k < i < |ring| && ring[i] < |bufs| ==> bufs[ring[i]].busy || bufs[ring[i]].dirty
  }

  // ---------------------------------------------------------------- the block map

  /** For real devices, at most one buffer holds a block. */
  ghost predicate Unique(bufs: seq<Buf>)
  {
    forall i, j :: 0 <= i < j < |bufs| && bufs[i].key == bufs[j].key ==> bufs[i].key.dev == NODEV
  }

  /** A buffer nobody is using is dirty, unread, or a copy of its disk block; only a buffer once read is dirty. */
  ghost predicate Clean(bufs: seq<Buf>, disk: Disk)
  {
    && (forall i :: 0 <= i < |bufs| && bufs[i].valid && !bufs[i].dirty && !bufs[i].busy ==>
         bufs[i].key in disk && bufs[i].data == disk[bufs[i].key])
    && (forall i :: 0 <= i < |bufs| && bufs[i].dirty ==> bufs[i].valid)
  }

  /** Never-used buffers hold nothing. */
  ghost predicate FreshEmpty(bufs: seq<Buf>)
  {
    forall i :: 0 <= i < |bufs| && bufs[i].key.dev == NODEV ==> !bufs[i].valid && !bufs[i].dirty && !bufs[i].busy
  }

  function Holder(bufs: seq<Buf>, key: Key): (i: nat)
    ensures i <= |bufs| && (i < |bufs| ==> bufs[i].key == key)
    ensures forall j :: 0 <= j < |bufs| && bufs[j].key == key ==> i <= j
  {
    HolderFrom(bufs, key, 0)
  }

  function HolderFrom(bufs: seq<Buf>, key: Key, i: nat): (r: nat)
    requires i <= |bufs|
    ensures i <= r <= |bufs| && (r < |bufs| ==> bufs[r].key == key)
    ensures forall j :: i <= j < r ==> bufs[j].key != key
    decreases |bufs| - i
  {
    if i == |bufs| || bufs[i].key == key then i else HolderFrom(bufs, key, i + 1)
  }

  /** The block map the cache and the disk stand for. */
  function View(bufs: seq<Buf>, disk: Disk, key: Key): (r: Block)
    requires key in disk
  {
    var i := Holder(bufs, key);
    if i < |bufs| && bufs[i].valid then bufs[i].data else disk[key]
  }

  lemma HolderIs(bufs: seq<Buf>, i: nat)
    requires Unique(bufs) && i < |bufs| && bufs[i].key.dev != NODEV
    ensures Holder(bufs, bufs[i].key) == i
  {
  }

  lemma NoHolder(bufs: seq<Buf>, key: Key)
    requires forall i :: 0 <= i < |bufs| ==> bufs[i].key != key
    ensures Holder(bufs, key) == |bufs|
  {
  }

  /** Giving a clean idle buffer to a block that had none keeps buffers unique and the map unchanged. */
  lemma RecycleKeeps(bufs: seq<Buf>, disk: Disk, b: nat, key: Key)
    requires Unique(bufs) && Clean(bufs, disk) && FreshEmpty(bufs) && Reusable(bufs, b) && key.dev != NODEV
    requires forall i :: 0 <= i < |bufs| ==> bufs[i].key != key
    ensures var bufs' := AfterGet(bufs, Recycled(b), key);
      && Unique(bufs') && Clean(bufs', disk) && FreshEmpty(bufs')
      && forall k :: k in disk && k.dev != NODEV ==> View(bufs', disk, k) == View(bufs, disk, k)
  {
    var bufs' := AfterGet(bufs, Recycled(b), key);
    assert Unique(bufs');
    forall k | k in disk && k.dev != NODEV
      ensures View(bufs', disk, k) == View(bufs, disk, k)
    {
      RecycleView(bufs, disk, b, key, k);
    }
  }

  lemma RecycleView(bufs: seq<Buf>, disk: Disk, b: nat, key: Key, k: Key)
    requires Unique(bufs) && Clean(bufs, disk) && Reusable(bufs, b) && key.dev != NODEV && k in disk && k.dev != NODEV
    requires forall i :: 0 <= i < |bufs| ==> bufs[i].key != key
    requires Unique(AfterGet(bufs, Recycled(b), key))
    ensures View(AfterGet(bufs, Recycled(b), key), disk, k) == View(bufs, disk, k)
  {
    var bufs' := AfterGet(bufs, Recycled(b), key);
    var i := Holder(bufs, k);
    if k == key {
      HolderIs(bufs', b);
    } else if i == b {
      HolderIs(bufs, b);
      forall j | 0 <= j < |bufs'|
        ensures bufs'[j].key != k
      {
        assert j != b ==> bufs'[j] == bufs[j];
      }
      NoHolder(bufs', k);
    } else if i < |bufs| {
      HolderIs(bufs', i);
    } else {
      NoHolder(bufs', k);
    }
  }

  /** Changing one buffer, key aside, changes the map at that key only. */
  lemma PutView(bufs: seq<Buf>, disk: Disk, disk': Disk, b: nat, x: Buf, k: Key)
    requires Unique(bufs) && b < |bufs| && x.key == bufs[b].key && x.key.dev != NODEV
    requires k in disk && k in disk' && (k != x.key ==> disk'[k] == disk[k])
    ensures Unique(bufs[b := x])
    ensures View(bufs[b := x], disk', k)
         == if k == x.key then if x.valid then x.data else disk'[k] else View(bufs, disk, k)
  {
    var bufs' := bufs[b := x];
    assert Unique(bufs');
    if k == x.key {
      HolderIs(bufs', b);
    } else {
      SameHolder(bufs, bufs', k);
    }
  }

  lemma SameHolder(bufs: seq<Buf>, bufs': seq<Buf>, k: Key)
    requires |bufs| == |bufs'| && forall i :: 0 <= i < |bufs| ==> bufs'[i].key == bufs[i].key
    ensures Holder(bufs', k) == Holder(bufs, k)
  {
    var i, j := Holder(bufs, k), Holder(bufs', k);
    if i < |bufs| {
      assert bufs'[i].key == k;
    }
    if j < |bufs| {
      assert bufs[j].key == k;
    }
  }
}
