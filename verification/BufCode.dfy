/** bio.c as code: bget's two scans, bread, bwrite and brelse over the buffers in memory. */
module BufCode {
  import opened Machine
  import opened Blocks
  import opened MemIde
  import opened BufRing
  import opened BufCache

  class Cache {
    const bufs: array<Buf>
    const next: array<nat>
    const prev: array<nat>
    /** The disk behind the driver. */
    var disk: Disk
    /** The list head, then the buffers, most recently released first. */
    ghost var ring: seq<nat>

    ghost predicate Ringed()
      reads this, next, prev
    {
      && next.Length == prev.Length == bufs.Length + 1 && next != prev
      && RingOf(ring, bufs.Length) && Linked(next[..], prev[..], ring)
    }

    ghost predicate Valid()
      reads this, bufs, next, prev
    {
      Ringed() && Unique(bufs[..]) && Clean(bufs[..], disk) && FreshEmpty(bufs[..])
    }

    /** binit: every buffer in the ring, none holding a block. */
    constructor (n: nat, disk: Disk)
      ensures Valid() && this.disk == disk && bufs.Length == n
      ensures fresh(bufs) && fresh(next) && fresh(prev)
      ensures forall i :: 0 <= i < n ==> bufs[i] == Buf(Key(NODEV, 0), false, false, false, ZeroBlock())
    {
      this.disk := disk;
      var empty := Buf(Key(NODEV, 0), false, false, false, ZeroBlock());
      var bs := new Buf[n](_ => empty);
      var nx := new nat[n + 1](_ => n);
      var pv := new nat[n + 1](_ => n);
      ghost var r: seq<nat> := [n];
      assert LinkAt(nx[..], pv[..], r, 0);
      var b: nat := 0;
      while b < n
        invariant 0 <= b <= n && |r| == b + 1 && r[0] == n && nx != pv
        invariant fresh(bs) && fresh(nx) && fresh(pv) && forall i :: 0 <= i < n ==> bs[i] == empty
        invariant forall i :: 0 < i < |r| ==> r[i] < b
        invariant forall x: nat :: x < b ==> x in r
        invariant Distinct(r) && Linked(nx[..], pv[..], r)
      {
        RelinkLinked(nx[..], pv[..], r, b);
        ghost var to := Relink(nx[..], pv[..], n, b);
        nx[b] := nx[n];
        pv[b] := n;
        pv[nx[n]] := b;
        nx[n] := b;
        assert nx[..] == to.0 && pv[..] == to.1;
        FrontAll(r, b);
        r := InFront(r, b);
        b := b + 1;
      }
      bufs, next, prev, ring := bs, nx, pv, r;
    }

    /** bget: hit, recycle, or report why not. Hits and recycled buffers become busy. */
    method Bget(key: Key) returns (g: Got)
      requires Valid() && key.dev != NODEV
      modifies bufs
      ensures g == Choose(old(bufs[..]), ring, key) && Valid()
      ensures g.Hit? || g.Recycled? ==> g.b < bufs.Length && !old(bufs[g.b].busy)
      ensures g.Hit? <==> exists b: nat :: b < bufs.Length && old(bufs[b].key) == key && !old(bufs[b].busy)
      ensures g.MustWait? <==> exists b: nat :: b < bufs.Length && old(bufs[b].key) == key && old(bufs[b].busy)
      ensures g.NoBuffers? <==> forall b: nat :: b < bufs.Length ==>
        old(bufs[b].key) != key && (old(bufs[b]).busy || old(bufs[b]).dirty)
      ensures g.Recycled? ==> !old(bufs[g.b].dirty) && LongestAgo(old(bufs[..]), ring, g.b)
      ensures g.MustWait? ==> g.b < bufs.Length && bufs[g.b].key == key && bufs[g.b].busy
      ensures g.Hit? ==> bufs[g.b] == old(bufs[g.b]).(busy := true)
      ensures g.Recycled? ==> bufs[g.b] == Buf(key, true, false, false, old(bufs[g.b].data))
      ensures forall b :: 0 <= b < bufs.Length && !((g.Hit? || g.Recycled?) && b == g.b) ==> bufs[b] == old(bufs[b])
      ensures g.Hit? || g.Recycled? ==> bufs[g.b].key == key
      ensures bufs[..] == AfterGet(old(bufs[..]), g, key)
      ensures forall k :: k in disk && k.dev != NODEV ==> View(bufs[..], disk, k) == View(old(bufs[..]), disk, k)
    {
      hide LinkAt, Linked, Distinct, Unique, Clean, FreshEmpty, View, Holder, LongestAgo, HolderFrom, ReuseUpto;
      ghost var t := bufs[..];
      Chosen(t, ring, key);
      var head := bufs.Length;
      GetLink(next[..], prev[..], ring, 0);
      var b := next[head];
      ghost var j: nat := Succ(0, |ring|);
      while b != head
        invariant j < |ring| && b == ring[j] && bufs[..] == t
        invariant j == 0 ==> FindFrom(t, ring, key, 1) == |ring|
        invariant j > 0 ==> FindFrom(t, ring, key, 1) == FindFrom(t, ring, key, j)
        decreases if j == 0 then 0 else |ring| - j
      {
        assert bufs[b] == t[b];
        if bufs[b].key == key {
          if bufs[b].busy {
            return MustWait(b);
          }
          bufs[b] := bufs[b].(busy := true);
          HitKeeps(t, disk, b);
          return Hit(b);
        }
        GetLink(next[..], prev[..], ring, j);
        b := next[b];
        j := Succ(j, |ring|);
      }
      HeadOnly(ring, j);
      NotFound(t, ring, key);
      g := Recycle(key);
    }

    /** bget's second scan, from the least recently released end. */
    method Recycle(key: Key) returns (g: Got)
      requires Valid() && key.dev != NODEV && forall i :: 0 <= i < bufs.Length ==> bufs[i].key != key
      modifies bufs
      ensures Valid()
      ensures var k := ReuseUpto(old(bufs[..]), ring, |ring| - 1); g == if k > 0 then Recycled(ring[k]) else NoBuffers
      ensures g.Recycled? ==> g.b < bufs.Length
      ensures bufs[..] == AfterGet(old(bufs[..]), g, key)
      ensures forall k :: k in disk && k.dev != NODEV ==> View(bufs[..], disk, k) == View(old(bufs[..]), disk, k)
      ensures g.NoBuffers? <==> forall b: nat :: b < bufs.Length ==> old(bufs[b]).busy || old(bufs[b]).dirty
    {
      hide LinkAt, Linked, Distinct, Unique, Clean, FreshEmpty, View, Holder, HolderFrom, FindFrom, Choose, ReuseUpto;
      ghost var t := bufs[..];
      var head := bufs.Length;
      ghost var j: nat := |ring| - 1;
      GetLink(next[..], prev[..], ring, j);
      var b := prev[head];
      while b != head
        invariant j < |ring| && b == ring[j] && bufs[..] == t
        invariant ReuseUpto(t, ring, |ring| - 1) == ReuseUpto(t, ring, j)
        decreases j
      {
        assert bufs[b] == t[b];
        ReuseStep(t, ring, j);
        if !bufs[b].busy && !bufs[b].dirty {
          RecycleKeeps(t, disk, b, key);
          bufs[b] := Buf(key, true, false, false, bufs[b].data);
          return Recycled(b);
        }
        GetLink(next[..], prev[..], ring, j - 1);
        b := prev[b];
        j := j - 1;
      }
      HeadOnly(ring, j);
      ReuseNone(t, ring);
      NoneReusable(t, ring);
      return NoBuffers;
    }

    /** iderw of memide.c. */
    method Iderw(b: nat) returns (panic: bool)
      requires b < bufs.Length
      modifies bufs, this`disk
      ensures panic <==>
        !old(bufs[b].busy) || (old(bufs[b].valid) && !old(bufs[b].dirty)) || old(bufs[b].key) !in old(disk)
      ensures panic ==> bufs[..] == old(bufs[..]) && disk == old(disk)
      ensures !panic ==> bufs[..] == old(bufs[..])[b := SyncBuf(old(disk), old(bufs[b]))]
      ensures !panic ==> disk == SyncDisk(old(disk), old(bufs[b]))
      ensures !panic ==> bufs[b].key in disk && bufs[b].data == disk[bufs[b].key] && bufs[b].valid && !bufs[b].dirty
      ensures !panic ==> disk == if old(bufs[b].dirty) then old(disk)[bufs[b].key := old(bufs[b].data)] else old(disk)
    {
      if !bufs[b].busy || (bufs[b].valid && !bufs[b].dirty) || bufs[b].key !in disk {
        return true;
      }
      if bufs[b].dirty {
        bufs[b] := bufs[b].(dirty := false);
        disk := disk[bufs[b].key := bufs[b].data];
      } else {
        bufs[b] := bufs[b].(data := disk[bufs[b].key]);
      }
      bufs[b] := bufs[b].(valid := true);
      return false;
    }

    /** bread of a block the disk has: its current contents, in a busy buffer; or no buffer. The driver does
        not panic and the disk stays as it is. */
    method Bread(key: Key) returns (g: Got)
      requires Valid() && key.dev != NODEV && key in disk
      modifies bufs, this`disk
      ensures Valid() && disk == old(disk) && g == Choose(old(bufs[..]), ring, key)
      ensures g.Hit? || g.Recycled? ==> g.b < bufs.Length && !old(bufs[g.b].busy)
      ensures g.Hit? <==> exists b: nat :: b < bufs.Length && old(bufs[b].key) == key && !old(bufs[b].busy)
      ensures g.MustWait? <==> exists b: nat :: b < bufs.Length && old(bufs[b].key) == key && old(bufs[b].busy)
      ensures g.NoBuffers? <==> forall b: nat :: b < bufs.Length ==>
        old(bufs[b].key) != key && (old(bufs[b]).busy || old(bufs[b]).dirty)
      ensures g.Hit? || g.Recycled? ==>
        g.b < bufs.Length && bufs[g.b].key == key && bufs[g.b].busy && bufs[g.b].valid
        && bufs[g.b].data == View(old(bufs[..]), disk, key)
      ensures g.MustWait? || g.NoBuffers? ==> bufs[..] == old(bufs[..])
      ensures forall k :: k in disk && k.dev != NODEV ==> View(bufs[..], disk, k) == View(old(bufs[..]), disk, k)
    {
      hide LinkAt, Linked, Distinct, Unique, Clean, FreshEmpty, View, Holder, Choose;
      g := Bget(key);
      if g.Hit? || g.Recycled? {
        ghost var t := bufs[..];
        var b := g.b;
        assert bufs[b] == t[b];
        FilledKeeps(t, disk, b);
        if !bufs[b].valid {
          NotDirty(t, disk, b);
          var panic := Iderw(b);
          assert !panic;
        }
        assert View(bufs[..], disk, key) == bufs[b].data;
      }
    }

    /** bwrite of a busy buffer: the disk block becomes the buffer's contents. */
    method Bwrite(b: nat) returns (panic: bool)
      requires Valid() && b < bufs.Length && bufs[b].key in disk
      modifies bufs, this`disk
      ensures panic <==> !old(bufs[b].busy)
      ensures panic ==> bufs[..] == old(bufs[..]) && disk == old(disk)
      ensures !panic ==> Valid() && disk == old(disk)[old(bufs[b].key) := old(bufs[b].data)]
      ensures !panic ==> bufs[..] == old(bufs[..])[b := old(bufs[b]).(dirty := false, valid := true)]
      ensures !panic ==> forall k :: k in disk && k.dev != NODEV ==>
        View(bufs[..], disk, k)
        == if k == old(bufs[b].key) then old(bufs[b].data) else View(old(bufs[..]), old(disk), k)
      ensures old(bufs[b]).busy && old(bufs[b]).valid ==>
        View(old(bufs[..]), old(disk), old(bufs[b].key)) == old(bufs[b].data)
    {
      hide LinkAt, Linked, Distinct, Unique, Clean, FreshEmpty, View, Holder;
      if !bufs[b].busy {
        return true;
      }
      ghost var t := bufs[..];
      assert t[b] == bufs[b];
      WrittenKeeps(t, disk, b);
      bufs[b] := bufs[b].(dirty := true);
      panic := Iderw(b);
      assert bufs[..] == t[b := t[b].(dirty := false, valid := true)];
    }

    /** The holder of a busy buffer changes its contents (and pins it, when it goes through log_write). */
    method Modify(b: nat, data: Block, pin: bool)
      requires Valid() && b < bufs.Length && bufs[b].busy && bufs[b].valid && bufs[b].key in disk
      modifies bufs
      ensures Valid()
      ensures bufs[..] == old(bufs[..])[b := old(bufs[b]).(data := data, dirty := pin || old(bufs[b].dirty))]
      ensures forall k :: k in disk && k.dev != NODEV ==>
        View(bufs[..], disk, k) == if k == bufs[b].key then data else View(old(bufs[..]), disk, k)
    {
      hide LinkAt, Linked, Distinct, Unique, Clean, FreshEmpty, View, Holder;
      ghost var t := bufs[..];
      assert t[b] == bufs[b];
      ModifiedKeeps(t, disk, b, data, pin);
      bufs[b] := bufs[b].(data := data, dirty := pin || bufs[b].dirty);
      assert bufs[..] == t[b := t[b].(data := data, dirty := pin || t[b].dirty)];
    }

    /** brelse: the buffer moves to the front of the ring and is no longer busy. The caller has written or
        pinned what it changed. */
    method Brelse(b: nat) returns (panic: bool)
      requires Valid() && b < bufs.Length
      requires bufs[b].busy && bufs[b].valid && !bufs[b].dirty ==>
        bufs[b].key in disk && bufs[b].data == disk[bufs[b].key]
      modifies bufs, next, prev, this`ring
      ensures panic <==> !old(bufs[b].busy)
      ensures panic ==> bufs[..] == old(bufs[..]) && ring == old(ring)
      ensures Valid()
      ensures !panic ==> bufs[..] == old(bufs[..])[b := old(bufs[b]).(busy := false)]
      ensures !panic ==>
        exists k: nat :: 0 < k < |old(ring)| && old(ring)[k] == b && ring == InFront(Without(old(ring), k), b)
      ensures forall k :: k in disk && k.dev != NODEV ==> View(bufs[..], disk, k) == View(old(bufs[..]), disk, k)
    {
      hide LinkAt, Linked, Distinct, Unique, Clean, FreshEmpty, View, Holder;
      if !bufs[b].busy {
        return true;
      }
      ghost var t := bufs[..];
      assert t[b] == bufs[b];
      ReleasedKeeps(t, disk, b);
      MoveToFront(b);
      bufs[b] := bufs[b].(busy := false);
      assert bufs[..] == t[b := t[b].(busy := false)];
      return false;
    }

    /** bread, change the contents, bwrite or log_write, brelse: the block map changes at this block only, and the
        disk only by bwrite. `pin` is for log_write, which marks the buffer dirty so that it stays. */
    method Update(key: Key, data: Block, pin: bool) returns (g: Got)
      requires Valid() && key.dev != NODEV && key in disk
      modifies this, bufs, next, prev
      ensures Valid() && g == Choose(old(bufs[..]), old(ring), key)
      ensures g.Hit? || g.Recycled? ==> g.b < bufs.Length && !old(bufs[g.b].busy)
      ensures g.Hit? <==> exists b: nat :: b < bufs.Length && old(bufs[b].key) == key && !old(bufs[b].busy)
      ensures g.MustWait? <==> exists b: nat :: b < bufs.Length && old(bufs[b].key) == key && old(bufs[b].busy)
      ensures g.NoBuffers? <==> forall b: nat :: b < bufs.Length ==>
        old(bufs[b].key) != key && (old(bufs[b]).busy || old(bufs[b]).dirty)
      ensures g.Hit? || g.Recycled? ==>
        && g.b < bufs.Length && bufs[g.b].key == key && !bufs[g.b].busy && (pin ==> bufs[g.b].dirty)
        && disk == (if pin then old(disk) else old(disk)[key := data])
        && forall k :: k in disk && k.dev != NODEV ==>
             View(bufs[..], disk, k) == if k == key then data else View(old(bufs[..]), old(disk), k)
      ensures g.MustWait? || g.NoBuffers? ==> bufs[..] == old(bufs[..]) && disk == old(disk)
    {
      hide LinkAt, Linked, Distinct, Unique, Clean, FreshEmpty, View, Holder, Choose;
      g := Bread(key);
      if g.Hit? || g.Recycled? {
        Modify(g.b, data, pin);
        if !pin {
          var panic := Bwrite(g.b);
          assert !panic;
        }
        var panic := Brelse(g.b);
        assert !panic;
      }
    }

    /** brelse's six pointer assignments. */
    method MoveToFront(b: nat)
      requires Ringed() && b < bufs.Length
      modifies next, prev, this`ring
      ensures Ringed()
      ensures exists k: nat :: 0 < k < |old(ring)| && old(ring)[k] == b && ring == InFront(Without(old(ring), k), b)
    {
      hide LinkAt, Linked;
      assert b in ring;
      ghost var k: nat :| k < |ring| && ring[k] == b;
      UnlinkLinked(next[..], prev[..], ring, k);
      ghost var n0, p0 := next[..], prev[..];
      ghost var u := Unlink(n0, p0, b);
      var nx, pv := next[b], prev[b];
      prev[nx] := pv;
      next[pv] := nx;
      assert next[..] == u.0 && prev[..] == u.1;
      ghost var mid := Without(ring, k);
      RingMinus(ring, k);
      RelinkLinked(u.0, u.1, mid, b);
      ghost var r := Relink(u.0, u.1, mid[0], b);
      var head := bufs.Length;
      next[b] := next[head];
      prev[b] := head;
      prev[next[head]] := b;
      next[head] := b;
      assert next[..] == r.0 && prev[..] == r.1;
      ring := InFront(mid, b);
      FrontHas(old(ring), k, b, bufs.Length);
      assert 0 < k < |old(ring)| && old(ring)[k] == b && ring == InFront(Without(old(ring), k), b);
    }
  }

  lemma FrontAll(ring: seq<nat>, b: nat)
    requires |ring| >= 1 && (forall x: nat :: x < b ==> x in ring) && forall i :: 0 < i < |ring| ==> ring[i] < b
    ensures var r := InFront(ring, b);
      && (forall x: nat :: x < b + 1 ==> x in r) && (forall i :: 0 < i < |r| ==> r[i] < b + 1)
  {
    var r := InFront(ring, b);
    assert r[1] == b;
    forall x: nat | x < b + 1
      ensures x in r
    {
      if x < b {
        assert x in ring;
        var i :| 0 <= i < |ring| && ring[i] == x;
        assert r[if i == 0 then 0 else i + 1] == x;
      }
    }
    forall i | 0 < i < |r|
      ensures r[i] < b + 1
    {
      assert i > 1 ==> r[i] == ring[i - 1];
    }
  }

  lemma HeadOnly(ring: seq<nat>, j: nat)
    requires Distinct(ring) && j < |ring| && ring[j] == ring[0]
    ensures j == 0
  {
  }

  lemma HitKeeps(bufs: seq<Buf>, disk: Disk, b: nat)
    requires Unique(bufs) && Clean(bufs, disk) && FreshEmpty(bufs) && b < |bufs| && bufs[b].key.dev != NODEV
    ensures var bufs' := bufs[b := bufs[b].(busy := true)];
      && Unique(bufs') && Clean(bufs', disk) && FreshEmpty(bufs')
      && forall k :: k in disk && k.dev != NODEV ==> View(bufs', disk, k) == View(bufs, disk, k)
  {
    var bufs' := bufs[b := bufs[b].(busy := true)];
    forall k | k in disk && k.dev != NODEV
      ensures View(bufs', disk, k) == View(bufs, disk, k)
    {
      SameHolder(bufs, bufs', k);
    }
  }

  lemma NotFound(bufs: seq<Buf>, ring: seq<nat>, key: Key)
    requires |ring| == |bufs| + 1 && ring[0] == |bufs| && FindFrom(bufs, ring, key, 1) == |ring|
    requires forall b: nat :: b < |bufs| ==> b in ring
    ensures forall i :: 0 <= i < |bufs| ==> bufs[i].key != key
  {
    forall i: nat | i < |bufs|
      ensures bufs[i].key != key
    {
      assert i in ring;
      var j :| 0 <= j < |ring| && ring[j] == i;
      assert !Match(bufs, ring[j], key);
    }
  }

  lemma ReuseStep(bufs: seq<Buf>, ring: seq<nat>, j: nat)
    requires 0 < j < |ring|
    ensures ReuseUpto(bufs, ring, j) == if Reusable(bufs, ring[j]) then j else ReuseUpto(bufs, ring, j - 1)
  {
  }

  lemma ReuseNone(bufs: seq<Buf>, ring: seq<nat>)
    requires |ring| >= 1
    ensures ReuseUpto(bufs, ring, 0) == 0
  {
  }

  lemma NoneReusable(bufs: seq<Buf>, ring: seq<nat>)
    requires |ring| == |bufs| + 1 && ring[0] == |bufs| && ReuseUpto(bufs, ring, |ring| - 1) == 0
    requires forall b: nat :: b < |bufs| ==> b in ring
    ensures forall b: nat :: b < |bufs| ==> bufs[b].busy || bufs[b].dirty
  {
    forall b: nat | b < |bufs|
      ensures bufs[b].busy || bufs[b].dirty
    {
      assert b in ring;
      var j :| 0 <= j < |ring| && ring[j] == b;
      assert !Reusable(bufs, ring[j]);
    }
  }

  lemma FrontHas(ring: seq<nat>, k: nat, b: nat, n: nat)
    requires Distinct(ring) && 0 < k < |ring| && ring[k] == b && forall i :: 0 < i < |ring| ==> ring[i] < n
    ensures var r := InFront(Without(ring, k), b);
      && |r| == |ring| && r[0] == ring[0]
      && (forall x :: x in ring ==> x in r)
      && (forall i :: 0 < i < |r| ==> r[i] < n)
  {
    var r, mid := InFront(Without(ring, k), b), Without(ring, k);
    RingMinus(ring, k);
    forall x | x in ring
      ensures x in r
    {
      if x == b {
        assert r[1] == b;
      } else {
        var i :| 0 <= i < |mid| && mid[i] == x;
        assert r[if i == 0 then 0 else i + 1] == x;
      }
    }
    forall i | 0 < i < |r|
      ensures r[i] < n
    {
      assert i > 1 ==> r[i] == mid[i - 1];
    }
  }

  lemma RingMinus(ring: seq<nat>, k: nat)
    requires Distinct(ring) && 0 < k < |ring|
    ensures var mid := Without(ring, k);
      && Distinct(mid) && ring[k] !in mid && |mid| == |ring| - 1 && mid[0] == ring[0]
      && (forall b :: b in ring ==> b == ring[k] || b in mid)
      && (forall i :: 0 < i < |mid| ==> exists j :: 0 < j < |ring| && ring[j] == mid[i])
  {
    var mid := Without(ring, k);
    forall i | 0 < i < |mid|
      ensures exists j :: 0 < j < |ring| && ring[j] == mid[i]
    {
      var j := if i < k then i else i + 1;
      assert ring[j] == mid[i];
    }
    forall b | b in ring
      ensures b == ring[k] || b in mid
    {
      var j :| 0 <= j < |ring| && ring[j] == b;
      if j != k {
        assert mid[if j < k then j else j - 1] == b;
      }
    }
  }

  /** One buffer changes, its key aside: everything else stays as it was. */
  lemma PutKeeps(bufs: seq<Buf>, disk: Disk, disk': Disk, b: nat, x: Buf)
    requires Unique(bufs) && Clean(bufs, disk) && FreshEmpty(bufs) && b < |bufs| && bufs[b].key.dev != NODEV
    requires x.key == bufs[b].key && x.key in disk && x.key in disk' && disk' == disk[x.key := disk'[x.key]]
    requires (x.valid && !x.dirty && !x.busy ==> x.data == disk'[x.key]) && (x.dirty ==> x.valid)
    requires disk'[x.key] == disk[x.key] || (x.valid && x.busy)
    ensures Unique(bufs[b := x]) && Clean(bufs[b := x], disk') && FreshEmpty(bufs[b := x])
    ensures forall k :: k in disk && k.dev != NODEV ==>
      View(bufs[b := x], disk', k) == if k == x.key then if x.valid then x.data else disk'[k] else View(bufs, disk, k)
  {
    var bufs' := bufs[b := x];
    forall k | k in disk && k.dev != NODEV
      ensures View(bufs', disk', k) == if k == x.key then if x.valid then x.data else disk'[k] else View(bufs, disk, k)
    {
      PutView(bufs, disk, disk', b, x, k);
    }
    assert Unique(bufs');
  }

  lemma BusyIsReal(bufs: seq<Buf>, b: nat)
    requires FreshEmpty(bufs) && b < |bufs| && (bufs[b].busy || bufs[b].valid)
    ensures bufs[b].key.dev != NODEV
  {
  }

  lemma FilledKeeps(bufs: seq<Buf>, disk: Disk, b: nat)
    requires Unique(bufs) && Clean(bufs, disk) && FreshEmpty(bufs) && b < |bufs| && bufs[b].busy && bufs[b].key in disk
    ensures bufs[b].key.dev != NODEV
    ensures var x := bufs[b].(data := disk[bufs[b].key], valid := true, dirty := false);
      var bufs' := if bufs[b].valid then bufs else bufs[b := x];
      && Unique(bufs') && Clean(bufs', disk) && FreshEmpty(bufs') && bufs'[b].valid
      && bufs'[b].data == View(bufs, disk, bufs[b].key)
      && forall k :: k in disk && k.dev != NODEV ==> View(bufs', disk, k) == View(bufs, disk, k)
  {
    hide Unique, Clean, FreshEmpty, View;
    BusyIsReal(bufs, b);
    ViewOfHolder(bufs, disk, b);
    if !bufs[b].valid {
      PutKeeps(bufs, disk, disk, b, bufs[b].(data := disk[bufs[b].key], valid := true, dirty := false));
    }
  }

  lemma ViewOfHolder(bufs: seq<Buf>, disk: Disk, b: nat)
    requires Unique(bufs) && b < |bufs| && bufs[b].key.dev != NODEV && bufs[b].key in disk
    ensures View(bufs, disk, bufs[b].key) == if bufs[b].valid then bufs[b].data else disk[bufs[b].key]
  {
    HolderIs(bufs, b);
  }

  lemma WrittenKeeps(bufs: seq<Buf>, disk: Disk, b: nat)
    requires Unique(bufs) && Clean(bufs, disk) && FreshEmpty(bufs) && b < |bufs|
    requires bufs[b].busy && bufs[b].key in disk
    ensures var bufs', disk' := bufs[b := bufs[b].(dirty := false, valid := true)], disk[bufs[b].key := bufs[b].data];
      && Unique(bufs') && Clean(bufs', disk') && FreshEmpty(bufs')
      && forall k :: k in disk' && k.dev != NODEV ==>
           View(bufs', disk', k) == if k == bufs[b].key then bufs[b].data else View(bufs, disk, k)
    ensures bufs[b].valid ==> View(bufs, disk, bufs[b].key) == bufs[b].data
  {
    hide Unique, Clean, FreshEmpty, View;
    BusyIsReal(bufs, b);
    ViewOfHolder(bufs, disk, b);
    PutKeeps(bufs, disk, disk[bufs[b].key := bufs[b].data], b, bufs[b].(dirty := false, valid := true));
  }

  lemma NotDirty(bufs: seq<Buf>, disk: Disk, b: nat)
    requires Clean(bufs, disk) && b < |bufs| && !bufs[b].valid
    ensures !bufs[b].dirty
  {
  }

  lemma ModifiedKeeps(bufs: seq<Buf>, disk: Disk, b: nat, data: Block, pin: bool)
    requires Unique(bufs) && Clean(bufs, disk) && FreshEmpty(bufs) && b < |bufs|
    requires bufs[b].busy && bufs[b].valid && bufs[b].key in disk
    ensures var bufs' := bufs[b := bufs[b].(data := data, dirty := pin || bufs[b].dirty)];
      && Unique(bufs') && Clean(bufs', disk) && FreshEmpty(bufs')
      && forall k :: k in disk && k.dev != NODEV ==>
           View(bufs', disk, k) == if k == bufs[b].key then data else View(bufs, disk, k)
  {
    hide Unique, Clean, FreshEmpty, View;
    BusyIsReal(bufs, b);
    PutKeeps(bufs, disk, disk, b, bufs[b].(data := data, dirty := pin || bufs[b].dirty));
  }

  lemma ReleasedKeeps(bufs: seq<Buf>, disk: Disk, b: nat)
    requires Unique(bufs) && Clean(bufs, disk) && FreshEmpty(bufs) && b < |bufs| && bufs[b].busy
    requires bufs[b].valid && !bufs[b].dirty ==> bufs[b].key in disk && bufs[b].data == disk[bufs[b].key]
    ensures var bufs' := bufs[b := bufs[b].(busy := false)];
      && Unique(bufs') && Clean(bufs', disk) && FreshEmpty(bufs')
      && forall k :: k in disk && k.dev != NODEV ==> View(bufs', disk, k) == View(bufs, disk, k)
  {
    var bufs' := bufs[b := bufs[b].(busy := false)];
    forall k | k in disk && k.dev != NODEV
      ensures View(bufs', disk, k) == View(bufs, disk, k)
    {
      SameHolder(bufs, bufs', k);
    }
  }
}
