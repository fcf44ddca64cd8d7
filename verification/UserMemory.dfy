/** The bytes a user program sees through its page table. */
module UserMemory {
  import opened PageTable
  import opened AddressSpace

  predicate Readable(m: Mem, d: nat, va: nat)
    requires SpaceOk(m, d)
  {
    va < KERNBASE && Look(m, d, va / PGSIZE).p
  }

  function ByteOf(m: Mem, d: nat, va: nat): nat
    requires UserOk(m, d) && Readable(m, d, va)
  {
    assert PageAt(m, d, va / PGSIZE);
    m[Look(m, d, va / PGSIZE).ppn].b[va % PGSIZE]
  }

  /** No page of the kernel's half is the user's. */
  predicate KernelOnly(m: Mem, d: nat)
    requires SpaceOk(m, d)
  {
    forall n :: USER_PAGES <= n < ALL_PAGES ==> !Look(m, d, n).u
  }

  /** There is no page table for this address. */
  predicate NoTable(m: Mem, d: nat, va: nat)
    requires SpaceOk(m, d) && va < ALL_PAGES * PGSIZE
  {
    !Pde(m, d, va / PGSIZE / NPTENTRIES).p
  }

  /** The user program itself may use this page. */
  predicate UserPage(m: Mem, d: nat, va: nat)
    requires SpaceOk(m, d)
  {
    va < KERNBASE && Look(m, d, va / PGSIZE).p && Look(m, d, va / PGSIZE).u
  }

  /** m' is m with p stored at va: the page map is the same, so is every other byte, and every frame that backs
      none of them. */
  ghost predicate Stored(m: Mem, m': Mem, d: nat, va: nat, p: seq<nat>)
    ensures Stored(m, m', d, va, p) ==> UserOk(m, d) && UserOk(m', d)
  {
    && UserOk(m, d) && UserOk(m', d) && m'.Keys == m.Keys
    && (forall n :: 0 <= n < ALL_PAGES ==> Look(m', d, n) == Look(m, d, n))
    && (forall x :: 0 <= x && Readable(m, d, x) ==>
         ByteOf(m', d, x) == if va <= x < va + |p| then p[x - va] else ByteOf(m, d, x))
    && (forall f :: f in m && !Backs(m, d, f) ==> m'[f] == m[f])
    && (forall f :: f in m ==> (m[f].Free? <==> m'[f].Free?))
  }

  /** memmove of p to address va, inside one page. */
  function Store(m: Mem, f: nat, off: nat, p: seq<nat>): (m': Mem)
    requires IsData(m, f) && off + |p| <= PGSIZE
  {
    m[f := Data(m[f].b[..off] + p + m[f].b[off + |p|..])]
  }

  lemma StoreIsStored(m: Mem, d: nat, va: nat, p: seq<nat>)
    requires UserOk(m, d) && Readable(m, d, va) && va % PGSIZE + |p| <= PGSIZE
    ensures IsData(m, Look(m, d, va / PGSIZE).ppn)
    ensures Stored(m, Store(m, Look(m, d, va / PGSIZE).ppn, va % PGSIZE, p), d, va, p)
  {
    var n := va / PGSIZE;
    assert PageAt(m, d, n);
    var f := Look(m, d, n).ppn;
    var m' := Store(m, f, va % PGSIZE, p);
    DataIsNotPart(m, d, f);
    Elsewhere(m, m', d);
    forall k | 0 <= k < USER_PAGES
      ensures PageAt(m', d, k)
    {
      assert PageAt(m, d, k);
    }
    assert UserOk(m', d);
    forall x | 0 <= x && Readable(m, d, x)
      ensures ByteOf(m', d, x) == if va <= x < va + |p| then p[x - va] else ByteOf(m, d, x)
    {
      StoreByte(m, d, va, p, x);
    }
    assert Backs(m, d, f);
  }

  lemma StoreByte(m: Mem, d: nat, va: nat, p: seq<nat>, x: nat)
    requires UserOk(m, d) && Readable(m, d, va) && va % PGSIZE + |p| <= PGSIZE && Readable(m, d, x)
    requires IsData(m, Look(m, d, va / PGSIZE).ppn)
    requires var m' := Store(m, Look(m, d, va / PGSIZE).ppn, va % PGSIZE, p);
      UserOk(m', d) && forall n :: 0 <= n < ALL_PAGES ==> Look(m', d, n) == Look(m, d, n)
    ensures var m' := Store(m, Look(m, d, va / PGSIZE).ppn, va % PGSIZE, p);
      ByteOf(m', d, x) == if va <= x < va + |p| then p[x - va] else ByteOf(m, d, x)
  {
    hide SpaceOk, Look;
    assert PageAt(m, d, x / PGSIZE);
    if x / PGSIZE != va / PGSIZE {
      assert Look(m, d, x / PGSIZE).ppn != Look(m, d, va / PGSIZE).ppn;
    }
  }

  lemma StoredNone(m: Mem, d: nat, va: nat)
    requires UserOk(m, d)
    ensures Stored(m, m, d, va, [])
  {
  }

  lemma StoredTwice(m: Mem, m1: Mem, m2: Mem, d: nat, va: nat, p: seq<nat>, q: seq<nat>)
    requires Stored(m, m1, d, va, p) && Stored(m1, m2, d, va + |p|, q)
    ensures Stored(m, m2, d, va, p + q)
  {
    hide SpaceOk, UserOk, Look, ByteOf;
    forall x | 0 <= x && Readable(m, d, x)
      ensures ByteOf(m2, d, x) == if va <= x < va + |p + q| then (p + q)[x - va] else ByteOf(m, d, x)
    {
      assert Readable(m1, d, x);
    }
    forall f | f in m && !Backs(m, d, f)
      ensures m2[f] == m[f]
    {
      assert !Backs(m1, d, f);
    }
  }

  /** Taking PTE_U from page n: the bytes stay. */
  lemma ClearKeeps(m: Mem, d: nat, n: nat)
    requires UserOk(m, d) && n < USER_PAGES && Pde(m, d, n / NPTENTRIES).p
    ensures TableAt(m, d, n / NPTENTRIES)
    ensures var x := Look(m, d, n).(u := false); var m' := PutPte(m, Pde(m, d, n / NPTENTRIES).ppn, n % NPTENTRIES, x);
      && UserOk(m', d) && m'.Keys == m.Keys
      && (forall k :: 0 <= k < ALL_PAGES ==> Look(m', d, k) == if k == n then x else Look(m, d, k))
      && (forall f :: f in m && !m[f].Table? ==> m'[f] == m[f])
      && (forall f :: f in m ==> (m[f].Free? <==> m'[f].Free?))
  {
    assert TableAt(m, d, n / NPTENTRIES);
    var x := Look(m, d, n).(u := false);
    var m' := PutPte(m, Pde(m, d, n / NPTENTRIES).ppn, n % NPTENTRIES, x);
    PutKeeps(m, d, n, x);
    forall k | 0 <= k < USER_PAGES
      ensures PageAt(m', d, k)
    {
      assert PageAt(m, d, k);
    }
  }
}
