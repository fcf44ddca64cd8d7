/** The two-level tables of 32-bit paging, and the flat page map they stand for. */
module PageTable {

  const PGSIZE := 4096
  const NPTENTRIES := 1024
  /** Pages below KERNBASE, and pages in the whole address space. */
  const USER_PAGES := 524288
  const ALL_PAGES := 1048576
  const KERNBASE := 2147483648

  /** An entry: page frame, PTE_P, PTE_W, PTE_U and the other nine flag bits. */
  datatype Pte = Pte(ppn: nat, p: bool, w: bool, u: bool, other: nat)

  const NO_PTE := Pte(0, false, false, false, 0)

  /** What a physical page is used for. */
  datatype Frame = Free | Table(e: seq<Pte>) | Data(b: seq<nat>)

  type Mem = map<nat, Frame>

  predicate IsTable(m: Mem, f: nat) { f in m && m[f].Table? && |m[f].e| == NPTENTRIES }

  predicate IsData(m: Mem, f: nat) { f in m && m[f].Data? && |m[f].b| == PGSIZE }

  function Pde(m: Mem, d: nat, i: nat): Pte
    requires IsTable(m, d) && i < NPTENTRIES
  {
    m[d].e[i]
  }

  /** A present directory entry leads to a table of its own. */
  predicate TableAt(m: Mem, d: nat, i: nat)
    requires IsTable(m, d) && i < NPTENTRIES
  {
    Pde(m, d, i).p ==> Pde(m, d, i).ppn != d && IsTable(m, Pde(m, d, i).ppn)
  }

  predicate SpaceOk(m: Mem, d: nat)
    ensures SpaceOk(m, d) ==> IsTable(m, d)
  {
    && IsTable(m, d)
    && (forall i :: 0 <= i < NPTENTRIES ==> TableAt(m, d, i))
    && (forall i, k :: 0 <= i < k < NPTENTRIES && Pde(m, d, i).p && Pde(m, d, k).p ==>
         Pde(m, d, i).ppn != Pde(m, d, k).ppn)
  }

  /** The flat page map: the entry of virtual page n. */
  function Look(m: Mem, d: nat, n: nat): (r: Pte)
    requires SpaceOk(m, d) && n < ALL_PAGES
  {
    var pde := Pde(m, d, n / NPTENTRIES);
    assert TableAt(m, d, n / NPTENTRIES);
    if pde.p then m[pde.ppn].e[n % NPTENTRIES] else NO_PTE
  }

  /** f is the directory or one of its tables. */
  predicate Part(m: Mem, d: nat, f: nat)
    requires IsTable(m, d)
  {
    f == d || exists i :: 0 <= i < NPTENTRIES && Pde(m, d, i).p && Pde(m, d, i).ppn == f
  }

  // ---------------------------------------------------------------- frames that are not part of it

  /** Changing other frames does not change the address space. */
  lemma Elsewhere(m: Mem, m': Mem, d: nat)
    requires SpaceOk(m, d) && forall f :: f in m && Part(m, d, f) ==> f in m' && m'[f] == m[f]
    ensures SpaceOk(m', d)
    ensures forall i :: 0 <= i < NPTENTRIES ==> Pde(m', d, i) == Pde(m, d, i)
    ensures forall f :: Part(m', d, f) <==> Part(m, d, f)
    ensures forall n :: 0 <= n < ALL_PAGES ==> Look(m', d, n) == Look(m, d, n)
  {
    assert m'[d] == m[d];
    assert forall i :: 0 <= i < NPTENTRIES ==> Pde(m', d, i) == Pde(m, d, i);
    forall i | 0 <= i < NPTENTRIES
      ensures TableAt(m', d, i)
      ensures Pde(m, d, i).p ==>
        Pde(m, d, i).ppn in m && Pde(m, d, i).ppn in m' && m'[Pde(m, d, i).ppn] == m[Pde(m, d, i).ppn]
    {
      assert TableAt(m, d, i);
      assert Pde(m, d, i).p ==> Part(m, d, Pde(m, d, i).ppn);
    }
  }

  // ---------------------------------------------------------------- one entry

  function PutPte(m: Mem, t: nat, j: nat, x: Pte): (m': Mem)
    requires IsTable(m, t) && j < NPTENTRIES
  {
    m[t := Table(m[t].e[j := x])]
  }

  lemma PutKeeps(m: Mem, d: nat, n: nat, x: Pte)
    requires SpaceOk(m, d) && n < ALL_PAGES && Pde(m, d, n / NPTENTRIES).p && TableAt(m, d, n / NPTENTRIES)
    ensures var m' := PutPte(m, Pde(m, d, n / NPTENTRIES).ppn, n % NPTENTRIES, x);
      && SpaceOk(m', d) && (forall i :: 0 <= i < NPTENTRIES ==> Pde(m', d, i) == Pde(m, d, i))
      && (forall f :: Part(m', d, f) <==> Part(m, d, f))
      && (forall k :: 0 <= k < ALL_PAGES ==> Look(m', d, k) == if k == n then x else Look(m, d, k))
  {
    var t := Pde(m, d, n / NPTENTRIES).ppn;
    var m' := PutPte(m, t, n % NPTENTRIES, x);
    assert m'[d] == m[d];
    assert forall i :: 0 <= i < NPTENTRIES ==> Pde(m', d, i) == Pde(m, d, i);
    forall i | 0 <= i < NPTENTRIES
      ensures TableAt(m', d, i)
    {
      assert TableAt(m, d, i);
    }
    forall k | 0 <= k < ALL_PAGES
      ensures Look(m', d, k) == if k == n then x else Look(m, d, k)
    {
      PutLook(m, d, n, x, k);
    }
  }

  lemma PutLook(m: Mem, d: nat, n: nat, x: Pte, k: nat)
    requires SpaceOk(m, d) && n < ALL_PAGES && Pde(m, d, n / NPTENTRIES).p && TableAt(m, d, n / NPTENTRIES)
    requires k < ALL_PAGES
    requires var m' := PutPte(m, Pde(m, d, n / NPTENTRIES).ppn, n % NPTENTRIES, x);
      SpaceOk(m', d) && forall i :: 0 <= i < NPTENTRIES ==> Pde(m', d, i) == Pde(m, d, i)
    ensures Look(PutPte(m, Pde(m, d, n / NPTENTRIES).ppn, n % NPTENTRIES, x), d, k)
         == if k == n then x else Look(m, d, k)
  {
    assert TableAt(m, d, k / NPTENTRIES);
  }

  // ---------------------------------------------------------------- a new table

  function EmptyTable(): (t: Frame)
    ensures t.Table? && |t.e| == NPTENTRIES && forall j :: 0 <= j < NPTENTRIES ==> t.e[j] == NO_PTE
  {
    Table(seq(NPTENTRIES, j => NO_PTE))
  }

  /** A zeroed table in frame f behind directory entry i. */
  function AddTable(m: Mem, d: nat, i: nat, f: nat): (m': Mem)
    requires IsTable(m, d) && i < NPTENTRIES && f != d
  {
    PutPte(m[f := EmptyTable()], d, i, Pte(f, true, true, true, 0))
  }

  lemma AddKeeps(m: Mem, d: nat, i: nat, f: nat)
    requires SpaceOk(m, d) && i < NPTENTRIES && !Pde(m, d, i).p && f in m && !m[f].Table?
    ensures var m' := AddTable(m, d, i, f);
      && SpaceOk(m', d) && (forall k :: 0 <= k < NPTENTRIES && k != i ==> Pde(m', d, k) == Pde(m, d, k))
      && Pde(m', d, i) == Pte(f, true, true, true, 0)
      && (forall g :: Part(m', d, g) <==> g == f || Part(m, d, g))
      && (forall k :: 0 <= k < ALL_PAGES ==> Look(m', d, k) == Look(m, d, k))
  {
    var m' := AddTable(m, d, i, f);
    assert forall k :: 0 <= k < NPTENTRIES && k != i ==> Pde(m', d, k) == Pde(m, d, k);
    assert Pde(m', d, i) == Pte(f, true, true, true, 0);
    forall k | 0 <= k < NPTENTRIES
      ensures TableAt(m', d, k)
    {
      assert TableAt(m, d, k);
    }
    forall k | 0 <= k < NPTENTRIES && k != i && Pde(m, d, k).p
      ensures Pde(m, d, k).ppn != f
    {
      assert TableAt(m, d, k);
    }
    forall k | 0 <= k < ALL_PAGES
      ensures Look(m', d, k) == Look(m, d, k)
    {
      assert TableAt(m, d, k / NPTENTRIES);
    }
  }
}
