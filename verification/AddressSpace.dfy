/** Which frames an address space owns, and which pages deallocuvm reaches. */
module AddressSpace {
  import opened Machine
  import opened PageTable

  // ---------------------------------------------------------------- ownership

  predicate PageAt(m: Mem, d: nat, n: nat)
    requires SpaceOk(m, d) && n < USER_PAGES
  {
    Look(m, d, n).p ==> IsData(m, Look(m, d, n).ppn)
  }

  /** Every user page has a data frame of its own. */
  predicate UserOk(m: Mem, d: nat)
    ensures UserOk(m, d) ==> SpaceOk(m, d)
  {
    && SpaceOk(m, d)
    && (forall n :: 0 <= n < USER_PAGES ==> PageAt(m, d, n))
    && (forall n, k :: 0 <= n < k < USER_PAGES && Look(m, d, n).p && Look(m, d, k).p ==>
         Look(m, d, n).ppn != Look(m, d, k).ppn)
  }

  /** f backs a user page. */
  predicate Backs(m: Mem, d: nat, f: nat)
    requires SpaceOk(m, d)
  {
    exists n :: 0 <= n < USER_PAGES && Look(m, d, n).p && Look(m, d, n).ppn == f
  }

  /** The free list holds each free frame exactly once; frame 0 is not the allocator's. */
  predicate FreeOk(m: Mem, l: seq<nat>)
  {
    && 0 !in m && Distinct(l)
    && (forall i :: 0 <= i < |l| ==> l[i] in m && m[l[i]].Free?)
    && (forall f :: f in m && m[f].Free? ==> f in l)
  }

  lemma Pushed(m: Mem, l: seq<nat>, f: nat)
    requires FreeOk(m, l) && f in m && !m[f].Free?
    ensures FreeOk(m[f := Free], [f] + l)
  {
    var m', l' := m[f := Free], [f] + l;
    forall g | g in m' && m'[g].Free?
      ensures g in l'
    {
      assert g == f || g in l;
    }
  }

  lemma Popped(m: Mem, l: seq<nat>, x: Frame)
    requires FreeOk(m, l) && l != [] && !x.Free?
    ensures l[0] in m && FreeOk(m[l[0] := x], l[1..])
  {
    var m', l' := m[l[0] := x], l[1..];
    forall g | g in m' && m'[g].Free?
      ensures g in l'
    {
      assert g in l;
      var i :| 0 <= i < |l| && l[i] == g;
      assert l'[i - 1] == g;
    }
  }

  /** Frames that stay free or stay in use leave the list as it is. */
  lemma SameFree(m: Mem, m': Mem, l: seq<nat>)
    requires FreeOk(m, l) && m.Keys == m'.Keys && forall f :: f in m ==> (m[f].Free? <==> m'[f].Free?)
    ensures FreeOk(m', l)
  {
  }

  // ---------------------------------------------------------------- the walk of deallocuvm

  /** The pages whose entries deallocuvm looks at: an absent table makes it skip 4MB from where it is. */
  function Visited(m: Mem, d: nat, a: nat, b: nat): (r: set<nat>)
    requires IsTable(m, d) && b <= ALL_PAGES
    decreases b - a
  {
    if a >= b then {}
    else if Pde(m, d, a / NPTENTRIES).p then {a} + Visited(m, d, a + 1, b)
    else Visited(m, d, a + NPTENTRIES, b)
  }

  /** The first directory entry from i on that is present. */
  function FirstTable(m: Mem, d: nat, i: nat): (r: nat)
    requires IsTable(m, d) && i <= NPTENTRIES
    ensures i <= r <= NPTENTRIES && (r < NPTENTRIES ==> Pde(m, d, r).p)
    ensures forall k :: i <= k < r ==> !Pde(m, d, k).p
    decreases NPTENTRIES - i
  {
    if i == NPTENTRIES || Pde(m, d, i).p then i else FirstTable(m, d, i + 1)
  }

  /** A page behind the first present table that the skip jumps over. */
  predicate JumpedOver(m: Mem, d: nat, a: nat, n: nat)
    requires IsTable(m, d) && a < ALL_PAGES
  {
    var i := FirstTable(m, d, a / NPTENTRIES);
    i != a / NPTENTRIES && n / NPTENTRIES == i && n % NPTENTRIES < a % NPTENTRIES
  }

  lemma {:induction false} VisitedIs(m: Mem, d: nat, a: nat, b: nat, n: nat)
    requires IsTable(m, d) && a < b <= ALL_PAGES && n < ALL_PAGES
    ensures n in Visited(m, d, a, b) <==> a <= n < b && Pde(m, d, n / NPTENTRIES).p && !JumpedOver(m, d, a, n)
    decreases b - a
  {
    hide Pde;
    var i := a / NPTENTRIES;
    if Pde(m, d, i).p {
      if a + 1 < b {
        VisitedIs(m, d, a + 1, b, n);
        assert FirstTable(m, d, i) == i;
      }
    } else {
      assert FirstTable(m, d, i) == FirstTable(m, d, i + 1);
      if a + NPTENTRIES < b {
        VisitedIs(m, d, a + NPTENTRIES, b, n);
      }
      if a <= n < b && n / NPTENTRIES != i && n < a + NPTENTRIES {
        assert n / NPTENTRIES == i + 1 && n % NPTENTRIES < a % NPTENTRIES;
      }
    }
  }

  /** deallocuvm from page a up to b misses no mapped page. */
  predicate ReachesAll(m: Mem, d: nat, a: nat, b: nat)
    requires SpaceOk(m, d) && b <= ALL_PAGES
  {
    forall n :: a <= n < b && Look(m, d, n).p ==> n in Visited(m, d, a, b)
  }

  /** It misses none exactly when the table of the first page is present, or the first table that is
      present maps nothing, below b, before the offset the walk enters it at. */
  lemma ReachesAllIff(m: Mem, d: nat, a: nat, b: nat)
    requires SpaceOk(m, d) && a < b <= ALL_PAGES
    ensures var i := FirstTable(m, d, a / NPTENTRIES);
      ReachesAll(m, d, a, b) <==>
      || i == a / NPTENTRIES
      || forall n :: i * NPTENTRIES <= n < i * NPTENTRIES + a % NPTENTRIES && n < b ==> !Look(m, d, n).p
  {
    hide Visited;
    var i := FirstTable(m, d, a / NPTENTRIES);
    forall n | 0 <= n < b
      ensures n in Visited(m, d, a, b) <==> a <= n && Pde(m, d, n / NPTENTRIES).p && !JumpedOver(m, d, a, n)
      ensures JumpedOver(m, d, a, n) <==> i != a / NPTENTRIES && i * NPTENTRIES <= n < i * NPTENTRIES + a % NPTENTRIES
    {
      VisitedIs(m, d, a, b, n);
    }
  }

  /** From an aligned page, or when the mapped pages are those up to some page, it misses none. */
  lemma AlignedOrPrefix(m: Mem, d: nat, a: nat, b: nat, k: nat)
    requires SpaceOk(m, d) && a <= b <= ALL_PAGES
    requires a % NPTENTRIES == 0 || forall n :: a <= n < b ==> (Look(m, d, n).p <==> n < k)
    ensures ReachesAll(m, d, a, b)
  {
    if a < b {
      ReachesAllIff(m, d, a, b);
      assert Look(m, d, a).p ==> FirstTable(m, d, a / NPTENTRIES) == a / NPTENTRIES;
    }
  }

  /** A whole memory on which it misses one: directory 1 has one table, 2, whose first page is frame 3. */
  function SkippedMem(): (m: Mem)
  {
    map[1 := Table(EmptyTable().e[1 := Pte(2, true, true, true, 0)]),
        2 := Table(EmptyTable().e[0 := Pte(3, true, true, true, 0)]),
        3 := Data(seq(PGSIZE, i => 0))]
  }

  /** The walk is not complete in general: page 1024 is mapped, the walk from page 1 skips to page 1025. */
  lemma SkipCanMiss()
    ensures UserOk(SkippedMem(), 1) && FreeOk(SkippedMem(), [])
    ensures Look(SkippedMem(), 1, 1024).p && Visited(SkippedMem(), 1, 1, 1025) == {}
    ensures !ReachesAll(SkippedMem(), 1, 1, 1025)
  {
    var m := SkippedMem();
    assert Pde(m, 1, 1).ppn == 2;
    assert SpaceOk(m, 1);
    assert forall n :: 0 <= n < ALL_PAGES ==> (Look(m, 1, n).p <==> n == 1024);
    assert Look(m, 1, 1024).ppn == 3;
    forall n | 0 <= n < USER_PAGES
      ensures PageAt(m, 1, n)
    {
    }
    assert Visited(m, 1, 1, 1025) == Visited(m, 1, 1025, 1025) == {};
  }

  // ---------------------------------------------------------------- giving pages back

  /** f backs one of these pages. */
  predicate BacksOne(m: Mem, d: nat, pages: set<nat>, f: nat)
    requires SpaceOk(m, d)
  {
    exists n :: n in pages && n < USER_PAGES && Look(m, d, n).p && Look(m, d, n).ppn == f
  }

  /** m' is m after the mapped pages among `gone` have been unmapped and their frames freed. */
  ghost predicate Released(m: Mem, m': Mem, d: nat, gone: set<nat>)
    ensures Released(m, m', d, gone) ==> SpaceOk(m, d) && SpaceOk(m', d) && m.Keys == m'.Keys
  {
    && SpaceOk(m, d) && SpaceOk(m', d) && m.Keys == m'.Keys
    && (forall i :: 0 <= i < NPTENTRIES ==> Pde(m', d, i) == Pde(m, d, i))
    && (forall f :: Part(m', d, f) <==> Part(m, d, f))
    && (forall n :: 0 <= n < ALL_PAGES ==>
          Look(m', d, n) == if n in gone && Look(m, d, n).p then NO_PTE else Look(m, d, n))
    && (forall f :: f in m && !Part(m, d, f) ==> m'[f] == if BacksOne(m, d, gone, f) then Free else m[f])
  }

  lemma DataIsNotPart(m: Mem, d: nat, f: nat)
    requires SpaceOk(m, d) && f in m && !m[f].Table?
    ensures !Part(m, d, f)
  {
    forall i | 0 <= i < NPTENTRIES
      ensures !(Pde(m, d, i).p && Pde(m, d, i).ppn == f)
    {
      assert TableAt(m, d, i);
    }
  }

  /** Freeing the frame of page n and clearing its entry. */
  function Drop(m: Mem, d: nat, n: nat): (m': Mem)
    requires SpaceOk(m, d) && n < ALL_PAGES && Look(m, d, n).p && !Part(m, d, Look(m, d, n).ppn)
  {
    assert TableAt(m, d, n / NPTENTRIES);
    var t := Pde(m, d, n / NPTENTRIES).ppn;
    assert Part(m, d, t);
    PutPte(m[Look(m, d, n).ppn := Free], t, n % NPTENTRIES, NO_PTE)
  }

  lemma DropLook(m: Mem, d: nat, n: nat)
    requires UserOk(m, d) && n < USER_PAGES && Look(m, d, n).p
    ensures PageAt(m, d, n) && !Part(m, d, Look(m, d, n).ppn)
    ensures var m' := Drop(m, d, n); var f := Look(m, d, n).ppn;
      && SpaceOk(m', d) && m'.Keys == m.Keys
      && (forall i :: 0 <= i < NPTENTRIES ==> Pde(m', d, i) == Pde(m, d, i))
      && (forall g :: Part(m', d, g) <==> Part(m, d, g))
      && (forall k :: 0 <= k < ALL_PAGES ==> Look(m', d, k) == if k == n then NO_PTE else Look(m, d, k))
      && (forall g :: g in m && !Part(m, d, g) ==> m'[g] == if g == f then Free else m[g])
      && (forall g :: g in m && Part(m, d, g) ==> m'[g].Table? && m[g].Table?)
  {
    assert PageAt(m, d, n);
    var f := Look(m, d, n).ppn;
    DataIsNotPart(m, d, f);
    var i := n / NPTENTRIES;
    assert TableAt(m, d, i);
    var t := Pde(m, d, i).ppn;
    assert Part(m, d, t);
    var m1 := m[f := Free];
    Elsewhere(m, m1, d);
    assert TableAt(m1, d, i);
    PutKeeps(m1, d, n, NO_PTE);
    forall g | g in m && Part(m, d, g)
      ensures m[g].Table?
    {
      if !m[g].Table? {
        DataIsNotPart(m, d, g);
      }
    }
  }

  /** One more page given back. */
  lemma DropReleases(m: Mem, m1: Mem, d: nat, gone: set<nat>, n: nat)
    requires UserOk(m, d) && UserOk(m1, d) && Released(m, m1, d, gone) && n !in gone && n < USER_PAGES
    ensures Look(m1, d, n) == Look(m, d, n)
    ensures !Look(m, d, n).p ==> Released(m, m1, d, gone + {n})
    ensures Look(m, d, n).p ==>
      !Part(m1, d, Look(m1, d, n).ppn) && Released(m, Drop(m1, d, n), d, gone + {n}) && UserOk(Drop(m1, d, n), d)
  {
    hide Look;
    var gone' := gone + {n};
    if !Look(m, d, n).p {
      assert forall f :: BacksOne(m, d, gone', f) <==> BacksOne(m, d, gone, f);
    } else {
      DropLook(m1, d, n);
      var f, m2 := Look(m1, d, n).ppn, Drop(m1, d, n);
      hide Drop;
      forall g | g in m && !Part(m, d, g)
        ensures m2[g] == if BacksOne(m, d, gone', g) then Free else m[g]
      {
        assert BacksOne(m, d, gone', g) <==> BacksOne(m, d, gone, g) || g == f;
      }
      DropUserOk(m1, m2, d, n);
    }
  }

  lemma DropUserOk(m: Mem, m': Mem, d: nat, n: nat)
    requires UserOk(m, d) && SpaceOk(m', d) && n < USER_PAGES && Look(m, d, n).p && m'.Keys == m.Keys
    requires forall k :: 0 <= k < ALL_PAGES ==> Look(m', d, k) == if k == n then NO_PTE else Look(m, d, k)
    requires forall g :: g in m && !Part(m, d, g) ==> m'[g] == if g == Look(m, d, n).ppn then Free else m[g]
    ensures UserOk(m', d)
  {
    forall k | 0 <= k < USER_PAGES
      ensures PageAt(m', d, k)
    {
      assert PageAt(m, d, k);
      if k != n && Look(m, d, k).p {
        DataIsNotPart(m, d, Look(m, d, k).ppn);
        assert Look(m, d, k).ppn != Look(m, d, n).ppn;
      }
    }
  }

  // ---------------------------------------------------------------- one turn of deallocuvm

  lemma NothingReleased(m: Mem, d: nat)
    requires SpaceOk(m, d)
    ensures Released(m, m, d, {})
  {
  }

  /** Looking at page n of a partly released space: skip, leave, or free and clear. */
  lemma ReleaseTurn(m: Mem, m1: Mem, l1: seq<nat>, d: nat, gone: set<nat>, n: nat)
    requires UserOk(m, d) && UserOk(m1, d) && Released(m, m1, d, gone) && FreeOk(m1, l1) && n !in gone && n < USER_PAGES
    ensures SpaceOk(m1, d) && Pde(m1, d, n / NPTENTRIES) == Pde(m, d, n / NPTENTRIES)
    ensures var pde := Pde(m1, d, n / NPTENTRIES);
      pde.p ==>
        IsTable(m1, pde.ppn) && m1[pde.ppn].e[n % NPTENTRIES] == Look(m1, d, n) && Look(m1, d, n) == Look(m, d, n)
    ensures Pde(m, d, n / NPTENTRIES).p && !Look(m1, d, n).p ==> Released(m, m1, d, gone + {n})
    ensures Look(m1, d, n).p ==>
      var t, f := Pde(m1, d, n / NPTENTRIES).ppn, Look(m1, d, n).ppn;
      f != 0 && IsData(m1, f) && IsTable(m1[f := Free], t) &&
      var m2 := PutPte(m1[f := Free], t, n % NPTENTRIES, NO_PTE);
      Released(m, m2, d, gone + {n}) && UserOk(m2, d) && FreeOk(m2, [f] + l1)
  {
    assert PageAt(m1, d, n) && TableAt(m1, d, n / NPTENTRIES);
    hide UserOk, Released;
    DropReleases(m, m1, d, gone, n);
    if Look(m1, d, n).p {
      var t, f := Pde(m1, d, n / NPTENTRIES).ppn, Look(m1, d, n).ppn;
      Pushed(m1, l1, f);
      SameFree(m1[f := Free], PutPte(m1[f := Free], t, n % NPTENTRIES, NO_PTE), [f] + l1);
    }
  }

  // ---------------------------------------------------------------- freevm

  /** f is a table behind one of the first i directory entries. */
  predicate TableBefore(m: Mem, d: nat, i: nat, f: nat)
    requires IsTable(m, d) && i <= NPTENTRIES
  {
    exists k :: 0 <= k < i && Pde(m, d, k).p && Pde(m, d, k).ppn == f
  }

  lemma TableNext(m: Mem, d: nat, i: nat, f: nat)
    requires SpaceOk(m, d) && i < NPTENTRIES
    ensures TableBefore(m, d, i + 1, f) <==> TableBefore(m, d, i, f) || (Pde(m, d, i).p && Pde(m, d, i).ppn == f)
    ensures Pde(m, d, i).p && Pde(m, d, i).ppn == f ==> !TableBefore(m, d, i, f) && f in m && m[f].Table? && f != d
  {
    assert TableAt(m, d, i);
    if TableBefore(m, d, i, f) {
      var k :| 0 <= k < i && Pde(m, d, k).p && Pde(m, d, k).ppn == f;
      assert k < i + 1;
    }
  }

  lemma AllBackingReleased(m: Mem, m1: Mem, d: nat, f: nat)
    requires UserOk(m, d) && Released(m, m1, d, Visited(m, d, 0, USER_PAGES)) && f in m && !Part(m, d, f)
    ensures m1[f] == if Backs(m, d, f) then Free else m[f]
  {
    hide Visited, Look;
    AlignedOrPrefix(m, d, 0, USER_PAGES, 0);
    if Backs(m, d, f) {
      var n :| 0 <= n < USER_PAGES && Look(m, d, n).p && Look(m, d, n).ppn == f;
      assert n in Visited(m, d, 0, USER_PAGES);
      assert BacksOne(m, d, Visited(m, d, 0, USER_PAGES), f);
    }
  }

  lemma BackingIsNotPart(m: Mem, d: nat, f: nat)
    requires UserOk(m, d) && Backs(m, d, f)
    ensures f in m && m[f].Data? && !Part(m, d, f)
  {
    var n :| 0 <= n < USER_PAGES && Look(m, d, n).p && Look(m, d, n).ppn == f;
    assert PageAt(m, d, n);
    DataIsNotPart(m, d, f);
  }

  /** The first i tables have been freed. */
  ghost predicate TablesFreed(m: Mem, m': Mem, d: nat, i: nat)
    requires IsTable(m, d) && i <= NPTENTRIES
  {
    m'.Keys == m.Keys && forall f :: f in m ==> m'[f] == if TableBefore(m, d, i, f) then Free else m[f]
  }

  lemma TablesFreedNone(m: Mem, d: nat)
    requires SpaceOk(m, d)
    ensures TablesFreed(m, m, d, 0)
  {
  }

  lemma TablesTurn(m: Mem, m1: Mem, d: nat, i: nat)
    requires SpaceOk(m, d) && i < NPTENTRIES && TablesFreed(m, m1, d, i)
    ensures d in m1 && m1[d] == m[d]
    ensures !Pde(m, d, i).p ==> TablesFreed(m, m1, d, i + 1)
    ensures Pde(m, d, i).p ==>
      Pde(m, d, i).ppn in m1 && !m1[Pde(m, d, i).ppn].Free? && TablesFreed(m, m1[Pde(m, d, i).ppn := Free], d, i + 1)
  {
    hide Pde;
    forall f
      ensures TableBefore(m, d, i + 1, f) <==> TableBefore(m, d, i, f) || (Pde(m, d, i).p && Pde(m, d, i).ppn == f)
      ensures Pde(m, d, i).p && Pde(m, d, i).ppn == f ==> !TableBefore(m, d, i, f) && f in m && m[f].Table?
    {
      TableNext(m, d, i, f);
    }
    NotItsOwnTable(m, d, i);
  }

  lemma NotItsOwnTable(m: Mem, d: nat, i: nat)
    requires SpaceOk(m, d) && i <= NPTENTRIES
    ensures !TableBefore(m, d, i, d)
  {
    forall k | 0 <= k < i
      ensures !(Pde(m, d, k).p && Pde(m, d, k).ppn == d)
    {
      assert TableAt(m, d, k);
    }
  }

  /** After deallocuvm from 0, the loop over the directory and the directory itself. */
  lemma SpaceFreed(m: Mem, m1: Mem, m2: Mem, d: nat)
    requires UserOk(m, d) && Released(m, m1, d, Visited(m, d, 0, USER_PAGES)) && TablesFreed(m1, m2, d, NPTENTRIES)
    ensures d in m2 && !m2[d].Free? && m2.Keys == m.Keys
    ensures forall f :: f in m ==> m2[d := Free][f] == if Part(m, d, f) || Backs(m, d, f) then Free else m[f]
  {
    hide Visited, SpaceOk, UserOk;
    NotItsOwnTable(m1, d, NPTENTRIES);
    forall f | f in m
      ensures m2[d := Free][f] == if Part(m, d, f) || Backs(m, d, f) then Free else m[f]
    {
      assert Part(m1, d, f) <==> f == d || TableBefore(m1, d, NPTENTRIES, f);
      assert Part(m1, d, f) <==> Part(m, d, f);
      if !Part(m, d, f) {
        AllBackingReleased(m, m1, d, f);
      }
    }
  }
}
