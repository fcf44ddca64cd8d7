/** Adding pages and tables to an address space, frame by frame from the free list. */
module SpaceGrowth {
  import opened PageTable
  import opened AddressSpace

  /** m' differs from m only in the tables of d and in the free frames `used`, which are no longer free. */
  ghost predicate Extends(m: Mem, m': Mem, d: nat, used: seq<nat>)
    ensures Extends(m, m', d, used) ==> SpaceOk(m, d) && SpaceOk(m', d) && m.Keys == m'.Keys
  {
    && SpaceOk(m, d) && SpaceOk(m', d) && m.Keys == m'.Keys
    && (forall f :: f in used ==> f in m && m[f].Free? && !m'[f].Free?)
    && (forall f :: f in m && !Part(m, d, f) && f !in used ==> m'[f] == m[f])
    && (forall f :: Part(m, d, f) ==> Part(m', d, f))
    && (forall f :: Part(m', d, f) ==> Part(m, d, f) || f in used)
  }

  lemma PartIsTable(m: Mem, d: nat, f: nat)
    requires SpaceOk(m, d) && Part(m, d, f)
    ensures f in m && m[f].Table?
  {
    if f != d {
      var i :| 0 <= i < NPTENTRIES && Pde(m, d, i).p && Pde(m, d, i).ppn == f;
      assert TableAt(m, d, i);
    }
  }

  lemma ExtendsTwice(m: Mem, m1: Mem, m2: Mem, d: nat, u1: seq<nat>, u2: seq<nat>)
    requires Extends(m, m1, d, u1) && Extends(m1, m2, d, u2)
    ensures Extends(m, m2, d, u1 + u2)
    ensures forall f :: Part(m1, d, f) ==> Part(m2, d, f)
  {
    hide Part;
    forall f | f in u1 + u2
      ensures f in m && m[f].Free? && !m2[f].Free?
    {
      if f in u1 {
        if Part(m1, d, f) {
          PartIsTable(m2, d, f);
        }
      } else if Part(m1, d, f) {
        PartIsTable(m1, d, f);
      }
    }
  }

  // ---------------------------------------------------------------- how many frames it takes

  /** Page n is the first of its table in a range that starts at a, and the table is absent. */
  predicate OpensTable(m: Mem, d: nat, a: nat, n: nat)
    requires IsTable(m, d) && n < ALL_PAGES
  {
    !Pde(m, d, n / NPTENTRIES).p && (n == a || n % NPTENTRIES == 0)
  }

  /** Tables to be added for the pages a..k. */
  function NewTables(m: Mem, d: nat, a: nat, k: nat): (c: nat)
    requires IsTable(m, d) && k <= ALL_PAGES
    decreases k
  {
    if k <= a then 0 else NewTables(m, d, a, k - 1) + if OpensTable(m, d, a, k - 1) then 1 else 0
  }

  /** The tables present once the pages a..k are mapped. */
  ghost predicate Opened(m: Mem, m': Mem, d: nat, a: nat, k: nat)
    requires IsTable(m, d) && IsTable(m', d)
  {
    forall i :: 0 <= i < NPTENTRIES ==>
      (Pde(m', d, i).p <==> Pde(m, d, i).p || (a < k && a / NPTENTRIES <= i <= (k - 1) / NPTENTRIES))
  }

  lemma OpensIff(m: Mem, m': Mem, d: nat, a: nat, k: nat)
    requires IsTable(m, d) && IsTable(m', d) && Opened(m, m', d, a, k) && a <= k < ALL_PAGES
    ensures Pde(m', d, k / NPTENTRIES).p <==> !OpensTable(m, d, a, k)
  {
  }

  lemma {:induction false} NewTablesGrow(m: Mem, d: nat, a: nat, k: nat, b: nat)
    requires IsTable(m, d) && k <= b <= ALL_PAGES
    ensures NewTables(m, d, a, k) <= NewTables(m, d, a, b)
    decreases b - k
  {
    if k < b {
      NewTablesGrow(m, d, a, k + 1, b);
    }
  }

  // ---------------------------------------------------------------- mapping one page

  /** walkpgdir with alloc, then the entry: g is the frame of a new table when one is needed. */
  function MapOne(m: Mem, d: nat, n: nat, g: nat, x: Pte): (m': Mem)
    requires SpaceOk(m, d) && n < ALL_PAGES && (!Pde(m, d, n / NPTENTRIES).p ==> g in m && m[g].Free?)
  {
    var i := n / NPTENTRIES;
    assert TableAt(m, d, i);
    if Pde(m, d, i).p then PutPte(m, Pde(m, d, i).ppn, n % NPTENTRIES, x)
    else PutPte(AddTable(m, d, i, g), g, n % NPTENTRIES, x)
  }

  lemma MapOneKeeps(m: Mem, d: nat, n: nat, g: nat, x: Pte)
    requires SpaceOk(m, d) && n < ALL_PAGES && (!Pde(m, d, n / NPTENTRIES).p ==> g in m && m[g].Free?)
    ensures var m' := MapOne(m, d, n, g, x);
      && SpaceOk(m', d)
      && Extends(m, m', d, if Pde(m, d, n / NPTENTRIES).p then [] else [g])
      && (!Pde(m, d, n / NPTENTRIES).p ==> Part(m', d, g))
      && (forall k :: 0 <= k < ALL_PAGES ==> Look(m', d, k) == if k == n then x else Look(m, d, k))
      && (forall k :: 0 <= k < NPTENTRIES ==> (Pde(m', d, k).p <==> Pde(m, d, k).p || k == n / NPTENTRIES))
  {
    var i := n / NPTENTRIES;
    assert TableAt(m, d, i);
    if Pde(m, d, i).p {
      assert Part(m, d, Pde(m, d, i).ppn);
      PutKeeps(m, d, n, x);
    } else {
      var m1 := AddTable(m, d, i, g);
      AddKeeps(m, d, i, g);
      assert TableAt(m1, d, i);
      assert Pde(m1, d, i).p;
      PutKeeps(m1, d, n, x);
    }
  }

  // ---------------------------------------------------------------- mapping a range

  /** The pages a..k, unmapped in m, have been mapped to consecutive frames from ppn on; the tables this
      took are the first frames of the free list l, of which l' is left. */
  ghost predicate MappedTo(m: Mem, l: seq<nat>, m': Mem, l': seq<nat>, d: nat, a: nat, k: nat, x: Pte)
    ensures MappedTo(m, l, m', l', d, a, k, x) ==> SpaceOk(m, d) && SpaceOk(m', d)
  {
    && SpaceOk(m, d) && SpaceOk(m', d) && a <= k <= ALL_PAGES
    && var c := NewTables(m, d, a, k);
    && c <= |l| && l' == l[c..] && Extends(m, m', d, l[..c]) && Opened(m, m', d, a, k)
    && (forall f :: f in l[..c] ==> Part(m', d, f))
    && (forall n :: a <= n < k ==> !Look(m, d, n).p)
    && (forall n :: 0 <= n < ALL_PAGES ==>
         Look(m', d, n) == if a <= n < k then x.(ppn := x.ppn + n - a) else Look(m, d, n))
  }

  lemma MappedNone(m: Mem, l: seq<nat>, d: nat, a: nat, x: Pte)
    requires SpaceOk(m, d) && a <= ALL_PAGES
    ensures MappedTo(m, l, m, l, d, a, a, x)
  {
    assert l[..0] == [] && l[0..] == l;
  }

  lemma MapStep(m: Mem, l: seq<nat>, m1: Mem, l1: seq<nat>, d: nat, a: nat, k: nat, x: Pte)
    requires MappedTo(m, l, m1, l1, d, a, k, x) && FreeOk(m1, l1) && k < ALL_PAGES && !Look(m1, d, k).p
    requires Pde(m1, d, k / NPTENTRIES).p || l1 != []
    ensures var opens := !Pde(m1, d, k / NPTENTRIES).p; var g := if opens then l1[0] else 0;
      && (opens ==> g in m1 && m1[g].Free?)
      && var m2 := MapOne(m1, d, k, g, x.(ppn := x.ppn + k - a)); var l2 := if opens then l1[1..] else l1;
      MappedTo(m, l, m2, l2, d, a, k + 1, x) && FreeOk(m2, l2)
  {
    hide SpaceOk, Look, Part, OpensTable, Extends, Opened, FreeOk, IsTable;
    assert l1 != [] ==> l1[0] in m1 && m1[l1[0]].Free? by { if l1 != [] { FirstIsFree(m1, l1); } }
    var opens := !Pde(m1, d, k / NPTENTRIES).p;
    var g := if opens then l1[0] else 0;
    var m2 := MapOne(m1, d, k, g, x.(ppn := x.ppn + k - a));
    OpensIff(m, m1, d, a, k);
    MapOneKeeps(m1, d, k, g, x.(ppn := x.ppn + k - a));
    MapOneFree(m1, l1, d, k, g, x.(ppn := x.ppn + k - a));
    hide MapOne;
    var c := NewTables(m, d, a, k);
    ExtendsTwice(m, m1, m2, d, l[..c], if opens then [g] else []);
    assert l[..c] + [] == l[..c];
    assert opens ==> l[..c] + [g] == l[..c + 1] && l1[1..] == l[c + 1..];
    OpenedNext(m, m1, m2, d, a, k);
  }

  lemma FirstIsFree(m: Mem, l: seq<nat>)
    requires FreeOk(m, l) && l != []
    ensures l[0] in m && m[l[0]].Free?
  {
  }

  lemma OpenedNext(m: Mem, m1: Mem, m2: Mem, d: nat, a: nat, k: nat)
    requires IsTable(m, d) && IsTable(m1, d) && IsTable(m2, d) && Opened(m, m1, d, a, k) && a <= k < ALL_PAGES
    requires forall i :: 0 <= i < NPTENTRIES ==> (Pde(m2, d, i).p <==> Pde(m1, d, i).p || i == k / NPTENTRIES)
    ensures Opened(m, m2, d, a, k + 1)
  {
    hide Pde;
  }

  lemma MapOneFree(m: Mem, l: seq<nat>, d: nat, n: nat, g: nat, x: Pte)
    requires SpaceOk(m, d) && FreeOk(m, l) && n < ALL_PAGES && (!Pde(m, d, n / NPTENTRIES).p ==> l != [] && g == l[0])
    ensures !Pde(m, d, n / NPTENTRIES).p ==> g in m && m[g].Free?
    ensures FreeOk(MapOne(m, d, n, g, x), if Pde(m, d, n / NPTENTRIES).p then l else l[1..])
  {
    assert TableAt(m, d, n / NPTENTRIES);
    var m' := MapOne(m, d, n, g, x);
    if Pde(m, d, n / NPTENTRIES).p {
      SameFree(m, m', l);
    } else {
      Popped(m, l, EmptyTable());
      SameFree(m[g := EmptyTable()], m', l[1..]);
    }
  }

  /** One turn of mappages: what walkpgdir finds or makes for page k, and what writing the entry gives. */
  lemma MapTurn(m: Mem, l: seq<nat>, m1: Mem, l1: seq<nat>, d: nat, a: nat, k: nat, x: Pte)
    requires MappedTo(m, l, m1, l1, d, a, k, x) && FreeOk(m1, l1) && k < ALL_PAGES
    ensures SpaceOk(m, d) && SpaceOk(m1, d) && (l1 != [] ==> l1[0] != d)
    ensures var pde := Pde(m1, d, k / NPTENTRIES);
      pde.p ==> IsTable(m1, pde.ppn) && (m1[pde.ppn].e[k % NPTENTRIES].p ==> Look(m, d, k).p)
    ensures var pde := Pde(m1, d, k / NPTENTRIES);
      pde.p && !m1[pde.ppn].e[k % NPTENTRIES].p ==>
      var m2 := PutPte(m1, pde.ppn, k % NPTENTRIES, x.(ppn := x.ppn + k - a));
      MappedTo(m, l, m2, l1, d, a, k + 1, x) && FreeOk(m2, l1)
    ensures !Pde(m1, d, k / NPTENTRIES).p ==> OpensTable(m, d, a, k)
    ensures !Pde(m1, d, k / NPTENTRIES).p && l1 != [] ==>
      var mt := AddTable(m1, d, k / NPTENTRIES, l1[0]);
      IsTable(mt, l1[0]) && !mt[l1[0]].e[k % NPTENTRIES].p &&
      var m2 := PutPte(mt, l1[0], k % NPTENTRIES, x.(ppn := x.ppn + k - a));
      MappedTo(m, l, m2, l1[1..], d, a, k + 1, x) && FreeOk(m2, l1[1..])
  {
    hide Extends, Opened, NewTables, FreeOk;
    assert TableAt(m1, d, k / NPTENTRIES);
    if l1 != [] {
      FirstIsFree(m1, l1);
    }
    OpensIff(m, m1, d, a, k);
    if (Pde(m1, d, k / NPTENTRIES).p || l1 != []) && !Look(m1, d, k).p {
      MapStep(m, l, m1, l1, d, a, k, x);
    }
  }
}
