/** Building a new address space beside the existing ones: setupkvm, and the copy of copyuvm. */
module CopySpace {
  import opened PageTable
  import opened AddressSpace
  import opened SpaceGrowth
  import opened UserPages

  // ---------------------------------------------------------------- the kernel half

  /** A row of kmap, in pages. */
  datatype Kmap = Kmap(virt: nat, count: nat, ppn: nat, w: bool)

  predicate Covers(k: Kmap, n: nat) { k.virt <= n < k.virt + k.count }

  predicate KmapOk(rows: seq<Kmap>)
  {
    && (forall i :: 0 <= i < |rows| ==>
         rows[i].count >= 1 && USER_PAGES <= rows[i].virt && rows[i].virt + rows[i].count <= ALL_PAGES)
    && (forall i, j :: 0 <= i < j < |rows| ==> rows[i].virt + rows[i].count <= rows[j].virt)
  }

  /** I/O space, kernel text, kernel data and memory, devices; `data` is the page where kernel data starts. */
  function KernelRows(data: nat): (rows: seq<Kmap>)
    requires 0x80100 < data < 0x8E000
    ensures KmapOk(rows)
  {
    [Kmap(0x80000, 0x100, 0, true), Kmap(0x80100, data - 0x80100, 0x100, false),
     Kmap(data, 0x8E000 - data, data - 0x80000, true), Kmap(0xFE000, 0x2000, 0xFE000, true)]
  }

  /** The kernel's entry for page n. */
  function KernelPte(rows: seq<Kmap>, n: nat): (x: Pte)
  {
    if rows == [] then NO_PTE
    else
      var k := rows[|rows| - 1];
      if Covers(k, n) then Pte(k.ppn + n - k.virt, true, k.w, false, 0) else KernelPte(rows[..|rows| - 1], n)
  }

  lemma {:induction false} Uncovered(rows: seq<Kmap>, n: nat)
    requires forall i :: 0 <= i < |rows| ==> !Covers(rows[i], n)
    ensures KernelPte(rows, n) == NO_PTE
    decreases |rows|
  {
    if rows != [] {
      Uncovered(rows[..|rows| - 1], n);
    }
  }

  /** The kernel half page by page: from KERNBASE to PHYSTOP physical memory at its fixed offset, read-only where the
      kernel's text is; the devices at their own addresses; nothing else, and nothing for users. */
  lemma KernelMap(data: nat, n: nat)
    requires 0x80100 < data < 0x8E000
    ensures var x := KernelPte(KernelRows(data), n);
      && (x.p <==> 0x80000 <= n < 0x8E000 || 0xFE000 <= n < 0x10_0000) && !x.u
      && (0x80000 <= n < 0x8E000 ==> x.ppn == n - 0x80000 && (x.w <==> !(0x80100 <= n < data)))
      && (0xFE000 <= n < 0x10_0000 ==> x.ppn == n && x.w)
  {
    var rows := KernelRows(data);
    assert rows[..3][..2][..1][..0] == [];
    assert KernelPte(rows[..3][..2][..1], n)
        == if Covers(rows[0], n) then Pte(n - 0x80000, true, true, false, 0) else NO_PTE;
    assert rows[..3][..2][1] == rows[1] && rows[..3][2] == rows[2];
    assert KernelPte(rows[..3][..2], n)
        == if Covers(rows[1], n) then Pte(n - 0x80000, true, false, false, 0) else KernelPte(rows[..3][..2][..1], n);
  }

  lemma UserUncovered(rows: seq<Kmap>, n: nat)
    requires KmapOk(rows) && n < USER_PAGES
    ensures KernelPte(rows, n) == NO_PTE
  {
    Uncovered(rows, n);
  }

  /** Each row is free when its turn comes. */
  lemma RowIsFree(rows: seq<Kmap>, j: nat, n: nat)
    requires KmapOk(rows) && j < |rows| && Covers(rows[j], n)
    ensures KernelPte(rows[..j], n) == NO_PTE
  {
    Uncovered(rows[..j], n);
  }

  // ---------------------------------------------------------------- a space made of free frames

  /** c was built since m0 from frames that were free then; nothing in use has changed. */
  ghost predicate Built(m0: Mem, m: Mem, c: nat)
    ensures Built(m0, m, c) ==> SpaceOk(m, c)
  {
    && SpaceOk(m, c) && m.Keys == m0.Keys
    && (forall f :: f in m0 && !m0[f].Free? ==> m[f] == m0[f])
    && (forall f :: f in m0 && m0[f].Free? && !m[f].Free? ==> Part(m, c, f))
    && (forall f :: Part(m, c, f) ==> f in m0 && m0[f].Free?)
  }

  /** The directory as setupkvm starts it. */
  lemma BuiltFirst(m0: Mem, l: seq<nat>, c: nat)
    requires FreeOk(m0, l) && l != [] && c == l[0]
    ensures c in m0 && m0[c].Free?
    ensures var m := m0[c := EmptyTable()];
      Built(m0, m, c) && FreeOk(m, l[1..]) && forall n :: 0 <= n < ALL_PAGES ==> Look(m, c, n) == KernelPte([], n)
  {
    var m := m0[c := EmptyTable()];
    Popped(m0, l, EmptyTable());
    assert forall i :: 0 <= i < NPTENTRIES ==> !Pde(m, c, i).p;
  }

  lemma BuiltNext(m0: Mem, m: Mem, m': Mem, c: nat, used: seq<nat>)
    requires Built(m0, m, c) && Extends(m, m', c, used) && forall f :: f in used ==> Part(m', c, f)
    ensures Built(m0, m', c)
  {
    forall f | f in m0 && !m0[f].Free?
      ensures m'[f] == m0[f]
    {
      assert !Part(m, c, f) && f !in used;
    }
    forall f | f in m0 && m0[f].Free? && !m'[f].Free?
      ensures Part(m', c, f)
    {
      assert Part(m, c, f) || f in used;
    }
  }

  lemma RowMapped(m0: Mem, m: Mem, l: seq<nat>, m': Mem, l': seq<nat>, c: nat, rows: seq<Kmap>, j: nat, k: nat)
    requires KmapOk(rows) && j < |rows| && Built(m0, m, c) && FreeOk(m, l)
    requires forall n :: 0 <= n < ALL_PAGES ==> Look(m, c, n) == KernelPte(rows[..j], n)
    requires MappedTo(m, l, m', l', c, rows[j].virt, k, Pte(rows[j].ppn, true, rows[j].w, false, 0))
    ensures Built(m0, m', c)
    ensures k == rows[j].virt + rows[j].count ==> forall n :: 0 <= n < ALL_PAGES ==>
      Look(m', c, n) == KernelPte(rows[..j + 1], n)
  {
    hide SpaceOk, Look, Extends, Opened, NewTables, FreeOk, Built, Part;
    BuiltNext(m0, m, m', c, l[..NewTables(m, c, rows[j].virt, k)]);
    assert rows[..j + 1][..j] == rows[..j];
  }

  // ---------------------------------------------------------------- the copy

  /** What the child's pages should be: the parent's entries and contents. */
  function Copies(m: Mem, d: nat, k: nat): (w: seq<Want>)
    requires UserOk(m, d) && k <= USER_PAGES && forall n :: 0 <= n < k ==> Look(m, d, n).p
    ensures |w| == k
    ensures forall n :: 0 <= n < k ==>
      GoodWant(w[n]) && w[n].x == Look(m, d, n) && w[n].x.ppn in m && w[n].page == m[w[n].x.ppn]
    decreases k
  {
    if k == 0 then []
    else
      assert PageAt(m, d, k - 1);
      Copies(m, d, k - 1) + [Want(Look(m, d, k - 1), m[Look(m, d, k - 1).ppn])]
  }

  /** An empty user half. */
  lemma BuiltUserOk(m: Mem, c: nat, rows: seq<Kmap>)
    requires SpaceOk(m, c) && KmapOk(rows) && forall n :: 0 <= n < ALL_PAGES ==> Look(m, c, n) == KernelPte(rows, n)
    ensures UserOk(m, c) && forall n :: 0 <= n < USER_PAGES ==> !Look(m, c, n).p
  {
    hide SpaceOk, Look;
    forall n | 0 <= n < USER_PAGES
      ensures !Look(m, c, n).p
    {
      UserUncovered(rows, n);
    }
  }

  /** While the child c grows from mc to m1, every frame in use at m0 stays as it was. */
  lemma InUseKept(m0: Mem, mc: Mem, m1: Mem, c: nat, used: seq<nat>)
    requires Built(m0, mc, c) && Extends(mc, m1, c, used)
    ensures m1.Keys == m0.Keys && forall f :: f in m0 && !m0[f].Free? ==> m1[f] == m0[f]
  {
    forall f | f in m0 && !m0[f].Free?
      ensures m1[f] == m0[f]
    {
      assert !Part(mc, c, f) && f !in used;
    }
  }

  /** So the parent's address space is the same, page by page. */
  lemma ParentKept(m0: Mem, m1: Mem, d: nat)
    requires UserOk(m0, d) && m1.Keys == m0.Keys && forall f :: f in m0 && !m0[f].Free? ==> m1[f] == m0[f]
    ensures UserOk(m1, d) && forall n :: 0 <= n < ALL_PAGES ==> Look(m1, d, n) == Look(m0, d, n)
    ensures forall n :: 0 <= n < USER_PAGES && Look(m0, d, n).p ==>
      Look(m0, d, n).ppn in m0 && m1[Look(m0, d, n).ppn] == m0[Look(m0, d, n).ppn]
  {
    forall f | f in m0 && Part(m0, d, f)
      ensures m1[f] == m0[f]
    {
      PartIsTable(m0, d, f);
    }
    Elsewhere(m0, m1, d);
    forall n | 0 <= n < USER_PAGES
      ensures PageAt(m1, d, n)
      ensures Look(m0, d, n).p ==> Look(m0, d, n).ppn in m0 && m1[Look(m0, d, n).ppn] == m0[Look(m0, d, n).ppn]
    {
      assert PageAt(m0, d, n);
    }
  }

  /** A finished copy: same flags and bytes below k, nothing above, the kernel's half, all on frames that
      were free; whatever was in use is untouched, and every frame taken belongs to the child. */
  ghost predicate CopyOf(m0: Mem, m: Mem, d: nat, c: nat, k: nat, rows: seq<Kmap>)
  {
    && UserOk(m0, d) && UserOk(m, c) && k <= USER_PAGES && m.Keys == m0.Keys
    && (forall n :: 0 <= n < k ==>
          var x, y := Look(m0, d, n), Look(m, c, n);
          y == x.(ppn := y.ppn) && x.ppn in m0 && y.ppn in m0 && m0[y.ppn].Free? && m[y.ppn] == m0[x.ppn])
    && (forall n :: k <= n < USER_PAGES ==> !Look(m, c, n).p)
    && (forall n :: USER_PAGES <= n < ALL_PAGES ==> Look(m, c, n) == KernelPte(rows, n))
    && (forall f :: f in m0 && !m0[f].Free? ==> m[f] == m0[f])
    && (forall f :: f in m0 && m0[f].Free? && !m[f].Free? ==> Part(m, c, f) || Backs(m, c, f))
    && (forall f :: Part(m, c, f) ==> f in m0 && m0[f].Free?)
  }

  lemma UsedWasFree(m0: Mem, mc: Mem, c: nat, f: nat)
    requires Built(m0, mc, c) && f in mc && mc[f].Free?
    ensures f in m0 && m0[f].Free?
  {
  }

  lemma CopyDone(m0: Mem, mc: Mem, lc: seq<nat>, m: Mem, l: seq<nat>, d: nat, c: nat, k: nat, rows: seq<Kmap>)
    requires UserOk(m0, d) && k <= USER_PAGES && (forall n :: 0 <= n < k ==> Look(m0, d, n).p) && KmapOk(rows)
    requires Built(m0, mc, c) && (forall n :: 0 <= n < ALL_PAGES ==> Look(mc, c, n) == KernelPte(rows, n))
    requires Grown(mc, lc, m, l, c, 0, Copies(m0, d, k))
    ensures CopyOf(m0, m, d, c, k, rows)
  {
    hide SpaceOk, UserOk, Look, Opened, Need, Built, Copies, Part, Extends;
    var want := Copies(m0, d, k);
    var used := lc[..Need(mc, c, 0, k)];
    InUseKept(m0, mc, m, c, used);
    PartsWereFree(m0, mc, m, c, used);
    BuiltUserOk(mc, c, rows);
    forall n | 0 <= n < k
      ensures var x, y := Look(m0, d, n), Look(m, c, n);
        y == x.(ppn := y.ppn) && x.ppn in m0 && y.ppn in m0 && m0[y.ppn].Free? && m[y.ppn] == m0[x.ppn]
    {
      assert CellAt(m, c, 0, want, used, n);
      UsedWereFree(mc, m, c, used, Look(m, c, n).ppn);
      UsedWasFree(m0, mc, c, Look(m, c, n).ppn);
    }
    forall f | f in m0 && m0[f].Free? && !m[f].Free?
      ensures Part(m, c, f) || Backs(m, c, f)
    {
      TakenIsOwned(m0, mc, m, c, used, f);
      if f in used && BacksIn(m, c, 0, k, f) {
        var n :| 0 <= n < k && Look(m, c, n).p && Look(m, c, n).ppn == f;
      }
    }
  }

  lemma PartsWereFree(m0: Mem, mc: Mem, m: Mem, c: nat, used: seq<nat>)
    requires Built(m0, mc, c) && Extends(mc, m, c, used)
    ensures forall f :: Part(m, c, f) ==> f in m0 && m0[f].Free?
  {
    hide Part, SpaceOk;
    forall f | Part(m, c, f)
      ensures f in m0 && m0[f].Free?
    {
      if !Part(mc, c, f) {
        UsedWereFree(mc, m, c, used, f);
      }
    }
  }

  lemma TakenIsOwned(m0: Mem, mc: Mem, m: Mem, c: nat, used: seq<nat>, f: nat)
    requires Built(m0, mc, c) && Extends(mc, m, c, used) && f in m0 && m0[f].Free? && !m[f].Free?
    ensures Part(m, c, f) || f in used
  {
  }

  /** A failed copy has been freed: everything is as it was, except the frame `lost` (0 for none). */
  ghost predicate CopyFreed(m0: Mem, m: Mem, lost: nat)
  {
    && m.Keys == m0.Keys
    && (forall f :: f in m0 && !m0[f].Free? ==> m[f] == m0[f])
    && (forall f :: f in m0 && m0[f].Free? && f != lost ==> m[f].Free?)
    && (lost != 0 ==> lost in m0 && m0[lost].Free? && m[lost].Data?)
  }

  lemma CopyFailed(m0: Mem, mc: Mem, lc: seq<nat>, m1: Mem, l1: seq<nat>, m3: Mem, m2: Mem, c: nat, want: seq<Want>,
                   rows: seq<Kmap>, lost: nat)
    requires KmapOk(rows) && Built(m0, mc, c)
    requires forall n :: 0 <= n < ALL_PAGES ==> Look(mc, c, n) == KernelPte(rows, n)
    requires Grown(mc, lc, m1, l1, c, 0, want) && (forall i :: 0 <= i < |want| ==> GoodWant(want[i]))
    requires if lost == 0 then m3 == m1 else Stalled(m1, m3, c, lost)
    requires UserOk(m3, c) && m2.Keys == m3.Keys
    requires forall f :: f in m3 ==> m2[f] == if Part(m3, c, f) || Backs(m3, c, f) then Free else m3[f]
    ensures CopyFreed(m0, m2, lost)
  {
    hide SpaceOk, UserOk, Look, Need, Built, Part, Extends, Grown, Stalled, GoodWant;
    var used := SoFar(mc, lc, m1, l1, c, 0, want, m3, lost);
    BuiltUserOk(mc, c, rows);
    var k := |want|;
    InUseKept(m0, mc, m3, c, used);
    forall f | f in m0 && !m0[f].Free?
      ensures m2[f] == m0[f]
    {
      InUseNotOwned(m0, mc, m3, c, used, k, f);
    }
    forall f | f in m0 && m0[f].Free? && f != lost
      ensures m2[f].Free?
    {
      if !m3[f].Free? {
        TakenIsOwned(m0, mc, m3, c, used, f);
        if !Part(m3, c, f) {
          var n :| 0 <= n < k && Look(m3, c, n).p && Look(m3, c, n).ppn == f;
          assert Backs(m3, c, f);
        }
      }
    }
    if lost != 0 {
      StalledIsLost(m1, m3, c, lost);
      LostIsData(m1, m3, c, lost);
      UsedWereFree(mc, m3, c, used, lost);
      UsedWasFree(m0, mc, c, lost);
    }
  }

  lemma LostIsData(m1: Mem, m3: Mem, c: nat, lost: nat)
    requires Stalled(m1, m3, c, lost)
    ensures lost in m3 && m3[lost].Data? && !Part(m3, c, lost)
  {
    DataIsNotPart(m3, c, lost);
  }

  lemma InUseNotOwned(m0: Mem, mc: Mem, m3: Mem, c: nat, used: seq<nat>, k: nat, f: nat)
    requires Built(m0, mc, c) && Extends(mc, m3, c, used) && k <= USER_PAGES && f in m0 && !m0[f].Free?
    requires forall n :: 0 <= n < USER_PAGES ==> !Look(mc, c, n).p
    requires forall n :: 0 <= n < ALL_PAGES && !(0 <= n < k) ==> Look(m3, c, n) == Look(mc, c, n)
    requires forall n :: 0 <= n < k ==> Look(m3, c, n).ppn in used
    ensures !Part(m3, c, f) && !Backs(m3, c, f)
  {
    hide SpaceOk, Look;
    assert f !in used;
  }
}
