/** kalloc.c and the page-table procedures of vm.c, on the physical pages and the free list. */
module VmCode {
  import opened PageTable
  import opened AddressSpace
  import opened SpaceGrowth
  import opened UserPages
  import opened CopySpace
  import opened FrameNeed
  import opened UserMemory

  /** Page counts of a byte address: PGROUNDUP and PGROUNDDOWN, divided by the page size. */
  function Up(sz: nat): nat { (sz + PGSIZE - 1) / PGSIZE }

  /** memset to zero, and a page for user memory that holds it. */
  function ZeroPage(): (f: Frame)
    ensures f.Data? && |f.b| == PGSIZE && forall i :: 0 <= i < PGSIZE ==> f.b[i] == 0
  {
    Data(seq(PGSIZE, i => 0))
  }

  function Zeros(n: nat): (w: seq<Want>)
    ensures |w| == n && forall i :: 0 <= i < n ==> w[i] == Want(Pte(0, true, true, true, 0), ZeroPage())
  {
    seq(n, i => Want(Pte(0, true, true, true, 0), ZeroPage()))
  }

  /** What allocuvm returns for the pages a..b, and what it leaves behind: with frames for all pages and
      tables, zeroed pages; when the frames run out, nothing, except that a page whose table could not be
      allocated is lost, and if that was the last page the call still reports success. */
  ghost predicate AllocOutcome(m: Mem, l: seq<nat>, m': Mem, l': seq<nat>, d: nat, a: nat, b: nat, newsz: nat, sz: nat,
                               k: nat, lost: nat)
  {
    && SpaceOk(m, d) && SpaceOk(m', d) && a <= k <= b <= USER_PAGES
    && Need(m, d, a, k) <= |l| && (k == b <==> Need(m, d, a, b) <= |l|)
    && (k == b ==> sz == newsz && lost == 0 && Grown(m, l, m', l', d, a, Zeros(b - a)))
    && (k < b && |l| == Need(m, d, a, k) ==> sz == 0 && lost == 0 && Undone(m, m', d, 0))
    && (k < b && |l| > Need(m, d, a, k) ==>
          && |l| == Need(m, d, a, k) + 1 && OpensTable(m, d, a, k) && lost == l[Need(m, d, a, k)]
          && (k + 1 < b ==> sz == 0 && Undone(m, m', d, lost))
          && (k + 1 == b ==> sz == newsz && !Look(m', d, k).p && Stranded(m, m', d, a, k, lost)))
  }

  /** Frames in use stay as they are. */
  ghost predicate InUseSame(m: Mem, m': Mem)
  {
    m'.Keys == m.Keys && forall f :: f in m && !m[f].Free? ==> m'[f] == m[f]
  }

  /** What copyuvm returns for this many pages, decided by the length of the free list l alone: a child when
      there are frames for the kernel's tables, the pages and their tables; with fewer than the kernel's
      tables need, 0 and the whole list lost; otherwise 0 and everything given back, except the last frame
      of the list when it was the one taken for a page that opens a table. */
  ghost predicate CopyOutcome(
    m: Mem, l: seq<nat>, m': Mem, l': seq<nat>, d: nat, pages: nat, rows: seq<Kmap>, c: nat, lost: nat)
  {
    var kernel, all := KernelNeed(rows), KernelNeed(rows) + UserNeed(pages);
    && (c != 0 <==> all <= |l|)
    && (c != 0 ==> lost == 0 && l' == l[all..] && CopyOf(m, m', d, c, pages, rows))
    && (|l| < kernel ==> lost == 0 && l' == [])
    && (kernel <= |l| < all ==>
          && CopyFreed(m, m', lost)
          && (lost != 0 <==> (|l| - kernel) % (NPTENTRIES + 1) == 1)
          && (lost != 0 ==> lost == l[|l| - 1]))
  }

  /** k is the first page of d that is absent. */
  ghost predicate FirstAbsent(m: Mem, d: nat, k: nat)
    requires SpaceOk(m, d) && k < USER_PAGES
  {
    !Look(m, d, k).p && forall n :: 0 <= n < k ==> Look(m, d, n).p
  }

  /** copyuvm of these pages meets an absent one with the frames for everything before it. */
  ghost predicate CopyPanics(m: Mem, l: seq<nat>, d: nat, pages: nat, rows: seq<Kmap>)
    requires SpaceOk(m, d) && pages <= USER_PAGES
  {
    exists k :: 0 <= k < pages && FirstAbsent(m, d, k) && KernelNeed(rows) + UserNeed(k) <= |l|
  }

  lemma AbsentAt(m: Mem, l: seq<nat>, d: nat, pages: nat, rows: seq<Kmap>, i: nat)
    requires SpaceOk(m, d) && i < pages <= USER_PAGES && KernelNeed(rows) + UserNeed(i) <= |l|
    requires !Look(m, d, i).p && forall n :: 0 <= n < i ==> Look(m, d, n).p
    ensures CopyPanics(m, l, d, pages, rows)
  {
    hide Look, SpaceOk, KernelNeed, UserNeed;
    assert FirstAbsent(m, d, i);
  }

  /** The pages below i are present, and there are no frames for one more. */
  lemma NoneAbsent(m: Mem, l: seq<nat>, d: nat, pages: nat, rows: seq<Kmap>, i: nat)
    requires SpaceOk(m, d) && i <= pages <= USER_PAGES && forall n :: 0 <= n < i ==> Look(m, d, n).p
    requires i == pages || |l| < KernelNeed(rows) + UserNeed(i)
    ensures !CopyPanics(m, l, d, pages, rows)
  {
    hide Look, SpaceOk, KernelNeed;
  }

  lemma FailedAlloc(m: Mem, l: seq<nat>, m1: Mem, l1: seq<nat>, m2: Mem, l2: seq<nat>, d: nat, a: nat, b: nat,
                    newsz: nat, k: nat, lost: nat)
    requires a <= k < b <= USER_PAGES && Grown(m, l, m1, l1, d, a, Zeros(k - a)) && Undone(m, m2, d, lost)
    requires if lost == 0 then l1 == [] else l1 == [lost] && OpensTable(m, d, a, k) && k + 1 < b
    ensures AllocOutcome(m, l, m2, l2, d, a, b, newsz, 0, k, lost)
  {
    hide Grown, Need, OpensTable, Undone, SpaceOk, UserOk, Look;
    ListUsed(m, l, m1, l1, d, a, Zeros(k - a));
    NeedMore(m, d, a, k, b);
  }

  lemma FinishedAlloc(m: Mem, l: seq<nat>, m1: Mem, l1: seq<nat>, m2: Mem, l2: seq<nat>, d: nat, a: nat, b: nat,
                      newsz: nat, k: nat, lost: nat)
    requires a <= k <= b <= USER_PAGES && Grown(m, l, m1, l1, d, a, Zeros(k - a)) && SpaceOk(m2, d)
    requires if lost == 0 then k == b && m2 == m1 && l2 == l1
             else k + 1 == b && l1 == [lost] && OpensTable(m, d, a, k) && !Look(m, d, k).p
    requires forall n :: 0 <= n < ALL_PAGES && !(a <= n < k) ==> Look(m2, d, n) == Look(m, d, n)
    requires forall n :: a <= n < k ==> Look(m2, d, n).p
    requires lost != 0 ==> Stranded(m, m2, d, a, k, lost)
    ensures AllocOutcome(m, l, m2, l2, d, a, b, newsz, newsz, k, lost)
  {
    hide Grown, Need, OpensTable, Look, SpaceOk, UserOk, Stranded;
    ListUsed(m, l, m1, l1, d, a, Zeros(k - a));
    if k < b {
      NeedMore(m, d, a, k, b);
    }
  }

  /** What uva2ka finds; without a table the source reads the entry through a null pointer. */
  datatype Ka = NoEntry | NotUser | Page(f: nat)

  datatype CopyResult = Copied | Refused | Faulted

  datatype MapResult = Mapped | NoMemory | Remap

  class Vm {
    var mem: Mem
    var freelist: seq<nat>

    ghost predicate Valid()
      reads this
    {
      FreeOk(mem, freelist)
    }

    // -------------------------------------------------------------- kalloc.c

    /** A page whose contents are whatever was left in it; 0 when there is none. */
    method Kalloc() returns (f: nat)
      requires Valid()
      modifies this
      ensures Valid()
      ensures old(freelist) == [] ==> f == 0 && mem == old(mem) && freelist == []
      ensures old(freelist) != [] ==>
        && f == old(freelist)[0] && freelist == old(freelist)[1..]
        && IsData(mem, f) && mem == old(mem)[f := mem[f]] && f != 0
    {
      if freelist == [] {
        return 0;
      }
      f := freelist[0];
      var junk := Data(seq(PGSIZE, i => 1));
      Popped(mem, freelist, junk);
      freelist := freelist[1..];
      mem := mem[f := junk];
    }

    method Kfree(f: nat)
      requires Valid() && f in mem && !mem[f].Free?
      modifies this
      ensures Valid() && mem == old(mem)[f := Free] && freelist == [f] + old(freelist)
    {
      Pushed(mem, freelist, f);
      freelist := [f] + freelist;
      mem := mem[f := Free];
    }

    /** freerange: every whole page between the two addresses. */
    method FreeRange(vstart: nat, vend: nat)
      requires Valid() && forall f :: Up(vstart) <= f < vend / PGSIZE ==> f in mem && !mem[f].Free?
      modifies this
      ensures Valid() && mem.Keys == old(mem).Keys
      ensures forall f :: f in mem ==> mem[f] == if Up(vstart) <= f < vend / PGSIZE then Free else old(mem)[f]
    {
      var p := Up(vstart);
      while p * PGSIZE + PGSIZE <= vend
        invariant Up(vstart) <= p && Valid() && mem.Keys == old(mem).Keys
        invariant p <= vend / PGSIZE || p == Up(vstart)
        invariant forall f :: f in mem ==> mem[f] == if Up(vstart) <= f < p then Free else old(mem)[f]
        decreases vend - p * PGSIZE
      {
        assert p < vend / PGSIZE;
        Kfree(p);
        p := p + 1;
      }
    }

    // -------------------------------------------------------------- walkpgdir and mappages

    /** The table for page n, or 0. */
    method WalkPgDir(d: nat, n: nat, alloc: bool) returns (t: nat)
      requires Valid() && SpaceOk(mem, d) && n < ALL_PAGES
      modifies this
      ensures Valid()
      ensures var pde := Pde(old(mem), d, n / NPTENTRIES);
        if pde.p then t == pde.ppn != 0 && mem == old(mem) && freelist == old(freelist)
        else if !alloc || old(freelist) == [] then t == 0 && mem == old(mem) && freelist == old(freelist)
        else
          && t == old(freelist)[0] != 0 && freelist == old(freelist)[1..] && t != d
          && mem == AddTable(old(mem), d, n / NPTENTRIES, t)
    {
      var i := n / NPTENTRIES;
      assert TableAt(mem, d, i);
      var pde := mem[d].e[i];
      if pde.p {
        return pde.ppn;
      }
      if !alloc {
        return 0;
      }
      t := Kalloc();
      if t == 0 {
        return;
      }
      assert t != d;
      ghost var m1, l1 := mem, freelist;
      mem := mem[t := EmptyTable()];
      assert mem == old(mem)[t := EmptyTable()];
      mem := PutPte(mem, d, i, Pte(t, true, true, true, 0));
      SameFree(m1, mem, l1);
    }

    /** mappages for the pages first..last; `k` is the page it stopped at. */
    method MapPages(d: nat, first: nat, last: nat, x: Pte) returns (r: MapResult, ghost k: nat)
      requires Valid() && SpaceOk(mem, d) && first <= last < ALL_PAGES && x.p
      modifies this
      ensures Valid() && first <= k <= last + 1
      ensures MappedTo(old(mem), old(freelist), mem, freelist, d, first, k, x)
      ensures r == Mapped ==> k == last + 1
      ensures r == NoMemory ==> k <= last && OpensTable(old(mem), d, first, k) && freelist == []
      ensures r == Remap ==> k <= last && Look(old(mem), d, k).p
    {
      hide SpaceOk, FreeOk, MappedTo, OpensTable, PutPte, AddTable, Pde, Look;
      k := first;
      var a := first;
      MappedNone(mem, freelist, d, first, x);
      while true
        invariant first <= a == k <= last && Valid() && SpaceOk(mem, d)
        invariant MappedTo(old(mem), old(freelist), mem, freelist, d, first, k, x)
        decreases last - a
      {
        MapTurn(old(mem), old(freelist), mem, freelist, d, first, a, x);
        var t := WalkPgDir(d, a, true);
        if t == 0 {
          return NoMemory, k;
        }
        var e := mem[t].e[a % NPTENTRIES];
        if e.p {
          return Remap, k;
        }
        mem := PutPte(mem, t, a % NPTENTRIES, x.(ppn := x.ppn + a - first));
        k := k + 1;
        if a == last {
          return Mapped, k;
        }
        a := a + 1;
      }
    }
  
    // -------------------------------------------------------------- deallocuvm and freevm

    method DeallocUvm(d: nat, oldsz: nat, newsz: nat) returns (sz: nat)
      requires Valid() && UserOk(mem, d) && oldsz <= KERNBASE
      modifies this
      ensures Valid() && UserOk(mem, d)
      ensures newsz >= oldsz ==> sz == oldsz && mem == old(mem) && freelist == old(freelist)
      ensures newsz < oldsz ==> sz == newsz && Released(old(mem), mem, d, Visited(old(mem), d, Up(newsz), Up(oldsz)))
    {
      hide SpaceOk, UserOk, FreeOk, Released, PutPte, Look, Pde;
      if newsz >= oldsz {
        return oldsz;
      }
      var a := Up(newsz);
      ghost var b := Up(oldsz);
      ghost var gone: set<nat> := {};
      NothingReleased(mem, d);
      while a * PGSIZE < oldsz
        invariant Valid() && UserOk(mem, d) && Released(old(mem), mem, d, gone)
        invariant gone + Visited(old(mem), d, a, b) == Visited(old(mem), d, Up(newsz), b)
        invariant forall n :: n in gone ==> n < a
        decreases oldsz - a * PGSIZE
      {
        ReleaseTurn(old(mem), mem, freelist, d, gone, a);
        var t := WalkPgDir(d, a, false);
        if t == 0 {
          a := a + NPTENTRIES - 1;
        } else {
          gone := gone + {a};
          var e := mem[t].e[a % NPTENTRIES];
          if e.p {
            assert e.ppn != 0;
            Kfree(e.ppn);
            mem := PutPte(mem, t, a % NPTENTRIES, NO_PTE);
          }
        }
        a := a + 1;
      }
      assert Visited(old(mem), d, a, b) == {};
      assert gone + {} == gone;
      sz := newsz;
    }

    method FreeVm(d: nat)
      requires Valid() && UserOk(mem, d)
      modifies this
      ensures Valid() && mem.Keys == old(mem).Keys
      ensures forall f :: f in mem ==>
        mem[f] == if Part(old(mem), d, f) || Backs(old(mem), d, f) then Free else old(mem)[f]
    {
      hide SpaceOk, UserOk, FreeOk, Released, TablesFreed, Part, Backs, Visited;
      var _ := DeallocUvm(d, KERNBASE, 0);
      ghost var m1 := mem;
      TablesFreedNone(mem, d);
      var i := 0;
      while i < NPTENTRIES
        invariant 0 <= i <= NPTENTRIES && Valid() && TablesFreed(m1, mem, d, i)
      {
        TablesTurn(m1, mem, d, i);
        var pde := mem[d].e[i];
        if pde.p {
          Kfree(pde.ppn);
        }
        i := i + 1;
      }
      SpaceFreed(old(mem), m1, mem, d);
      Kfree(d);
    }
  
    // -------------------------------------------------------------- allocuvm

    /** `k` is the first page that could not be added, `lost` the frame that was taken for it without a table. */
    method AllocUvm(d: nat, oldsz: nat, newsz: nat) returns (sz: nat, ghost k: nat, ghost lost: nat)
      requires Valid() && UserOk(mem, d)
      requires forall n :: Up(oldsz) <= n < Up(newsz) && n < USER_PAGES ==> !Look(mem, d, n).p
      modifies this
      ensures Valid() && UserOk(mem, d)
      ensures newsz >= KERNBASE ==> sz == 0 && mem == old(mem) && freelist == old(freelist)
      ensures newsz < oldsz && newsz < KERNBASE ==> sz == oldsz && mem == old(mem) && freelist == old(freelist)
      ensures oldsz <= newsz < KERNBASE ==>
        AllocOutcome(old(mem), old(freelist), mem, freelist, d, Up(oldsz), Up(newsz), newsz, sz, k, lost)
    {
      hide SpaceOk, UserOk, FreeOk, Grown, Stalled, MappedTo, Look, Pde, OpensTable, Need, Released, Undone, Stranded;
      hide Visited, GoodWant;
      k, lost := 0, 0;
      if newsz >= KERNBASE {
        return 0, 0, 0;
      }
      if newsz < oldsz {
        return oldsz, 0, 0;
      }
      ghost var a0, b := Up(oldsz), Up(newsz);
      ghost var m1, l1, want := mem, freelist, Zeros(0);
      var a := Up(oldsz);
      k := a;
      GrownNone(mem, freelist, d, a);
      while a * PGSIZE < newsz
        invariant a0 <= a <= b && a0 <= k && Valid() && UserOk(mem, d)
        invariant Grown(old(mem), old(freelist), m1, l1, d, a0, want) && want == Zeros(k - a0)
        invariant lost == 0 ==> mem == m1 && freelist == l1 && k == a
        invariant lost != 0 ==> a == k + 1 && l1 == [lost] && freelist == [] && OpensTable(old(mem), d, a0, k)
        invariant lost != 0 ==> Stalled(m1, mem, d, lost)
        decreases newsz - a * PGSIZE
      {
        var f := Kalloc();
        if f == 0 {
          ghost var m3 := mem;
          var _ := DeallocUvm(d, newsz, oldsz);
          ZerosAreGood(k - a0);
          GaveUp(old(mem), old(freelist), m1, l1, d, a0, want, m3, lost, mem, b);
          FailedAlloc(old(mem), old(freelist), m1, l1, mem, freelist, d, a0, b, newsz, k, lost);
          return 0, k, lost;
        }
        ghost var w := Want(Pte(0, true, true, true, 0), ZeroPage());
        ZerosAreGood(1);
        ReadyNext(old(mem), old(freelist), m1, l1, d, a0, want, w);
        mem := mem[f := ZeroPage()];
        assert mem == m1[l1[0] := w.page];
        var r, stop := MapPages(d, a, a, Pte(f, true, true, true, 0));
        if r == Mapped {
          ZerosAreGood(k - a0);
          GrowStep(old(mem), old(freelist), m1, l1, d, a0, want, w, mem, freelist);
          want := want + [w];
          m1, l1, k := mem, freelist, k + 1;
          assert want == Zeros(k - a0);
        } else {
          NothingMapped(m1[f := ZeroPage()], l1[1..], mem, freelist, d, k, Pte(f, true, true, true, 0));
          StallStep(m1, l1, d, k, w, mem, freelist);
          lost := f;
        }
        a := a + 1;
      }
      sz := newsz;
      ZerosAreGood(k - a0);
      PagesSoFar(old(mem), old(freelist), m1, l1, d, a0, want, mem, lost);
      if lost != 0 {
        IsStranded(old(mem), old(freelist), m1, l1, d, a0, want, mem, lost);
      }
      FinishedAlloc(old(mem), old(freelist), m1, l1, mem, freelist, d, a0, b, newsz, k, lost);
    }

    // -------------------------------------------------------------- setupkvm and copyuvm

    /** A directory with the kernel's mappings, or 0; then memory is exhausted and what was taken is lost. */
    method SetupKvm(rows: seq<Kmap>) returns (c: nat)
      requires Valid() && KmapOk(rows)
      modifies this
      ensures Valid() && InUseSame(old(mem), mem)
      ensures c != 0 <==> KernelNeed(rows) <= |old(freelist)|
      ensures c == 0 ==> freelist == []
      ensures c != 0 ==> c == old(freelist)[0] && freelist == old(freelist)[KernelNeed(rows)..]
      ensures c != 0 ==> Built(old(mem), mem, c) && Present(mem, c) == TablesOf(rows)
      ensures c != 0 ==> forall n :: 0 <= n < ALL_PAGES ==> Look(mem, c, n) == KernelPte(rows, n)
    {
      hide SpaceOk, FreeOk, MappedTo, Look, Pde, OpensTable, KernelPte, KmapOk, Built, Present, TablesOf;
      c := Kalloc();
      if c == 0 {
        return;
      }
      BuiltFirst(old(mem), old(freelist), c);
      mem := mem[c := EmptyTable()];
      assert mem == old(mem)[c := EmptyTable()];
      NoneIsPresent(mem, c);
      TakenFirst(old(freelist), mem, c);
      var j := 0;
      assert rows[..0] == [];
      while j < |rows|
        invariant 0 <= j <= |rows| && Valid() && Built(old(mem), mem, c)
        invariant Taken(old(freelist), freelist, mem, c) && Present(mem, c) == TablesOf(rows[..j])
        invariant forall n :: 0 <= n < ALL_PAGES ==> Look(mem, c, n) == KernelPte(rows[..j], n)
      {
        ghost var m1, l1 := mem, freelist;
        RowBounds(rows, j);
        var x := Pte(rows[j].ppn, true, rows[j].w, false, 0);
        var r, k := MapPages(c, rows[j].virt, rows[j].virt + rows[j].count - 1, x);
        RowMapped(old(mem), m1, l1, mem, freelist, c, rows, j, k);
        RowTaken(old(freelist), m1, l1, mem, freelist, c, rows, j, k, x);
        if r != Mapped {
          if r == Remap {
            RowIsFree(rows, j, k);
          }
          BuiltKeeps(old(mem), mem, c);
          return 0;
        }
        j := j + 1;
      }
      assert rows[..|rows|] == rows;
      BuiltKeeps(old(mem), mem, c);
    }

    /** The child's directory, or 0; panics at a page of the parent that is absent, if memory lasts that far. */
    method CopyUvm(d: nat, sz: nat, rows: seq<Kmap>) returns (c: nat, panic: bool, ghost lost: nat)
      requires Valid() && UserOk(mem, d) && KmapOk(rows) && sz <= KERNBASE
      modifies this
      ensures panic <==> CopyPanics(old(mem), old(freelist), d, Up(sz), rows)
      ensures Valid() && UserOk(mem, d) && InUseSame(old(mem), mem)
      ensures forall n :: 0 <= n < ALL_PAGES ==> Look(mem, d, n) == Look(old(mem), d, n)
      ensures !panic ==> CopyOutcome(old(mem), old(freelist), mem, freelist, d, Up(sz), rows, c, lost)
      ensures c != 0 && !panic ==> forall n :: 0 <= n < Up(sz) ==> Look(mem, d, n).p
    {
      hide SpaceOk, UserOk, FreeOk, Grown, Stalled, MappedTo, Look, Pde, OpensTable, Need, GoodWant;
      hide Built, KmapOk, KernelPte, CopyOf, CopyFreed, Copies, Part, Backs, Present, TablesOf, UserNeed, KernelNeed;
      hide CopyPanics, CopyOutcome;
      lost, panic := 0, false;
      c := SetupKvm(rows);
      ParentKept(old(mem), mem, d);
      if c == 0 {
        NothingCopied(old(mem), old(freelist), mem, d, Up(sz), rows);
        return;
      }
      ghost var mc, lc := mem, freelist;
      BuiltUserOk(mc, c, rows);
      GrownNone(mem, freelist, c, 0);
      var i := 0;
      while i * PGSIZE < sz
        invariant 0 <= i <= Up(sz) && Valid() && forall n :: 0 <= n < i ==> Look(old(mem), d, n).p
        invariant Grown(mc, lc, mem, freelist, c, 0, Copies(old(mem), d, i))
      {
        ghost var m1, l1 := mem, freelist;
        ParentTable(old(mem), mc, lc, mem, freelist, d, c, i);
        ChildUsed(mc, lc, mem, freelist, c, rows, Copies(old(mem), d, i));
        var t := WalkPgDir(d, i, false);
        if t == 0 || !mem[t].e[i % NPTENTRIES].p {
          ParentBeforePanic(old(mem), mc, lc, mem, freelist, d, c, i);
          AbsentAt(old(mem), old(freelist), d, Up(sz), rows, i);
          return 0, true, 0;
        }
        var e := mem[t].e[i % NPTENTRIES];
        ghost var w := Copies(old(mem), d, i + 1)[i];
        ParentWhileCopying(old(mem), mc, lc, mem, freelist, d, c, i);
        var f := Kalloc();
        if f == 0 {
          FreeVm(c);
          CopyEnds(old(mem), old(freelist), mc, lc, m1, l1, m1, mem, freelist, d, c, i, Up(sz), rows, 0);
          return 0, false, 0;
        }
        FirstIsFree(m1, l1);
        ReadyNext(mc, lc, m1, l1, c, 0, Copies(old(mem), d, i), w);
        mem := mem[f := mem[e.ppn]];
        assert mem == m1[l1[0] := w.page];
        var r, stop := MapPages(c, i, i, e.(ppn := f));
        if r != Mapped {
          NothingMapped(m1[l1[0] := w.page], l1[1..], mem, freelist, c, i, e.(ppn := f));
          StallStep(m1, l1, c, i, w, mem, freelist);
          ghost var m3 := mem;
          FreeVm(c);
          CopyEnds(old(mem), old(freelist), mc, lc, m1, l1, m3, mem, freelist, d, c, i, Up(sz), rows, f);
          return 0, false, f;
        }
        GrowStep(mc, lc, m1, l1, c, 0, Copies(old(mem), d, i), w, mem, freelist);
        i := i + 1;
      }
      CopyFinished(old(mem), old(freelist), mc, lc, mem, freelist, d, c, i, rows);
    }

    // -------------------------------------------------------------- clearpteu, uva2ka, copyout

    method ClearPteu(d: nat, n: nat)
      requires Valid() && UserOk(mem, d) && n < USER_PAGES && Pde(mem, d, n / NPTENTRIES).p
      modifies this
      ensures Valid() && UserOk(mem, d) && mem.Keys == old(mem).Keys && freelist == old(freelist)
      ensures forall k :: 0 <= k < ALL_PAGES ==>
        Look(mem, d, k) == if k == n then Look(old(mem), d, n).(u := false) else Look(old(mem), d, k)
      ensures forall f :: f in mem && !old(mem)[f].Table? ==> mem[f] == old(mem)[f]
      ensures TableAt(old(mem), d, n / NPTENTRIES)
      ensures var t := Pde(old(mem), d, n / NPTENTRIES).ppn;
        mem == PutPte(old(mem), t, n % NPTENTRIES, Look(old(mem), d, n).(u := false))
    {
      var t := WalkPgDir(d, n, false);
      ClearKeeps(mem, d, n);
      var x := mem[t].e[n % NPTENTRIES];
      mem := PutPte(mem, t, n % NPTENTRIES, x.(u := false));
      SameFree(old(mem), mem, freelist);
    }

    /** The frame behind a page the user may use. */
    method UvaToKa(d: nat, n: nat) returns (ka: Ka)
      requires Valid() && UserOk(mem, d) && KernelOnly(mem, d) && n < ALL_PAGES
      modifies this
      ensures mem == old(mem) && freelist == old(freelist)
      ensures ka.NoEntry? <==> !Pde(mem, d, n / NPTENTRIES).p
      ensures ka.Page? <==> Look(mem, d, n).p && Look(mem, d, n).u
      ensures ka.Page? ==> n < USER_PAGES && ka.f == Look(mem, d, n).ppn && IsData(mem, ka.f)
    {
      assert n < USER_PAGES ==> PageAt(mem, d, n);
      assert TableAt(mem, d, n / NPTENTRIES);
      var t := WalkPgDir(d, n, false);
      if t == 0 {
        return NoEntry;
      }
      var x := mem[t].e[n % NPTENTRIES];
      if !x.p || !x.u {
        return NotUser;
      }
      ka := Page(x.ppn);
    }

    /** `done` is how many of the bytes were copied. */
    method CopyOut(d: nat, va: nat, p: seq<nat>) returns (out: CopyResult, ghost done: nat)
      requires Valid() && UserOk(mem, d) && KernelOnly(mem, d) && va < ALL_PAGES * PGSIZE
      modifies this
      ensures Valid() && done <= |p| && freelist == old(freelist) && Stored(old(mem), mem, d, va, p[..done])
      ensures forall x :: va <= x < va + done ==> UserPage(old(mem), d, x)
      ensures out.Copied? <==> done == |p|
      ensures done < |p| ==> va + done < ALL_PAGES * PGSIZE && !UserPage(old(mem), d, va + done)
      ensures done < |p| ==> (out.Faulted? <==> NoTable(old(mem), d, va + done))
    {
      hide SpaceOk, UserOk, FreeOk, Stored, Look, Pde, KernelOnly;
      var k := 0;
      StoredNone(mem, d, va);
      while k < |p|
        invariant 0 <= k <= |p| && Valid() && freelist == old(freelist) && Stored(old(mem), mem, d, va, p[..k])
        invariant forall x :: va <= x < va + k ==> UserPage(old(mem), d, x)
      {
        var a := va + k;
        assert k > 0 ==> UserPage(old(mem), d, a - 1);
        var off := a % PGSIZE;
        StoredSame(old(mem), mem, d, va, p[..k], a);
        var ka := UvaToKa(d, a / PGSIZE);
        if !ka.Page? {
          return if ka.NoEntry? then Faulted else Refused, k;
        }
        var n := if PGSIZE - off > |p| - k then |p| - k else PGSIZE - off;
        ghost var m1 := mem;
        StoreIsStored(mem, d, a, p[k..k + n]);
        mem := Store(mem, ka.f, off, p[k..k + n]);
        StoredFree(m1, mem, d, a, p[k..k + n], freelist);
        StoredTwice(old(mem), m1, mem, d, va, p[..k], p[k..k + n]);
        assert p[..k] + p[k..k + n] == p[..k + n];
        SamePage(old(mem), d, a, n);
        k := k + n;
      }
      assert p[..k] == p;
      out, done := Copied, k;
    }
  }

  /** Storing bytes leaves the directory and the entries as they were. */
  lemma StoredSame(m: Mem, m': Mem, d: nat, va: nat, p: seq<nat>, a: nat)
    requires Stored(m, m', d, va, p) && KernelOnly(m, d) && a < ALL_PAGES * PGSIZE
    ensures m'[d] == m[d] && KernelOnly(m', d)
    ensures NoTable(m', d, a) == NoTable(m, d, a) && Look(m', d, a / PGSIZE) == Look(m, d, a / PGSIZE)
  {
    if Backs(m, d, d) {
      BackingIsNotPart(m, d, d);
    }
    assert m'[d] == m[d];
  }

  lemma StoredFree(m: Mem, m': Mem, d: nat, va: nat, p: seq<nat>, l: seq<nat>)
    requires Stored(m, m', d, va, p) && FreeOk(m, l)
    ensures FreeOk(m', l)
  {
    SameFree(m, m', l);
  }

  lemma SamePage(m: Mem, d: nat, a: nat, n: nat)
    requires SpaceOk(m, d) && a % PGSIZE + n <= PGSIZE && UserPage(m, d, a)
    ensures forall x :: a <= x < a + n ==> UserPage(m, d, x)
  {
    assert forall x :: a <= x < a + n ==> x / PGSIZE == a / PGSIZE;
  }

  lemma NoneIsPresent(m: Mem, c: nat)
    requires c in m && m[c] == EmptyTable()
    ensures IsTable(m, c) && forall i :: 0 <= i < NPTENTRIES ==> !Pde(m, c, i).p
  {
  }

  /** The list while the child grows. */
  lemma ChildUsed(mc: Mem, lc: seq<nat>, m1: Mem, l1: seq<nat>, c: nat, rows: seq<Kmap>, want: seq<Want>)
    requires Grown(mc, lc, m1, l1, c, 0, want) && KmapOk(rows) && Present(mc, c) == TablesOf(rows)
    ensures |want| <= USER_PAGES && UserNeed(|want|) <= |lc| && l1 == lc[UserNeed(|want|)..]
    ensures |want| < USER_PAGES ==> (OpensTable(mc, c, 0, |want|) <==> |want| % NPTENTRIES == 0)
  {
    UserNeedIs(mc, c, rows, |want|);
  }

  /** A failed copyuvm gives every frame back exactly when there were none, or enough for the kernel's tables
      and not one more than a multiple of 1025 beyond them. */
  lemma FailedCopyReturnsAll(m: Mem, l: seq<nat>, m': Mem, l': seq<nat>, d: nat, pages: nat, rows: seq<Kmap>, lost: nat)
    requires FreeOk(m, l) && FreeOk(m', l') && m.Keys == m'.Keys
    requires CopyOutcome(m, l, m', l', d, pages, rows, 0, lost)
    ensures (forall f :: f in m && m[f].Free? ==> m'[f].Free?) <==>
      l == [] || (KernelNeed(rows) <= |l| && (|l| - KernelNeed(rows)) % (NPTENTRIES + 1) != 1)
  {
    hide CopyOf, KernelNeed, UserNeed;
    if l != [] {
      assert l[0] in m && m[l[0]].Free?;
      if |l| < KernelNeed(rows) {
        assert !m'[l[0]].Free?;
      }
    }
  }

  lemma CopyList(l: seq<nat>, lc: seq<nat>, l': seq<nat>, rows: seq<Kmap>, pages: nat)
    requires KernelNeed(rows) <= |l| && lc == l[KernelNeed(rows)..] && UserNeed(pages) <= |lc|
    requires l' == lc[UserNeed(pages)..]
    ensures KernelNeed(rows) + UserNeed(pages) <= |l| && l' == l[KernelNeed(rows) + UserNeed(pages)..]
  {
  }

  /** Page k of the child could not be added: l1 is what was left of the list for it. */
  lemma CopyShort(m: Mem, l: seq<nat>, m': Mem, l': seq<nat>, d: nat, pages: nat, rows: seq<Kmap>,
                  lc: seq<nat>, l1: seq<nat>, k: nat, lost: nat)
    requires k < pages && CopyFreed(m, m', lost) && KernelNeed(rows) <= |l| && lc == l[KernelNeed(rows)..]
    requires UserNeed(k) <= |lc| && l1 == lc[UserNeed(k)..]
    requires if lost == 0 then l1 == [] else l1 == [lost] && k % NPTENTRIES == 0
    ensures CopyOutcome(m, l, m', l', d, pages, rows, 0, lost) && |l| < KernelNeed(rows) + UserNeed(k + 1)
  {
    hide CopyFreed, CopyOf, KernelNeed, UserNeed;
    UserNeedGrows(k, pages);
    OneFrameOver(|lc|, k);
    assert lost != 0 ==> l1[0] == lc[UserNeed(k)] == l[|l| - 1];
  }

  lemma RowBounds(rows: seq<Kmap>, j: nat)
    requires KmapOk(rows) && j < |rows|
    ensures rows[j].count >= 1 && rows[j].virt + rows[j].count <= ALL_PAGES
  {
  }

  lemma BuiltKeeps(m0: Mem, m: Mem, c: nat)
    requires Built(m0, m, c)
    ensures InUseSame(m0, m)
  {
  }

  /** Page i could not be added to the child, which has been given up and freed. */
  lemma CopyEnds(m0: Mem, l0: seq<nat>, mc: Mem, lc: seq<nat>, m1: Mem, l1: seq<nat>, m3: Mem, m2: Mem, l2: seq<nat>,
                 d: nat, c: nat, i: nat, pages: nat, rows: seq<Kmap>, lost: nat)
    requires UserOk(m0, d) && KmapOk(rows) && Built(m0, mc, c) && i < pages <= USER_PAGES
    requires forall n :: 0 <= n <= i ==> Look(m0, d, n).p
    requires forall n :: 0 <= n < ALL_PAGES ==> Look(mc, c, n) == KernelPte(rows, n)
    requires Grown(mc, lc, m1, l1, c, 0, Copies(m0, d, i))
    requires if lost == 0 then m3 == m1 else Stalled(m1, m3, c, lost)
    requires UserOk(m3, c) && m2.Keys == m3.Keys
    requires forall f :: f in m3 ==> m2[f] == if Part(m3, c, f) || Backs(m3, c, f) then Free else m3[f]
    requires KernelNeed(rows) <= |l0| && lc == l0[KernelNeed(rows)..] && UserNeed(i) <= |lc| && l1 == lc[UserNeed(i)..]
    requires if lost == 0 then l1 == [] else l1 == [lost] && i % NPTENTRIES == 0
    ensures CopyOutcome(m0, l0, m2, l2, d, pages, rows, 0, lost) && !CopyPanics(m0, l0, d, pages, rows)
    ensures UserOk(m2, d) && InUseSame(m0, m2)
    ensures forall n :: 0 <= n < ALL_PAGES ==> Look(m2, d, n) == Look(m0, d, n)
  {
    hide SpaceOk, UserOk, Look, Built, Grown, Stalled, KmapOk, KernelPte, Copies, Part, Backs, GoodWant;
    hide CopyOutcome, CopyPanics, KernelNeed, UserNeed;
    CopyFailed(m0, mc, lc, m1, l1, m3, m2, c, Copies(m0, d, i), rows, lost);
    ParentKept(m0, m2, d);
    CopyShort(m0, l0, m2, l2, d, pages, rows, lc, l1, i, lost);
    NoneAbsent(m0, l0, d, pages, rows, i + 1);
  }

  /** There was no memory for the kernel's half. */
  lemma NothingCopied(m: Mem, l: seq<nat>, m': Mem, d: nat, pages: nat, rows: seq<Kmap>)
    requires SpaceOk(m, d) && pages <= USER_PAGES && |l| < KernelNeed(rows)
    ensures CopyOutcome(m, l, m', [], d, pages, rows, 0, 0) && !CopyPanics(m, l, d, pages, rows)
  {
    hide KernelNeed, UserNeed, CopyOf, CopyFreed;
  }

  /** Every page has been copied. */
  lemma CopyFinished(m0: Mem, l0: seq<nat>, mc: Mem, lc: seq<nat>, m: Mem, l: seq<nat>, d: nat, c: nat, k: nat,
                     rows: seq<Kmap>)
    requires UserOk(m0, d) && KmapOk(rows) && Built(m0, mc, c) && c != 0 && k <= USER_PAGES
    requires forall n :: 0 <= n < k ==> Look(m0, d, n).p
    requires forall n :: 0 <= n < ALL_PAGES ==> Look(mc, c, n) == KernelPte(rows, n)
    requires Present(mc, c) == TablesOf(rows) && Grown(mc, lc, m, l, c, 0, Copies(m0, d, k))
    requires KernelNeed(rows) <= |l0| && lc == l0[KernelNeed(rows)..]
    ensures CopyOutcome(m0, l0, m, l, d, k, rows, c, 0) && !CopyPanics(m0, l0, d, k, rows)
    ensures UserOk(m, d) && InUseSame(m0, m)
    ensures forall n :: 0 <= n < ALL_PAGES ==> Look(m, d, n) == Look(m0, d, n)
  {
    hide SpaceOk, UserOk, Look, Built, Grown, KmapOk, KernelPte, Copies, CopyPanics, KernelNeed, UserNeed, Present;
    hide TablesOf, CopyOf;
    ChildUsed(mc, lc, m, l, c, rows, Copies(m0, d, k));
    CopyList(l0, lc, l, rows, k);
    NoneAbsent(m0, l0, d, k, rows, k);
    CopyDone(m0, mc, lc, m, l, d, c, k, rows);
    CopyKeeps(m0, m, d, c, k, rows);
    ParentKept(m0, m, d);
  }

  lemma CopyKeeps(m0: Mem, m: Mem, d: nat, c: nat, k: nat, rows: seq<Kmap>)
    requires CopyOf(m0, m, d, c, k, rows)
    ensures InUseSame(m0, m)
  {
  }

  /** Page i of the parent, read while the child is being built. */
  lemma ParentWhileCopying(m0: Mem, mc: Mem, lc: seq<nat>, m1: Mem, l1: seq<nat>, d: nat, c: nat, i: nat)
    requires UserOk(m0, d) && Built(m0, mc, c) && i < USER_PAGES && forall n :: 0 <= n <= i ==> Look(m0, d, n).p
    requires Grown(mc, lc, m1, l1, c, 0, Copies(m0, d, i))
    ensures SpaceOk(m1, d) && Pde(m1, d, i / NPTENTRIES).p && IsTable(m1, Pde(m1, d, i / NPTENTRIES).ppn)
    ensures var e := m1[Pde(m1, d, i / NPTENTRIES).ppn].e[i % NPTENTRIES]; var w := Copies(m0, d, i + 1)[i];
      && e.p && e == w.x && e.ppn in m1 && m1[e.ppn] == w.page && w.page.Data? && GoodWant(w)
      && Copies(m0, d, i + 1) == Copies(m0, d, i) + [w]
  {
    hide Built, Grown;
    GrownExtends(mc, lc, m1, l1, c, Copies(m0, d, i));
    InUseKept(m0, mc, m1, c, lc[..Need(mc, c, 0, i)]);
    ParentKept(m0, m1, d);
    assert TableAt(m1, d, i / NPTENTRIES);
    assert Look(m1, d, i).p;
  }

  /** The parent's table for page i, as the parent had it. */
  lemma ParentTable(m0: Mem, mc: Mem, lc: seq<nat>, m1: Mem, l1: seq<nat>, d: nat, c: nat, i: nat)
    requires UserOk(m0, d) && Built(m0, mc, c) && i < USER_PAGES && forall n :: 0 <= n < i ==> Look(m0, d, n).p
    requires Grown(mc, lc, m1, l1, c, 0, Copies(m0, d, i))
    ensures SpaceOk(m1, d)
    ensures var pde := Pde(m1, d, i / NPTENTRIES);
      && (pde.p ==> IsTable(m1, pde.ppn) && m1[pde.ppn].e[i % NPTENTRIES] == Look(m0, d, i))
      && (!pde.p ==> !Look(m0, d, i).p)
  {
    hide Built, Grown;
    GrownExtends(mc, lc, m1, l1, c, Copies(m0, d, i));
    InUseKept(m0, mc, m1, c, lc[..Need(mc, c, 0, i)]);
    ParentKept(m0, m1, d);
    assert TableAt(m1, d, i / NPTENTRIES) && Look(m1, d, i) == Look(m0, d, i);
  }

  /** While the child is built, the parent and everything else in use stay. */
  lemma ParentBeforePanic(m0: Mem, mc: Mem, lc: seq<nat>, m1: Mem, l1: seq<nat>, d: nat, c: nat, i: nat)
    requires UserOk(m0, d) && Built(m0, mc, c) && i < USER_PAGES && forall n :: 0 <= n < i ==> Look(m0, d, n).p
    requires Grown(mc, lc, m1, l1, c, 0, Copies(m0, d, i))
    ensures UserOk(m1, d) && InUseSame(m0, m1)
    ensures forall n :: 0 <= n < ALL_PAGES ==> Look(m1, d, n) == Look(m0, d, n)
  {
    hide Built, Grown, SpaceOk, UserOk, Look;
    GrownExtends(mc, lc, m1, l1, c, Copies(m0, d, i));
    InUseKept(m0, mc, m1, c, lc[..Need(mc, c, 0, i)]);
    ParentKept(m0, m1, d);
  }

  lemma GrownExtends(m: Mem, l: seq<nat>, m1: Mem, l1: seq<nat>, c: nat, want: seq<Want>)
    requires Grown(m, l, m1, l1, c, 0, want)
    ensures |want| <= USER_PAGES && Need(m, c, 0, |want|) <= |l| && Extends(m, m1, c, l[..Need(m, c, 0, |want|)])
  {
  }

  lemma ZerosAreGood(n: nat)
    ensures forall i :: 0 <= i < n ==> GoodWant(Zeros(n)[i])
    ensures GoodWant(Want(Pte(0, true, true, true, 0), ZeroPage()))
  {
  }

  /** One free frame, a page to add and no table for it: allocuvm takes the frame, has none for the table,
      and reports success. */
  method FalseSuccess() returns (vm: Vm, sz: nat)
    ensures fresh(vm) && vm.Valid() && UserOk(vm.mem, 1)
    ensures sz == PGSIZE && !Look(vm.mem, 1, 0).p
    ensures 2 in vm.mem && vm.mem[2].Data? && !Part(vm.mem, 1, 2) && !Backs(vm.mem, 1, 2)
  {
    vm := new Vm;
    vm.mem, vm.freelist := map[1 := EmptyTable(), 2 := Free], [2];
    ghost var m := vm.mem;
    assert IsTable(m, 1) && forall i :: 0 <= i < NPTENTRIES ==> !Pde(m, 1, i).p;
    assert UserOk(m, 1);
    assert Up(0) == 0 && Up(PGSIZE) == 1;
    assert OpensTable(m, 1, 0, 0) && NewTables(m, 1, 0, 0) == 0 && NewTables(m, 1, 0, 1) == 1;
    ghost var k, lost;
    sz, k, lost := vm.AllocUvm(1, 0, PGSIZE);
    assert k == 0 && Stranded(m, vm.mem, 1, 0, 0, lost);
    assert lost == 2;
  }
}
