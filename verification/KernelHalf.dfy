/** The kernel's half of every address space is the one setupkvm made, whatever calls follow. */
module KernelHalf {
  import opened PageTable
  import opened AddressSpace
  import opened SpaceGrowth
  import opened CopySpace
  import opened UserPages
  import opened UserMemory
  import opened FrameNeed
  import opened VmCode
  import opened FrameLedger

  /** d maps the kernel's half as the rows of kmap say. */
  ghost predicate HasKernel(m: Mem, d: nat, rows: seq<Kmap>)
    requires SpaceOk(m, d)
  {
    forall n :: USER_PAGES <= n < ALL_PAGES ==> Look(m, d, n) == KernelPte(rows, n)
  }

  ghost predicate AllHaveKernel(w: World, rows: seq<Kmap>)
    requires Ledger(w)
  {
    SpacesOk(w.m, w.dirs) && forall d :: d in w.dirs ==> HasKernel(w.m, d, rows)
  }

  /** No page of the kernel's half is the user's. */
  lemma KernelIsNotUsers(m: Mem, d: nat, rows: seq<Kmap>)
    requires SpaceOk(m, d) && HasKernel(m, d, rows)
    ensures KernelOnly(m, d)
  {
    hide Look, SpaceOk;
    forall n | USER_PAGES <= n < ALL_PAGES
      ensures !KernelPte(rows, n).u
    {
      KernelNotUser(rows, n);
    }
  }

  lemma {:induction false} KernelNotUser(rows: seq<Kmap>, n: nat)
    ensures !KernelPte(rows, n).u
    decreases |rows|
  {
    if rows != [] {
      KernelNotUser(rows[..|rows| - 1], n);
    }
  }

  // ---------------------------------------------------------------- one call

  /** An address space none of whose frames changes. */
  lemma SameHalf(m: Mem, m': Mem, e: nat, rows: seq<Kmap>)
    requires SpaceOk(m, e) && SpaceOk(m', e) && HasKernel(m, e, rows)
    requires forall f :: f in m && Owns(m, e, f) ==> f in m' && m'[f] == m[f]
    ensures HasKernel(m', e, rows)
  {
    hide SpaceOk, Look, KernelPte;
    Elsewhere(m, m', e);
  }

  /** Frames in use stay as they are. */
  lemma InUseHalves(w: World, w': World, rows: seq<Kmap>, e: nat)
    requires Ledger(w) && AllHaveKernel(w, rows) && e in w.dirs && SpaceOk(w'.m, e) && InUseSame(w.m, w'.m)
    ensures HasKernel(w'.m, e, rows)
  {
    hide SpaceOk, UserOk, Owns, HasKernel, FreeOk;
    forall f | f in w.m && Owns(w.m, e, f)
      ensures w'.m[f] == w.m[f]
    {
      OwnedInUse(w.m, e, f);
    }
    SameHalf(w.m, w'.m, e, rows);
  }

  /** One frame changes that no address space has. */
  lemma ApartHalves(w: World, f: nat, x: Frame, rows: seq<Kmap>, e: nat)
    requires Ledger(w) && AllHaveKernel(w, rows) && e in w.dirs && f in w.m && SpaceOk(w.m[f := x], e)
    requires w.m[f].Free? || f in w.held
    ensures HasKernel(w.m[f := x], e, rows)
  {
    hide SpaceOk, UserOk, Owns, HasKernel, FreeOk;
    assert f in w.held + w.lost ==> Orphan(w.m, w.dirs, f);
    forall g | g in w.m && Owns(w.m, e, g)
      ensures g != f
    {
      OwnedInUse(w.m, e, g);
    }
    SameHalf(w.m, w.m[f := x], e, rows);
  }

  /** A procedure that works on d leaves the other address spaces alone. */
  lemma OtherHalves(w: World, m': Mem, d: nat, lost: set<nat>, rows: seq<Kmap>, e: nat)
    requires Ledger(w) && AllHaveKernel(w, rows) && d in w.dirs && e in w.dirs && e != d && SpaceOk(m', e)
    requires Local(w.m, m', d, lost)
    ensures HasKernel(m', e, rows)
  {
    hide SpaceOk, UserOk, Owns, HasKernel, FreeOk;
    forall f | f in w.m && Owns(w.m, e, f)
      ensures f in m' && m'[f] == w.m[f]
    {
      OwnedInUse(w.m, e, f);
      assert !Owns(w.m, d, f);
    }
    SameHalf(w.m, m', e, rows);
  }

  /** allocuvm, deallocuvm, clearpteu and copyout on d itself. */
  lemma OwnHalf(w: World, rows: seq<Kmap>, a: Call, w': World)
    requires Ledger(w) && AllHaveKernel(w, rows) && Does(w, rows, a, w') && SpacesOk(w'.m, w'.dirs)
    requires a.Alloc? || a.Dealloc? || a.Clear? || a.CopyTo?
    ensures a.d in w.dirs && w'.dirs == w.dirs && HasKernel(w'.m, a.d, rows)
  {
    hide SpaceOk, UserOk, Look, Pde, KernelPte, FreeOk, Disjoint, Accounted, Orphan, Need, OpensTable, Visited;
    match a
    case Alloc(d, _, _, _, _, _) => AllocHalf(w, rows, a, w');
    case Dealloc(d, oldsz, newsz) => VisitedInRange(w.m, d, Up(newsz), Up(oldsz));
    case Clear(d, n) => PutKeeps(w.m, d, n, Look(w.m, d, n).(u := false));
    case CopyTo(_, _, _) =>
  }

  lemma AllocHalf(w: World, rows: seq<Kmap>, a: Call, w': World)
    requires Ledger(w) && AllHaveKernel(w, rows) && Does(w, rows, a, w') && a.Alloc?
    ensures HasKernel(w'.m, a.d, rows)
  {
    hide SpaceOk, UserOk, Look, KernelPte, FreeOk, Disjoint, Accounted, Orphan, Need, OpensTable;
  }

  function LostBy(a: Call): set<nat> { if a.Alloc? then LostSet(a.lost) else {} }

  lemma LocalCall(w: World, rows: seq<Kmap>, a: Call, w': World)
    requires Ledger(w) && Does(w, rows, a, w') && (a.Alloc? || a.Dealloc? || a.Clear? || a.CopyTo?)
    ensures a.d in w.dirs && w'.dirs == w.dirs && Local(w.m, w'.m, a.d, LostBy(a))
  {
    hide SpaceOk, UserOk, Local, Ledger, Released, Stored, AllocOutcome, FreeOk, Visited;
    LedgerSpaces(w);
    match a
    case Alloc(_, _, _, _, _, _) => AllocLocal(w, rows, a, w');
    case Dealloc(d, oldsz, newsz) => ReleasedLocal(w.m, w'.m, d, Visited(w.m, d, Up(newsz), Up(oldsz)));
    case Clear(d, n) => ClearedLocal(w.m, w'.m, d, n);
    case CopyTo(d, va, p) => StoredLocal(w.m, w'.m, d, va, p);
  }

  lemma NewHalf(w: World, rows: seq<Kmap>, a: Call, w': World)
    requires Ledger(w) && Does(w, rows, a, w') && (a.Copy? || a.Setup?) && a.c != 0
    ensures SpaceOk(w'.m, a.c) && HasKernel(w'.m, a.c, rows)
  {
    hide SpaceOk, UserOk, Look, KernelPte, FreeOk, Ledger, KernelNeed;
  }

  /** Every call keeps the kernel's half of every address space, and gives a new one the same. */
  lemma CallKeepsKernel(w: World, rows: seq<Kmap>, a: Call, w': World)
    requires Ledger(w) && AllHaveKernel(w, rows) && Does(w, rows, a, w')
    ensures Ledger(w') && AllHaveKernel(w', rows)
  {
    hide SpaceOk, UserOk, Local, CopyOutcome, Built, Released, Stored, AllocOutcome, FreeOk, Visited, HasKernel;
    hide Ledger, KernelPte, Look;
    CallKeeps(w, rows, a, w');
    LedgerSpaces(w');
    LedgerSpaces(w);
    forall e | e in w'.dirs
      ensures HasKernel(w'.m, e, rows)
    {
      match a
      case Copy(_, _, c, _) => if e in w.dirs { InUseHalves(w, w', rows, e); } else { NewHalf(w, rows, a, w'); }
      case Setup(c) => if e in w.dirs { InUseHalves(w, w', rows, e); } else { NewHalf(w, rows, a, w'); }
      case FreeSpace(d) => RemovedHalves(w, w', rows, d, e);
      case Take(f) => if w.l != [] { FirstFree(w); ApartHalves(w, f, w'.m[f], rows, e); }
      case Use(f) => ApartInUse(w, f); ApartHalves(w, f, w'.m[f], rows, e);
      case Give(f) => ApartInUse(w, f); ApartHalves(w, f, Free, rows, e);
      case _ =>
        LocalCall(w, rows, a, w');
        if e == a.d {
          OwnHalf(w, rows, a, w');
        } else {
          OtherHalves(w, w'.m, a.d, LostBy(a), rows, e);
        }
    }
  }

  lemma FirstFree(w: World)
    requires Ledger(w) && w.l != []
    ensures w.l[0] in w.m && w.m[w.l[0]].Free?
  {
    hide SpaceOk, UserOk;
  }

  lemma RemovedHalves(w: World, w': World, rows: seq<Kmap>, d: nat, e: nat)
    requires Ledger(w) && AllHaveKernel(w, rows) && Does(w, rows, Call.FreeSpace(d), w') && e in w'.dirs
    requires SpaceOk(w'.m, e)
    ensures HasKernel(w'.m, e, rows)
  {
    hide SpaceOk, UserOk, HasKernel, FreeOk;
    forall f | f in w.m && Owns(w.m, e, f)
      ensures w'.m[f] == w.m[f]
    {
      assert !Owns(w.m, d, f);
    }
    SameHalf(w.m, w'.m, e, rows);
  }

  // ---------------------------------------------------------------- every run

  lemma {:induction false} RunKeepsKernel(ws: seq<World>, rows: seq<Kmap>, calls: seq<Call>, k: nat)
    requires Run(ws, rows, calls) && k <= |calls| && Ledger(ws[0]) && AllHaveKernel(ws[0], rows)
    ensures Ledger(ws[k]) && AllHaveKernel(ws[k], rows)
    decreases k
  {
    hide Ledger, Does, AllHaveKernel;
    if k > 0 {
      RunKeepsKernel(ws, rows, calls, k - 1);
      assert Called(ws, rows, calls, k - 1);
      CallKeepsKernel(ws[k - 1], rows, calls[k - 1], ws[k]);
    }
  }

  /** From boot through any calls: every address space maps the kernel exactly as kmap says, and none of those
      pages is the user's. */
  lemma KernelInEverySpace(ws: seq<World>, rows: seq<Kmap>, calls: seq<Call>, d: nat)
    requires Run(ws, rows, calls) && Boot(ws[0]) && d in ws[|calls|].dirs
    ensures SpaceOk(ws[|calls|].m, d) && HasKernel(ws[|calls|].m, d, rows) && KernelOnly(ws[|calls|].m, d)
  {
    hide HasKernel, SpaceOk, UserOk;
    RunKeepsKernel(ws, rows, calls, |calls|);
    KernelIsNotUsers(ws[|calls|].m, d, rows);
  }
}
