/** Conservation of physical pages: over every run of the page-table procedures each page is free, belongs
    to exactly one address space, is held by the kernel, or was lost when memory ran out. */
module FrameLedger {
  import opened PageTable
  import opened AddressSpace
  import opened SpaceGrowth
  import opened UserPages
  import opened CopySpace
  import opened FrameNeed
  import opened UserMemory
  import opened VmCode

  /** f is the directory, a table or a user page of d. */
  predicate Owns(m: Mem, d: nat, f: nat)
    requires SpaceOk(m, d)
  {
    Part(m, d, f) || Backs(m, d, f)
  }

  /** Memory, the free list, the directories, the pages the kernel took for itself (kernel stacks, pipes), and
      the pages nobody can give back. */
  datatype World = World(m: Mem, l: seq<nat>, dirs: set<nat>, held: set<nat>, lost: set<nat>)

  ghost predicate SpacesOk(m: Mem, dirs: set<nat>)
    ensures SpacesOk(m, dirs) ==> forall d :: d in dirs ==> SpaceOk(m, d)
  {
    forall d :: d in dirs ==> UserOk(m, d)
  }

  /** No frame belongs to two address spaces. */
  ghost predicate Disjoint(m: Mem, dirs: set<nat>)
    requires SpacesOk(m, dirs)
  {
    forall d, e, f :: d in dirs && e in dirs && Owns(m, d, f) && Owns(m, e, f) ==> d == e
  }

  /** A frame in use is apart from the address spaces or belongs to one. */
  ghost predicate Accounted(m: Mem, dirs: set<nat>, apart: set<nat>, f: nat)
    requires SpacesOk(m, dirs) && f in m
  {
    m[f].Free? || f in apart || exists d :: d in dirs && Owns(m, d, f)
  }

  /** Held and lost frames are in use and in no address space. */
  ghost predicate Orphan(m: Mem, dirs: set<nat>, f: nat)
    requires SpacesOk(m, dirs)
  {
    f in m && !m[f].Free? && forall d :: d in dirs ==> !Owns(m, d, f)
  }

  ghost predicate Ledger(w: World)
  {
    && FreeOk(w.m, w.l) && SpacesOk(w.m, w.dirs) && Disjoint(w.m, w.dirs)
    && (forall f :: f in w.m ==> Accounted(w.m, w.dirs, w.held + w.lost, f))
    && (forall f :: f in w.held + w.lost ==> Orphan(w.m, w.dirs, f))
    && w.held !! w.lost
  }

  // ---------------------------------------------------------------- one space changes, the others do not

  lemma OwnedInUse(m: Mem, d: nat, f: nat)
    requires UserOk(m, d) && Owns(m, d, f)
    ensures f in m && !m[f].Free?
  {
    if Part(m, d, f) {
      PartIsTable(m, d, f);
    } else {
      BackingIsNotPart(m, d, f);
    }
  }

  /** An address space whose frames are unchanged is unchanged. */
  lemma SpaceUnchanged(m: Mem, m': Mem, d: nat)
    requires UserOk(m, d) && forall f :: f in m && Owns(m, d, f) ==> f in m' && m'[f] == m[f]
    ensures UserOk(m', d) && forall f :: Owns(m', d, f) <==> Owns(m, d, f)
  {
    Elsewhere(m, m', d);
    forall n | 0 <= n < USER_PAGES
      ensures PageAt(m', d, n)
    {
      assert PageAt(m, d, n);
      assert Look(m, d, n).p ==> Backs(m, d, Look(m, d, n).ppn);
    }
    assert forall f :: Backs(m', d, f) <==> Backs(m, d, f);
  }

  /** What a procedure working on d may do to memory: frames in use that are not d's stay as they are, and
      d keeps its frames or frees them, and takes only free ones. */
  ghost predicate Local(m: Mem, m': Mem, d: nat, lost: set<nat>)
  {
    && UserOk(m, d) && UserOk(m', d) && m.Keys == m'.Keys
    && (forall f :: f in m && !m[f].Free? && !Owns(m, d, f) ==> m'[f] == m[f])
    && (forall f :: Owns(m', d, f) ==> Owns(m, d, f) || (f in m && m[f].Free?))
    && (forall f :: f in m && !m'[f].Free? && (m[f].Free? || Owns(m, d, f)) ==> Owns(m', d, f) || f in lost)
    && (forall f :: f in lost ==> f in m && m[f].Free? && !m'[f].Free? && !Owns(m', d, f))
  }

  lemma OthersKept(w: World, m': Mem, d: nat, lost: set<nat>, e: nat)
    requires Ledger(w) && d in w.dirs && Local(w.m, m', d, lost) && e in w.dirs && e != d
    ensures UserOk(m', e) && forall f :: Owns(m', e, f) <==> Owns(w.m, e, f)
  {
    hide Part, Backs, SpaceOk, UserOk;
    forall f | f in w.m && Owns(w.m, e, f)
      ensures f in m' && m'[f] == w.m[f]
    {
      OwnedInUse(w.m, e, f);
      assert !Owns(w.m, d, f);
    }
    SpaceUnchanged(w.m, m', e);
  }

  /** Such a procedure keeps the ledger, adding what it lost. */
  lemma LocalKeeps(w: World, m': Mem, l': seq<nat>, d: nat, lost: set<nat>)
    requires Ledger(w) && d in w.dirs && FreeOk(m', l') && Local(w.m, m', d, lost)
    ensures Ledger(World(m', l', w.dirs, w.held, w.lost + lost))
  {
    hide Owns, FreeOk, SpaceOk, UserOk;
    forall e | e in w.dirs
      ensures UserOk(m', e)
      ensures e != d ==> forall f :: Owns(m', e, f) <==> Owns(w.m, e, f)
    {
      if e != d {
        OthersKept(w, m', d, lost, e);
      }
    }
    forall f | f in m'
      ensures Accounted(m', w.dirs, w.held + (w.lost + lost), f)
    {
      assert Accounted(w.m, w.dirs, w.held + w.lost, f);
      LocalAccounts(w, m', d, lost, f);
    }
    forall f | f in w.held + (w.lost + lost)
      ensures Orphan(m', w.dirs, f)
    {
      assert f in w.held + w.lost ==> Orphan(w.m, w.dirs, f);
      forall e | e in w.dirs
        ensures !Owns(m', e, f)
      {
        if e != d && Owns(m', e, f) {
          OwnedInUse(w.m, e, f);
        }
      }
    }
    forall e, g, f | e in w.dirs && g in w.dirs && Owns(m', e, f) && Owns(m', g, f)
      ensures e == g
    {
      if e != d && g == d {
        OwnedInUse(w.m, e, f);
      } else if e == d && g != d {
        OwnedInUse(w.m, g, f);
      }
    }
  }

  lemma LocalAccounts(w: World, m': Mem, d: nat, lost: set<nat>, f: nat)
    requires Ledger(w) && d in w.dirs && Local(w.m, m', d, lost) && f in m'
    requires SpacesOk(m', w.dirs) && forall e, g :: e in w.dirs && e != d ==> (Owns(m', e, g) <==> Owns(w.m, e, g))
    ensures Accounted(m', w.dirs, w.held + (w.lost + lost), f)
  {
    hide Owns, FreeOk, SpaceOk, UserOk, SpacesOk, Disjoint;
    assert Accounted(w.m, w.dirs, w.held + w.lost, f);
    if !m'[f].Free? && f !in w.held + (w.lost + lost) {
      if w.m[f].Free? || Owns(w.m, d, f) {
        assert Owns(m', d, f);
      } else {
        var e :| e in w.dirs && Owns(w.m, e, f);
        assert Owns(m', e, f);
      }
    }
  }

  // ---------------------------------------------------------------- each procedure is local

  lemma GrownLocal(m: Mem, l: seq<nat>, m': Mem, l': seq<nat>, d: nat, a: nat, want: seq<Want>)
    requires Grown(m, l, m', l', d, a, want) && forall i :: 0 <= i < |want| ==> GoodWant(want[i])
    requires 0 !in m && forall n :: a <= n < a + |want| && n < USER_PAGES ==> !Look(m, d, n).p
    ensures Local(m, m', d, {})
  {
    hide SpaceOk, UserOk, Grown, Look, Part, GoodWant;
    var used := SoFar(m, l, m', l', d, a, want, m', 0);
    ExtendsParts(m, m', d, used);
    UserBefore(m, l, m', l', d, a, want);
    var k := a + |want|;
    forall f | Owns(m', d, f)
      ensures Owns(m, d, f) || (f in m && m[f].Free?)
    {
      if !Part(m', d, f) {
        var n :| 0 <= n < USER_PAGES && Look(m', d, n).p && Look(m', d, n).ppn == f;
        assert !(a <= n < k) ==> Look(m, d, n) == Look(m', d, n);
      }
    }
    forall f | f in m && !m'[f].Free? && (m[f].Free? || Owns(m, d, f))
      ensures Owns(m', d, f)
    {
      if m[f].Free? {
        FreeNotPart(m, d, f);
        assert f in used;
        if !Part(m', d, f) {
          var n :| a <= n < k && Look(m', d, n).p && Look(m', d, n).ppn == f;
        }
      } else if !Part(m, d, f) {
        var n :| 0 <= n < USER_PAGES && Look(m, d, n).p && Look(m, d, n).ppn == f;
        assert Look(m', d, n) == Look(m, d, n);
      }
    }
  }

  lemma FreeNotPart(m: Mem, d: nat, f: nat)
    requires SpaceOk(m, d) && f in m && m[f].Free?
    ensures !Part(m, d, f)
  {
    DataIsNotPart(m, d, f);
  }

  lemma UserBefore(m: Mem, l: seq<nat>, m': Mem, l': seq<nat>, d: nat, a: nat, want: seq<Want>)
    requires Grown(m, l, m', l', d, a, want)
    ensures UserOk(m, d)
  {
  }

  lemma ReleasedLocal(m: Mem, m': Mem, d: nat, gone: set<nat>)
    requires UserOk(m, d) && UserOk(m', d) && Released(m, m', d, gone)
    ensures Local(m, m', d, {})
  {
    hide SpaceOk, UserOk, Look, Part;
    forall f | Owns(m', d, f)
      ensures Owns(m, d, f)
    {
      if !Part(m', d, f) {
        var n :| 0 <= n < USER_PAGES && Look(m', d, n).p && Look(m', d, n).ppn == f;
        assert Look(m, d, n) == Look(m', d, n);
      }
    }
    forall f | f in m && !m'[f].Free? && (m[f].Free? || Owns(m, d, f))
      ensures Owns(m', d, f)
    {
      if m[f].Free? {
        FreeNotPart(m, d, f);
      } else if !Part(m, d, f) {
        var n :| 0 <= n < USER_PAGES && Look(m, d, n).p && Look(m, d, n).ppn == f;
        assert n in gone ==> BacksOne(m, d, gone, f);
        assert Look(m', d, n) == Look(m, d, n);
      }
    }
  }

  function LostSet(lost: nat): set<nat> { if lost == 0 then {} else {lost} }

  lemma UndoneLocal(m: Mem, m': Mem, d: nat, lost: nat)
    requires UserOk(m, d) && UserOk(m', d) && Undone(m, m', d, lost) && 0 !in m
    ensures Local(m, m', d, LostSet(lost))
  {
    hide SpaceOk, UserOk, Look, Part;
    forall f | Owns(m', d, f)
      ensures Owns(m, d, f) || (f in m && m[f].Free?)
    {
      if !Part(m', d, f) {
        var n :| 0 <= n < USER_PAGES && Look(m', d, n).p && Look(m', d, n).ppn == f;
        assert Look(m, d, n) == Look(m', d, n);
      }
    }
    forall f | f in m && !m'[f].Free? && Owns(m, d, f)
      ensures Owns(m', d, f)
    {
      if !Part(m, d, f) {
        var n :| 0 <= n < USER_PAGES && Look(m, d, n).p && Look(m, d, n).ppn == f;
        assert Look(m', d, n) == Look(m, d, n);
      }
    }
  }

  lemma StrandedLocal(m: Mem, m': Mem, d: nat, a: nat, k: nat, lost: nat)
    requires UserOk(m, d) && UserOk(m', d) && Stranded(m, m', d, a, k, lost) && 0 !in m
    requires forall n :: a <= n < k ==> !Look(m, d, n).p
    ensures Local(m, m', d, LostSet(lost))
  {
    hide SpaceOk, UserOk, Look, Part;
    forall f | Owns(m', d, f)
      ensures Owns(m, d, f) || (f in m && m[f].Free?)
    {
      if !Part(m', d, f) {
        var n :| 0 <= n < USER_PAGES && Look(m', d, n).p && Look(m', d, n).ppn == f;
        assert !(a <= n < k) ==> Look(m, d, n) == Look(m', d, n);
      }
    }
    forall f | f in m && !m'[f].Free? && (m[f].Free? || Owns(m, d, f))
      ensures Owns(m', d, f) || f in LostSet(lost)
    {
      if m[f].Free? {
        if !Part(m', d, f) && f != lost {
          var n :| a <= n < k && Look(m', d, n).p && Look(m', d, n).ppn == f;
        }
      } else if !Part(m, d, f) {
        var n :| 0 <= n < USER_PAGES && Look(m, d, n).p && Look(m, d, n).ppn == f;
        assert Look(m', d, n) == Look(m, d, n);
      }
    }
  }

  /** Same tables, same frames behind the pages. */
  lemma SameFramesLocal(m: Mem, m': Mem, d: nat)
    requires UserOk(m, d) && UserOk(m', d) && m.Keys == m'.Keys
    requires forall n :: 0 <= n < ALL_PAGES ==>
      Look(m', d, n).p == Look(m, d, n).p && Look(m', d, n).ppn == Look(m, d, n).ppn
    requires forall f :: f in m ==> (m[f].Free? <==> m'[f].Free?)
    requires forall f :: Part(m', d, f) <==> Part(m, d, f)
    requires forall f :: f in m && !Owns(m, d, f) ==> m'[f] == m[f]
    ensures Local(m, m', d, {})
  {
    hide SpaceOk, UserOk, Look, Part;
    assert forall f :: Backs(m', d, f) <==> Backs(m, d, f);
    forall f | f in m && Owns(m, d, f)
      ensures !m[f].Free?
    {
      OwnedInUse(m, d, f);
    }
  }

  lemma ClearedLocal(m: Mem, m': Mem, d: nat, n: nat)
    requires UserOk(m, d) && UserOk(m', d) && n < USER_PAGES && Pde(m, d, n / NPTENTRIES).p
    requires TableAt(m, d, n / NPTENTRIES)
    requires m' == PutPte(m, Pde(m, d, n / NPTENTRIES).ppn, n % NPTENTRIES, Look(m, d, n).(u := false))
    ensures Local(m, m', d, {})
  {
    assert Part(m, d, Pde(m, d, n / NPTENTRIES).ppn);
    PutKeeps(m, d, n, Look(m, d, n).(u := false));
    SameFramesLocal(m, m', d);
  }

  lemma StoredLocal(m: Mem, m': Mem, d: nat, va: nat, p: seq<nat>)
    requires Stored(m, m', d, va, p)
    ensures Local(m, m', d, {})
  {
    forall f | f in m && Part(m, d, f)
      ensures m'[f] == m[f]
    {
      if Backs(m, d, f) {
        BackingIsNotPart(m, d, f);
      }
    }
    Elsewhere(m, m', d);
    SameFramesLocal(m, m', d);
  }

  // ---------------------------------------------------------------- spaces come and go

  lemma SpaceAdded(w: World, m': Mem, l': seq<nat>, d: nat, c: nat, k: nat, rows: seq<Kmap>)
    requires Ledger(w) && FreeOk(m', l') && CopyOf(w.m, m', d, c, k, rows)
    ensures Ledger(World(m', l', w.dirs + {c}, w.held, w.lost))
  {
    hide SpaceOk, UserOk, FreeOk, Part, Look, KernelPte;
    var m, dirs := w.m, w.dirs + {c};
    forall f | Owns(m', c, f)
      ensures f in m && m[f].Free?
    {
      if !Part(m', c, f) {
        var n :| 0 <= n < USER_PAGES && Look(m', c, n).p && Look(m', c, n).ppn == f;
      }
    }
    hide Owns, CopyOf, Backs;
    CopyInUse(m, m', d, c, k, rows);
    OldSpacesKept(w, m');
    Merge(w, m', l', c);
  }

  lemma SpaceSetUp(w: World, m': Mem, l': seq<nat>, c: nat, rows: seq<Kmap>)
    requires Ledger(w) && FreeOk(m', l') && KmapOk(rows) && Built(w.m, m', c)
    requires forall n :: 0 <= n < ALL_PAGES ==> Look(m', c, n) == KernelPte(rows, n)
    ensures Ledger(World(m', l', w.dirs + {c}, w.held, w.lost))
  {
    hide SpaceOk, UserOk, FreeOk, Part, Look, KernelPte, KmapOk;
    BuiltUserOk(m', c, rows);
    assert forall f :: !Backs(m', c, f);
    OldSpacesKept(w, m');
    Merge(w, m', l', c);
  }

  lemma CopyInUse(m0: Mem, m: Mem, d: nat, c: nat, k: nat, rows: seq<Kmap>)
    requires CopyOf(m0, m, d, c, k, rows)
    ensures UserOk(m, c) && m.Keys == m0.Keys && forall f :: f in m0 && !m0[f].Free? ==> m[f] == m0[f]
    ensures forall f :: f in m0 && m0[f].Free? && !m[f].Free? ==> Owns(m, c, f)
  {
  }

  /** When nothing in use changes, every address space stays. */
  lemma OldSpacesKept(w: World, m': Mem)
    requires Ledger(w) && m'.Keys == w.m.Keys && forall f :: f in w.m && !w.m[f].Free? ==> m'[f] == w.m[f]
    ensures SpacesOk(w.m, w.dirs) && SpacesOk(m', w.dirs)
    ensures forall e, f :: e in w.dirs ==> (Owns(m', e, f) <==> Owns(w.m, e, f))
  {
    hide SpaceOk, UserOk, Part, Backs;
    forall e | e in w.dirs
      ensures UserOk(m', e) && forall f :: Owns(m', e, f) <==> Owns(w.m, e, f)
    {
      forall f | f in w.m && Owns(w.m, e, f)
        ensures m'[f] == w.m[f]
      {
        OwnedInUse(w.m, e, f);
      }
      SpaceUnchanged(w.m, m', e);
    }
  }

  lemma Merge(w: World, m': Mem, l': seq<nat>, c: nat)
    requires Ledger(w) && FreeOk(m', l') && UserOk(m', c) && m'.Keys == w.m.Keys
    requires SpacesOk(w.m, w.dirs) && SpacesOk(m', w.dirs)
    requires forall f :: f in w.m && !w.m[f].Free? ==> m'[f] == w.m[f]
    requires forall e, f :: e in w.dirs ==> (Owns(m', e, f) <==> Owns(w.m, e, f))
    requires forall f :: Owns(m', c, f) ==> f in w.m && w.m[f].Free?
    requires forall f :: f in w.m && w.m[f].Free? && !m'[f].Free? ==> Owns(m', c, f)
    ensures Ledger(World(m', l', w.dirs + {c}, w.held, w.lost))
  {
    hide SpaceOk, UserOk, Owns, FreeOk;
    var dirs := w.dirs + {c};
    forall e, f | e in w.dirs && Owns(w.m, e, f)
      ensures f in w.m && !w.m[f].Free?
    {
      OwnedInUse(w.m, e, f);
    }
    forall f | f in m'
      ensures Accounted(m', dirs, w.held + w.lost, f)
    {
      assert Accounted(w.m, w.dirs, w.held + w.lost, f);
      if !m'[f].Free? && f !in w.held + w.lost {
        if w.m[f].Free? {
          assert c in dirs && Owns(m', c, f);
        } else {
          var e :| e in w.dirs && Owns(w.m, e, f);
          assert e in dirs && Owns(m', e, f);
        }
      }
    }
    forall f | f in w.held + w.lost
      ensures Orphan(m', dirs, f)
    {
      assert Orphan(w.m, w.dirs, f);
    }
  }

  /** freevm: the space goes, its frames are free. */
  lemma SpaceRemoved(w: World, m': Mem, l': seq<nat>, d: nat)
    requires Ledger(w) && FreeOk(m', l') && d in w.dirs && m'.Keys == w.m.Keys
    requires forall f :: f in w.m ==> m'[f] == if Owns(w.m, d, f) then Free else w.m[f]
    ensures Ledger(World(m', l', w.dirs - {d}, w.held, w.lost))
  {
    hide SpaceOk, UserOk, Owns, FreeOk;
    var dirs := w.dirs - {d};
    forall e | e in dirs
      ensures UserOk(m', e) && forall f :: Owns(m', e, f) <==> Owns(w.m, e, f)
    {
      assert forall f :: f in w.m && Owns(w.m, e, f) ==> !Owns(w.m, d, f);
      SpaceUnchanged(w.m, m', e);
    }
    forall f | f in m'
      ensures Accounted(m', dirs, w.held + w.lost, f)
    {
      assert Accounted(w.m, w.dirs, w.held + w.lost, f);
      if !m'[f].Free? && f !in w.held + w.lost {
        var e :| e in w.dirs && Owns(w.m, e, f);
        assert e in dirs && Owns(m', e, f);
      }
    }
    forall f | f in w.held + w.lost
      ensures Orphan(m', dirs, f)
    {
      assert Orphan(w.m, w.dirs, f);
    }
  }

  /** Frames taken and never given to anybody are lost. */
  lemma FramesLost(w: World, m': Mem, l': seq<nat>, lost: set<nat>)
    requires Ledger(w) && FreeOk(m', l') && m'.Keys == w.m.Keys
    requires forall f :: f in w.m && !w.m[f].Free? ==> m'[f] == w.m[f]
    requires forall f :: f in lost <==> f in w.m && w.m[f].Free? && !m'[f].Free?
    ensures Ledger(World(m', l', w.dirs, w.held, w.lost + lost))
  {
    hide SpaceOk, UserOk, Owns, FreeOk;
    OldSpacesKept(w, m');
    forall f | f in m'
      ensures Accounted(m', w.dirs, w.held + (w.lost + lost), f)
    {
      assert Accounted(w.m, w.dirs, w.held + w.lost, f);
      if !m'[f].Free? && f !in w.held + (w.lost + lost) {
        var e :| e in w.dirs && Owns(w.m, e, f);
        assert Owns(m', e, f);
      }
    }
    forall f | f in w.held + (w.lost + lost)
      ensures Orphan(m', w.dirs, f)
    {
      if f in w.held + w.lost {
        assert Orphan(w.m, w.dirs, f);
      }
      forall e | e in w.dirs
        ensures !Owns(m', e, f)
      {
        if Owns(w.m, e, f) {
          OwnedInUse(w.m, e, f);
        }
      }
    }
  }

  // ---------------------------------------------------------------- pages for the kernel itself

  /** The address spaces stay; the kernel's own pages become `held`. */
  lemma HeldChanged(w: World, m': Mem, l': seq<nat>, held: set<nat>)
    requires Ledger(w) && FreeOk(m', l') && m'.Keys == w.m.Keys && held !! w.lost
    requires SpacesOk(w.m, w.dirs) && SpacesOk(m', w.dirs)
    requires forall e, g :: e in w.dirs ==> (Owns(m', e, g) <==> Owns(w.m, e, g))
    requires forall g :: g in m' && !m'[g].Free? && g !in held + w.lost ==> !w.m[g].Free? && g !in w.held + w.lost
    requires forall g :: g in held + w.lost ==> g in m' && !m'[g].Free? && (w.m[g].Free? || g in w.held + w.lost)
    ensures Ledger(World(m', l', w.dirs, held, w.lost))
  {
    hide SpaceOk, UserOk, Owns, FreeOk;
    forall g | g in m'
      ensures Accounted(m', w.dirs, held + w.lost, g)
    {
      assert Accounted(w.m, w.dirs, w.held + w.lost, g);
      if !m'[g].Free? && g !in held + w.lost {
        var e :| e in w.dirs && Owns(w.m, e, g);
        assert Owns(m', e, g);
      }
    }
    forall g | g in held + w.lost
      ensures Orphan(m', w.dirs, g)
    {
      assert g in w.held + w.lost ==> Orphan(w.m, w.dirs, g);
      forall e | e in w.dirs
        ensures !Owns(m', e, g)
      {
        if Owns(w.m, e, g) {
          OwnedInUse(w.m, e, g);
        }
      }
    }
  }

  lemma ApartInUse(w: World, f: nat)
    requires Ledger(w)
    ensures f in w.held || f in w.lost ==> f in w.m && !w.m[f].Free?
  {
    assert f in w.held + w.lost ==> Orphan(w.m, w.dirs, f);
  }

  /** kalloc outside vm.c: kernel stacks and pipes. */
  lemma PageTaken(w: World, page: Frame)
    requires Ledger(w) && w.l != [] && page.Data?
    ensures var f := w.l[0]; f in w.m && Ledger(World(w.m[f := page], w.l[1..], w.dirs, w.held + {f}, w.lost))
  {
    hide SpaceOk, UserOk, Owns;
    var f := w.l[0];
    var m' := w.m[f := page];
    Popped(w.m, w.l, page);
    OldSpacesKept(w, m');
    hide FreeOk;
    forall g
      ensures g in w.held || g in w.lost ==> g in w.m && !w.m[g].Free?
    {
      ApartInUse(w, g);
    }
    HeldChanged(w, m', w.l[1..], w.held + {f});
  }

  /** A held page: its contents change, or it is given back. */
  lemma HeldKept(w: World, x: Frame, f: nat)
    requires Ledger(w) && f in w.held && (x.Data? || x.Free?)
    ensures f in w.m && !w.m[f].Free?
    ensures SpacesOk(w.m, w.dirs) && SpacesOk(w.m[f := x], w.dirs)
    ensures forall e, g :: e in w.dirs ==> (Owns(w.m[f := x], e, g) <==> Owns(w.m, e, g))
  {
    hide SpaceOk, UserOk, Owns, FreeOk;
    assert f in w.held + w.lost && Orphan(w.m, w.dirs, f);
    var m' := w.m[f := x];
    forall e | e in w.dirs
      ensures UserOk(m', e) && forall g :: Owns(m', e, g) <==> Owns(w.m, e, g)
    {
      SpaceUnchanged(w.m, m', e);
    }
  }

  lemma PageUsed(w: World, page: Frame, f: nat)
    requires Ledger(w) && f in w.held && page.Data?
    ensures f in w.m && Ledger(World(w.m[f := page], w.l, w.dirs, w.held, w.lost))
  {
    hide SpaceOk, UserOk, Owns;
    HeldKept(w, page, f);
    var m' := w.m[f := page];
    SameFree(w.m, m', w.l);
    hide FreeOk;
    forall g
      ensures g in w.held || g in w.lost ==> g in w.m && !w.m[g].Free?
    {
      ApartInUse(w, g);
    }
    HeldChanged(w, m', w.l, w.held);
  }

  lemma PageGiven(w: World, f: nat)
    requires Ledger(w) && f in w.held
    ensures f in w.m && Ledger(World(w.m[f := Free], [f] + w.l, w.dirs, w.held - {f}, w.lost))
  {
    hide SpaceOk, UserOk, Owns;
    HeldKept(w, Free, f);
    var m' := w.m[f := Free];
    Pushed(w.m, w.l, f);
    hide FreeOk;
    forall g
      ensures g in w.held || g in w.lost ==> g in w.m && !w.m[g].Free?
    {
      ApartInUse(w, g);
    }
    HeldChanged(w, m', [f] + w.l, w.held - {f});
  }

  // ---------------------------------------------------------------- every run

  /** One call: which procedure, on which address space, and what it answered. */
  datatype Call =
    | Alloc(d: nat, oldsz: nat, newsz: nat, sz: nat, k: nat, lost: nat)
    | Dealloc(d: nat, oldsz: nat, newsz: nat)
    | Copy(d: nat, size: nat, c: nat, lost: nat)
    | Setup(c: nat)
    | FreeSpace(d: nat)
    | Clear(d: nat, n: nat)
    | CopyTo(d: nat, va: nat, p: seq<nat>)
    | Take(f: nat)
    | Use(f: nat)
    | Give(f: nat)

  function AsSet(l: seq<nat>): set<nat> { set f | f in l }

  /** What the call promises about memory before and after it. */
  ghost predicate Does(w: World, rows: seq<Kmap>, a: Call, w': World)
    requires Ledger(w)
  {
    && FreeOk(w'.m, w'.l)
    && match a
       case Alloc(d, oldsz, newsz, sz, k, lost) =>
         && d in w.dirs && UserOk(w'.m, d) && oldsz <= newsz < KERNBASE
         && (forall n :: Up(oldsz) <= n < Up(newsz) && n < USER_PAGES ==> !Look(w.m, d, n).p)
         && AllocOutcome(w.m, w.l, w'.m, w'.l, d, Up(oldsz), Up(newsz), newsz, sz, k, lost)
         && w' == World(w'.m, w'.l, w.dirs, w.held, w.lost + LostSet(lost))
       case Dealloc(d, oldsz, newsz) =>
         && d in w.dirs && UserOk(w'.m, d) && newsz < oldsz <= KERNBASE
         && Released(w.m, w'.m, d, Visited(w.m, d, Up(newsz), Up(oldsz)))
         && w' == World(w'.m, w'.l, w.dirs, w.held, w.lost)
       case Copy(d, size, c, lost) =>
         && size <= KERNBASE && InUseSame(w.m, w'.m)
         && CopyOutcome(w.m, w.l, w'.m, w'.l, d, Up(size), rows, c, lost)
         && w' == World(w'.m, w'.l, if c == 0 then w.dirs else w.dirs + {c}, w.held,
                        w.lost + if |w.l| < KernelNeed(rows) then AsSet(w.l) else LostSet(lost))
       case Setup(c) =>
         && KmapOk(rows) && InUseSame(w.m, w'.m)
         && (c == 0 ==> w'.l == [] && w' == World(w'.m, [], w.dirs, w.held, w.lost + AsSet(w.l)))
         && (c != 0 ==>
               && Built(w.m, w'.m, c)
               && (forall n :: 0 <= n < ALL_PAGES ==> Look(w'.m, c, n) == KernelPte(rows, n))
               && w' == World(w'.m, w'.l, w.dirs + {c}, w.held, w.lost))
       case FreeSpace(d) =>
         && d in w.dirs && w'.m.Keys == w.m.Keys
         && (forall f :: f in w.m ==> w'.m[f] == if Part(w.m, d, f) || Backs(w.m, d, f) then Free else w.m[f])
         && w' == World(w'.m, w'.l, w.dirs - {d}, w.held, w.lost)
       case Clear(d, n) =>
         && d in w.dirs && UserOk(w'.m, d) && n < USER_PAGES && Pde(w.m, d, n / NPTENTRIES).p
         && TableAt(w.m, d, n / NPTENTRIES)
         && w'.m == PutPte(w.m, Pde(w.m, d, n / NPTENTRIES).ppn, n % NPTENTRIES, Look(w.m, d, n).(u := false))
         && w' == World(w'.m, w'.l, w.dirs, w.held, w.lost)
       case CopyTo(d, va, p) =>
         d in w.dirs && Stored(w.m, w'.m, d, va, p) && w' == World(w'.m, w'.l, w.dirs, w.held, w.lost)
       case Take(f) =>
         if w.l == [] then w' == w
         else f == w.l[0] && IsData(w'.m, f) && w' == World(w.m[f := w'.m[f]], w.l[1..], w.dirs, w.held + {f}, w.lost)
       case Use(f) => f in w.held && IsData(w'.m, f) && w' == World(w.m[f := w'.m[f]], w.l, w.dirs, w.held, w.lost)
       case Give(f) => f in w.held && w' == World(w.m[f := Free], [f] + w.l, w.dirs, w.held - {f}, w.lost)
  }

  lemma AllocLocal(w: World, rows: seq<Kmap>, a: Call, w': World)
    requires Ledger(w) && Does(w, rows, a, w') && a.Alloc?
    ensures Local(w.m, w'.m, a.d, LostSet(a.lost))
  {
    hide SpaceOk, Grown, Undone, Stranded, Local, Look, Need, OpensTable, Disjoint, Accounted, Orphan;
    var lo, b := Up(a.oldsz), Up(a.newsz);
    if a.k == b {
      ZerosAreGood(b - lo);
      GrownLocal(w.m, w.l, w'.m, w'.l, a.d, lo, Zeros(b - lo));
    } else if |w.l| > Need(w.m, a.d, lo, a.k) && a.k + 1 == b {
      StrandedLocal(w.m, w'.m, a.d, lo, a.k, a.lost);
    } else {
      UndoneLocal(w.m, w'.m, a.d, a.lost);
    }
  }

  /** The whole list is gone when none of it is left. */
  lemma ListLost(w: World, m': Mem)
    requires Ledger(w) && FreeOk(m', []) && InUseSame(w.m, m')
    ensures Ledger(World(m', [], w.dirs, w.held, w.lost + AsSet(w.l)))
  {
    hide Ledger;
    LedgerSpaces(w);
    FramesLost(w, m', [], AsSet(w.l));
  }

  lemma CopyKeepsLedger(w: World, rows: seq<Kmap>, a: Call, w': World)
    requires Ledger(w) && Does(w, rows, a, w') && a.Copy?
    ensures Ledger(w')
  {
    hide SpaceOk, UserOk, Ledger, CopyOf, Visited, KernelNeed, UserNeed;
    LedgerSpaces(w);
    if a.c != 0 {
      SpaceAdded(w, w'.m, w'.l, a.d, a.c, Up(a.size), rows);
      assert w.lost + {} == w.lost;
    } else if |w.l| < KernelNeed(rows) {
      ListLost(w, w'.m);
    } else {
      FramesLost(w, w'.m, w'.l, LostSet(a.lost));
    }
  }

  lemma CallKeeps(w: World, rows: seq<Kmap>, a: Call, w': World)
    requires Ledger(w) && Does(w, rows, a, w')
    ensures Ledger(w') && w.lost <= w'.lost
  {
    hide SpaceOk, UserOk, Local, Ledger, CopyOutcome, Built, Released, Stored, AllocOutcome, FreeOk, Visited;
    LedgerSpaces(w);
    match a
    case Alloc(d, _, _, _, _, lost) =>
      AllocLocal(w, rows, a, w');
      LocalKeeps(w, w'.m, w'.l, d, LostSet(lost));
    case Dealloc(d, oldsz, newsz) =>
      ReleasedLocal(w.m, w'.m, d, Visited(w.m, d, Up(newsz), Up(oldsz)));
      LocalKeeps(w, w'.m, w'.l, d, {});
      assert w.lost + {} == w.lost;
    case Copy(_, _, _, _) => CopyKeepsLedger(w, rows, a, w');
    case Setup(c) =>
      if c == 0 {
        ListLost(w, w'.m);
      } else {
        SpaceSetUp(w, w'.m, w'.l, c, rows);
      }
    case FreeSpace(d) => SpaceRemoved(w, w'.m, w'.l, d);
    case Clear(d, n) =>
      ClearedLocal(w.m, w'.m, d, n);
      LocalKeeps(w, w'.m, w'.l, d, {});
      assert w.lost + {} == w.lost;
    case CopyTo(d, va, p) =>
      StoredLocal(w.m, w'.m, d, va, p);
      LocalKeeps(w, w'.m, w'.l, d, {});
      assert w.lost + {} == w.lost;
    case Take(f) =>
      if w.l != [] {
        PageTaken(w, w'.m[f]);
      }
    case Use(f) => PageUsed(w, w'.m[f], f);
    case Give(f) => PageGiven(w, f);
  }

  lemma LedgerSpaces(w: World)
    requires Ledger(w)
    ensures FreeOk(w.m, w.l) && SpacesOk(w.m, w.dirs) && 0 !in w.m && forall d :: d in w.dirs ==> UserOk(w.m, d)
    ensures forall f :: f in w.m ==> (f in AsSet(w.l) <==> w.m[f].Free?)
    ensures forall f :: f in AsSet(w.l) ==> f in w.m
  {
  }

  /** Call i, made in a state where the ledger holds, does what it promises. */
  ghost predicate Called(ws: seq<World>, rows: seq<Kmap>, calls: seq<Call>, i: nat)
    requires i < |calls| && |ws| == |calls| + 1
  {
    Ledger(ws[i]) ==> Does(ws[i], rows, calls[i], ws[i + 1])
  }

  ghost predicate Run(ws: seq<World>, rows: seq<Kmap>, calls: seq<Call>)
  {
    |ws| == |calls| + 1 && forall i :: 0 <= i < |calls| ==> Called(ws, rows, calls, i)
  }

  lemma {:induction false} RunKeeps(ws: seq<World>, rows: seq<Kmap>, calls: seq<Call>, k: nat)
    requires Run(ws, rows, calls) && k <= |calls| && Ledger(ws[0])
    ensures Ledger(ws[k]) && ws[0].lost <= ws[k].lost
    decreases k
  {
    hide Ledger, Does;
    if k > 0 {
      RunKeeps(ws, rows, calls, k - 1);
      assert Called(ws, rows, calls, k - 1);
      CallKeeps(ws[k - 1], rows, calls[k - 1], ws[k]);
    }
  }

  /** Boot: every page is free. */
  ghost predicate Boot(w: World)
  {
    FreeOk(w.m, w.l) && (forall f :: f in w.m ==> w.m[f].Free?) && w.dirs == {} == w.held && w.lost == {}
  }

  /** From boot through any calls: a page is free and on the free list exactly once, or held by the kernel, or
      lost, or in exactly one address space; these exclude each other. */
  lemma PagesAreConserved(ws: seq<World>, rows: seq<Kmap>, calls: seq<Call>, f: nat)
    requires Run(ws, rows, calls) && f in ws[|calls|].m && Boot(ws[0])
    ensures var w := ws[|calls|];
      && FreeOk(w.m, w.l) && SpacesOk(w.m, w.dirs) && w.held !! w.lost
      && (w.m[f].Free? <==> f in w.l)
      && (f in w.l || f in w.held || f in w.lost || exists d :: d in w.dirs && Owns(w.m, d, f))
      && (f in w.held || f in w.lost ==> f !in w.l)
      && (forall d, e :: d in w.dirs && e in w.dirs && Owns(w.m, d, f) && Owns(w.m, e, f) ==> d == e)
      && (forall d :: d in w.dirs && Owns(w.m, d, f) ==> f !in w.l && f !in w.held && f !in w.lost)
  {
    hide SpaceOk, UserOk, Owns;
    RunKeeps(ws, rows, calls, |calls|);
    var w := ws[|calls|];
    assert Accounted(w.m, w.dirs, w.held + w.lost, f);
    assert f in w.held + w.lost ==> Orphan(w.m, w.dirs, f);
    forall d | d in w.dirs && Owns(w.m, d, f)
      ensures !w.m[f].Free?
    {
      OwnedInUse(w.m, d, f);
    }
  }
}
