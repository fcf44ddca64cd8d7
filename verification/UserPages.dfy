/** Growing the user part page by page: what allocuvm and copyuvm have built so far. */
module UserPages {
  import opened PageTable
  import opened AddressSpace
  import opened SpaceGrowth

  /** What a new page should be: its entry, except for the frame, and its contents. */
  datatype Want = Want(x: Pte, page: Frame)

  predicate GoodWant(w: Want) { w.x.p && w.page.Data? && |w.page.b| == PGSIZE }

  predicate Cell(m: Mem, d: nat, n: nat, w: Want)
    requires SpaceOk(m, d) && n < ALL_PAGES
  {
    var x := Look(m, d, n);
    x == w.x.(ppn := x.ppn) && x.ppn in m && m[x.ppn] == w.page
  }

  /** Page n, of those from a on, is as wanted, on one of these frames. */
  predicate CellAt(m: Mem, d: nat, a: nat, want: seq<Want>, used: seq<nat>, n: nat)
    requires SpaceOk(m, d) && a <= n < a + |want| <= ALL_PAGES
  {
    Cell(m, d, n, want[n - a]) && Look(m, d, n).ppn in used
  }

  /** f backs one of the pages a..k. */
  predicate BacksIn(m: Mem, d: nat, a: nat, k: nat, f: nat)
    requires SpaceOk(m, d) && k <= ALL_PAGES
  {
    exists n :: a <= n < k && Look(m, d, n).p && Look(m, d, n).ppn == f
  }

  /** Frames taken for the pages a..k: one each, and the tables they open. */
  function Need(m: Mem, d: nat, a: nat, k: nat): (c: nat)
    requires IsTable(m, d) && a <= k <= ALL_PAGES
  {
    k - a + NewTables(m, d, a, k)
  }

  /** The pages from a on are as wanted; all frames taken from the list l are their frames or tables of d. */
  ghost predicate Grown(m: Mem, l: seq<nat>, m': Mem, l': seq<nat>, d: nat, a: nat, want: seq<Want>)
    ensures Grown(m, l, m', l', d, a, want) ==> SpaceOk(m, d) && SpaceOk(m', d) && UserOk(m', d)
  {
    && UserOk(m, d) && UserOk(m', d)
    && var k := a + |want|;
    && k <= USER_PAGES && Need(m, d, a, k) <= |l|
    && var used := l[..Need(m, d, a, k)];
    && l' == l[Need(m, d, a, k)..] && Extends(m, m', d, used) && Opened(m, m', d, a, k)
    && (forall n :: 0 <= n < ALL_PAGES && !(a <= n < k) ==> Look(m', d, n) == Look(m, d, n))
    && (forall n :: a <= n < k ==> CellAt(m', d, a, want, used, n))
    && (forall f :: f in used ==> Part(m', d, f) || BacksIn(m', d, a, k, f))
  }

  lemma GrownNone(m: Mem, l: seq<nat>, d: nat, a: nat)
    requires UserOk(m, d) && a <= USER_PAGES
    ensures Grown(m, l, m, l, d, a, [])
  {
    assert l[..0] == [] && l[0..] == l;
  }

  // ---------------------------------------------------------------- one more page

  /** kalloc and the copy into the page, before it is mapped. */
  lemma FillFrame(m: Mem, l: seq<nat>, d: nat, page: Frame)
    requires UserOk(m, d) && FreeOk(m, l) && l != [] && page.Data?
    ensures var m1 := m[l[0] := page];
      && l[0] in m && m[l[0]].Free? && Extends(m, m1, d, [l[0]]) && UserOk(m1, d) && FreeOk(m1, l[1..])
      && (forall n :: 0 <= n < ALL_PAGES ==> Look(m1, d, n) == Look(m, d, n))
      && (forall i :: 0 <= i < NPTENTRIES ==> Pde(m1, d, i) == Pde(m, d, i))
      && (forall g :: Part(m1, d, g) <==> Part(m, d, g))
  {
    var f := l[0];
    var m1 := m[f := page];
    DataIsNotPart(m, d, f);
    Elsewhere(m, m1, d);
    Popped(m, l, page);
    forall n | 0 <= n < USER_PAGES
      ensures PageAt(m1, d, n)
    {
      assert PageAt(m, d, n);
    }
  }

  /** Mapping frames that exist does not touch data pages. */
  lemma DataSurvives(m: Mem, m': Mem, d: nat, used: seq<nat>, g: nat)
    requires Extends(m, m', d, used) && g in m && m[g].Data?
    ensures g in m' && m'[g] == m[g]
  {
    DataIsNotPart(m, d, g);
  }

  /** The new page keeps every user page on a frame of its own. */
  lemma AddUserOk(m1: Mem, m2: Mem, d: nat, used: seq<nat>, k: nat, x: Pte)
    requires UserOk(m1, d) && Extends(m1, m2, d, used) && k < USER_PAGES && IsData(m1, x.ppn) && !Backs(m1, d, x.ppn)
    requires forall n :: 0 <= n < ALL_PAGES ==> Look(m2, d, n) == if n == k then x else Look(m1, d, n)
    ensures UserOk(m2, d)
  {
    DataSurvives(m1, m2, d, used, x.ppn);
    forall n | 0 <= n < USER_PAGES
      ensures PageAt(m2, d, n)
    {
      assert PageAt(m1, d, n);
      if n != k && Look(m1, d, n).p {
        DataSurvives(m1, m2, d, used, Look(m1, d, n).ppn);
      }
    }
  }

  /** Page k mapped to the frame f that was free in m1 and has been filled. */
  lemma CellsKept(m1: Mem, mz: Mem, m2: Mem, d: nat, f: nat, used: seq<nat>, n: nat, w: Want)
    requires UserOk(m1, d) && f in m1 && m1[f].Free? && SpaceOk(mz, d) && Extends(m1, mz, d, [f])
    requires Extends(mz, m2, d, used)
    requires n < USER_PAGES && GoodWant(w) && Cell(m1, d, n, w) && Look(m2, d, n) == Look(m1, d, n)
    ensures Cell(m2, d, n, w)
  {
    assert PageAt(m1, d, n);
    DataSurvives(m1, mz, d, [f], Look(m1, d, n).ppn);
    DataSurvives(mz, m2, d, used, Look(m1, d, n).ppn);
  }

  lemma FreeBacksNothing(m: Mem, d: nat, f: nat)
    requires UserOk(m, d) && f in m && m[f].Free?
    ensures !Backs(m, d, f)
  {
    if Backs(m, d, f) {
      BackingIsNotPart(m, d, f);
    }
  }

  /** The list after one more page, and the table it opens. */
  lemma NeedNext(m: Mem, m1: Mem, mz: Mem, d: nat, a: nat, k: nat, l: seq<nat>, l1: seq<nat>)
    requires IsTable(m, d) && IsTable(m1, d) && IsTable(mz, d) && Opened(m, m1, d, a, k) && a <= k < ALL_PAGES
    requires forall i :: 0 <= i < NPTENTRIES ==> Pde(mz, d, i) == Pde(m1, d, i)
    requires Need(m, d, a, k) <= |l| && l1 == l[Need(m, d, a, k)..] && l1 != []
    ensures var c := NewTables(mz, d, k, k + 1);
      && Need(m, d, a, k + 1) == Need(m, d, a, k) + 1 + c
      && (c <= |l1| - 1 ==>
           && l[..Need(m, d, a, k)] + [l1[0]] + l1[1..][..c] == l[..Need(m, d, a, k + 1)]
           && l1[1..][c..] == l[Need(m, d, a, k + 1)..])
  {
    OpensIff(m, m1, d, a, k);
    var c := NewTables(mz, d, k, k + 1);
    assert NewTables(mz, d, k, k) == 0;
    assert OpensTable(mz, d, k, k) <==> OpensTable(m, d, a, k);
  }

  /** allocuvm and copyuvm, one page on. */
  lemma GrowStep(m: Mem, l: seq<nat>, m1: Mem, l1: seq<nat>, d: nat, a: nat, want: seq<Want>, w: Want, m2: Mem,
                 l2: seq<nat>)
    requires Grown(m, l, m1, l1, d, a, want) && FreeOk(m1, l1) && l1 != [] && GoodWant(w) && a + |want| < USER_PAGES
    requires forall i :: 0 <= i < |want| ==> GoodWant(want[i])
    requires MappedTo(m1[l1[0] := w.page], l1[1..], m2, l2, d, a + |want|, a + |want| + 1, w.x.(ppn := l1[0]))
    ensures Grown(m, l, m2, l2, d, a, want + [w])
  {
    hide SpaceOk, UserOk, Opened, Extends, FreeOk, Look, Part, Cell, NewTables, Need, Pde;
    var k, f, want' := a + |want|, l1[0], want + [w];
    assert |want'| == |want| + 1;
    var mz := m1[f := w.page];
    FillFrame(m1, l1, d, w.page);
    FreeBacksNothing(m1, d, f);
    NeedNext(m, m1, mz, d, a, k, l, l1);
    var c := NewTables(mz, d, k, k + 1);
    var used, tables := l[..Need(m, d, a, k)], l1[1..][..c];
    ExtendsTwice(m, m1, mz, d, used, [f]);
    ExtendsTwice(m, mz, m2, d, used + [f], tables);
    OpenedOne(mz, m2, d, k);
    OpenedNext(m, m1, m2, d, a, k);
    assert !Backs(mz, d, f);
    AddUserOk(mz, m2, d, tables, k, w.x.(ppn := f));
    DataSurvives(mz, m2, d, tables, f);
    forall n | a <= n < k + 1
      ensures CellAt(m2, d, a, want', used + [f] + tables, n)
    {
      if n < k {
        assert CellAt(m1, d, a, want, used, n);
        CellsKept(m1, mz, m2, d, f, tables, n, want[n - a]);
      } else {
        CellNew(m2, d, k, w);
      }
    }
    forall g | g in used + [f] + tables
      ensures Part(m2, d, g) || BacksIn(m2, d, a, k + 1, g)
    {
      if g in used && !Part(m2, d, g) {
        assert BacksIn(m1, d, a, k, g);
        var n :| a <= n < k && Look(m1, d, n).p && Look(m1, d, n).ppn == g;
        assert Look(m2, d, n) == Look(m1, d, n);
      } else if g == f {
        assert Look(m2, d, k).ppn == f && Look(m2, d, k).p;
      }
    }
    forall n | 0 <= n < ALL_PAGES && !(a <= n < k + 1)
      ensures Look(m2, d, n) == Look(m, d, n)
    {
      assert Look(m1, d, n) == Look(m, d, n);
    }
    MakeGrown(m, l, m2, l2, d, a, want', k + 1, used + [f] + tables);
  }

  lemma MakeGrown(m: Mem, l: seq<nat>, m': Mem, l': seq<nat>, d: nat, a: nat, want: seq<Want>, k: nat, used: seq<nat>)
    requires UserOk(m, d) && UserOk(m', d) && k == a + |want| <= USER_PAGES && Need(m, d, a, k) <= |l|
    requires used == l[..Need(m, d, a, k)] && l' == l[Need(m, d, a, k)..] && Extends(m, m', d, used)
    requires Opened(m, m', d, a, k)
    requires forall n :: 0 <= n < ALL_PAGES && !(a <= n < k) ==> Look(m', d, n) == Look(m, d, n)
    requires forall n :: a <= n < k ==> CellAt(m', d, a, want, used, n)
    requires forall f :: f in used ==> Part(m', d, f) || BacksIn(m', d, a, k, f)
    ensures Grown(m, l, m', l', d, a, want)
  {
    hide SpaceOk, UserOk, Opened, Extends, Look, Part, Cell, NewTables, Need, Pde, BacksIn;
  }

  lemma OpenedOne(m: Mem, m': Mem, d: nat, k: nat)
    requires IsTable(m, d) && IsTable(m', d) && Opened(m, m', d, k, k + 1) && k < ALL_PAGES
    ensures forall i :: 0 <= i < NPTENTRIES ==> (Pde(m', d, i).p <==> Pde(m, d, i).p || i == k / NPTENTRIES)
  {
  }

  lemma CellNew(m: Mem, d: nat, k: nat, w: Want)
    requires SpaceOk(m, d) && k < ALL_PAGES && Look(m, d, k) == w.x.(ppn := Look(m, d, k).ppn)
    requires Look(m, d, k).ppn in m && m[Look(m, d, k).ppn] == w.page
    ensures Cell(m, d, k, w)
  {
  }

  // ---------------------------------------------------------------- running out of memory

  /** A frame was taken for a page, but there was none left for its table: m1 became m3 and `lost` is in no table. */
  ghost predicate Stalled(m1: Mem, m3: Mem, d: nat, lost: nat)
    ensures Stalled(m1, m3, d, lost) ==> SpaceOk(m1, d) && UserOk(m3, d)
  {
    && Extends(m1, m3, d, [lost]) && UserOk(m1, d) && UserOk(m3, d) && IsData(m3, lost)
    && (forall n :: 0 <= n < ALL_PAGES ==> Look(m3, d, n) == Look(m1, d, n))
  }

  lemma StallStep(m1: Mem, l1: seq<nat>, d: nat, k: nat, w: Want, m3: Mem, l3: seq<nat>)
    requires UserOk(m1, d) && FreeOk(m1, l1) && |l1| == 1 && GoodWant(w) && k < USER_PAGES
    requires MappedTo(m1[l1[0] := w.page], [], m3, l3, d, k, k, w.x.(ppn := l1[0]))
    ensures Stalled(m1, m3, d, l1[0])
  {
    hide SpaceOk, Opened, Extends, FreeOk, Look, Part, Cell, Pde;
    var f := l1[0];
    var mz := m1[f := w.page];
    FillFrame(m1, l1, d, w.page);
    var none: seq<nat> := [];
    assert none[..0] == none;
    ExtendsTwice(m1, mz, m3, d, [f], none);
    assert [f] + none == [f];
    DataSurvives(mz, m3, d, none, f);
    forall n | 0 <= n < USER_PAGES
      ensures PageAt(m3, d, n)
    {
      assert PageAt(mz, d, n);
      if Look(mz, d, n).p {
        DataSurvives(mz, m3, d, none, Look(mz, d, n).ppn);
      }
    }
  }

  /** allocuvm gave up: the pages are as they were, and every frame is free again except tables that
      stay in the directory and the frame `lost` (0 for none), which nothing refers to any more. */
  ghost predicate Undone(m: Mem, m': Mem, d: nat, lost: nat)
    ensures Undone(m, m', d, lost) ==> SpaceOk(m, d) && SpaceOk(m', d)
  {
    && SpaceOk(m, d) && SpaceOk(m', d) && m.Keys == m'.Keys
    && (forall n :: 0 <= n < ALL_PAGES ==> Look(m', d, n) == Look(m, d, n) || (!Look(m', d, n).p && !Look(m, d, n).p))
    && (forall n :: USER_PAGES <= n < ALL_PAGES ==> Look(m', d, n) == Look(m, d, n))
    && (forall f :: f in m && !Part(m, d, f) && !m[f].Free? ==> m'[f] == m[f])
    && (forall f :: f in m && m[f].Free? && !m'[f].Free? ==> Part(m', d, f) || f == lost)
    && (forall f :: Part(m, d, f) ==> Part(m', d, f))
    && (forall f :: Part(m', d, f) ==> Part(m, d, f) || (f in m && m[f].Free?))
    && (lost != 0 ==> lost in m && m[lost].Free? && m'[lost].Data? && !Part(m', d, lost) && !Backs(m', d, lost))
  }

  lemma {:induction false} VisitedInRange(m: Mem, d: nat, a: nat, b: nat)
    requires IsTable(m, d) && b <= ALL_PAGES
    ensures forall n :: n in Visited(m, d, a, b) ==> a <= n < b
    decreases b - a
  {
    if a < b {
      if Pde(m, d, a / NPTENTRIES).p {
        VisitedInRange(m, d, a + 1, b);
      } else {
        VisitedInRange(m, d, a + NPTENTRIES, b);
      }
    }
  }

  /** What deallocuvm sees when it is called to clean up: exactly the pages below k, all of which it reaches. */
  lemma CleanupReaches(m: Mem, m3: Mem, d: nat, a: nat, k: nat, b: nat)
    requires SpaceOk(m, d) && SpaceOk(m3, d) && a <= k <= b <= ALL_PAGES
    requires forall n :: a <= n < b ==> !Look(m, d, n).p
    requires forall n :: 0 <= n < ALL_PAGES && !(a <= n < k) ==> Look(m3, d, n) == Look(m, d, n)
    requires forall n :: a <= n < k ==> Look(m3, d, n).p
    ensures forall n :: n in Visited(m3, d, a, b) ==> a <= n < b
    ensures forall n :: a <= n < k ==> n in Visited(m3, d, a, b)
  {
    hide Look, Visited;
    VisitedInRange(m3, d, a, b);
    AlignedOrPrefix(m3, d, a, b, k);
  }

  lemma UndoFrame(m: Mem, m3: Mem, m2: Mem, d: nat, used: seq<nat>, a: nat, k: nat, gone: set<nat>, lost: nat, f: nat)
    requires Extends(m, m3, d, used) && Released(m3, m2, d, gone) && UserOk(m3, d) && a <= k <= USER_PAGES && f in m
    requires forall n :: a <= n < k ==> n in gone && Look(m3, d, n).p && Look(m3, d, n).ppn in used
    requires forall n :: n in gone && !(a <= n < k) && n < ALL_PAGES ==> !Look(m3, d, n).p
    requires forall g :: g in used ==> Part(m3, d, g) || BacksIn(m3, d, a, k, g) || g == lost
    ensures !Part(m, d, f) && !m[f].Free? ==> m2[f] == m[f]
    ensures m[f].Free? && !m2[f].Free? ==> Part(m2, d, f) || f == lost
  {
    hide SpaceOk, UserOk, Look, Pde;
    if !Part(m, d, f) && !m[f].Free? {
      assert f !in used && !Part(m3, d, f);
      assert !BacksOne(m3, d, gone, f);
    } else if m[f].Free? && !m2[f].Free? && f in used && BacksIn(m3, d, a, k, f) {
      var n :| a <= n < k && Look(m3, d, n).p && Look(m3, d, n).ppn == f;
      assert BacksOne(m3, d, gone, f);
    }
  }

  /** The pages mapped so far, read off the last state reached before memory ran out; `used` are the frames taken. */
  lemma SoFar(m: Mem, l: seq<nat>, m1: Mem, l1: seq<nat>, d: nat, a: nat, want: seq<Want>, m3: Mem, lost: nat)
    returns (used: seq<nat>)
    requires Grown(m, l, m1, l1, d, a, want) && (forall i :: 0 <= i < |want| ==> GoodWant(want[i]))
    requires if lost == 0 then m3 == m1 else Stalled(m1, m3, d, lost)
    ensures a + |want| <= USER_PAGES && Extends(m, m3, d, used) && UserOk(m3, d)
    ensures forall n :: 0 <= n < ALL_PAGES && !(a <= n < a + |want|) ==> Look(m3, d, n) == Look(m, d, n)
    ensures forall n :: a <= n < a + |want| ==> Look(m3, d, n).p && Look(m3, d, n).ppn in used
    ensures forall g :: g in used ==> Part(m3, d, g) || BacksIn(m3, d, a, a + |want|, g) || g == lost
    ensures lost != 0 ==> lost in used
  {
    hide SpaceOk, UserOk, Opened, Extends, Look, Part, Pde, Need;
    var k := a + |want|;
    var u := l[..Need(m, d, a, k)];
    used := u;
    if lost != 0 {
      ExtendsTwice(m, m1, m3, d, u, [lost]);
      used := u + [lost];
    }
    forall n | a <= n < k
      ensures Look(m1, d, n).p && Look(m1, d, n).ppn in u
    {
      assert CellAt(m1, d, a, want, u, n);
    }
    forall g | g in u
      ensures Part(m3, d, g) || BacksIn(m3, d, a, k, g)
    {
      if BacksIn(m1, d, a, k, g) {
        var n :| a <= n < k && Look(m1, d, n).p && Look(m1, d, n).ppn == g;
        assert Look(m3, d, n) == Look(m1, d, n);
      }
    }
  }

  /** Tables are kept, and new ones were free. */
  lemma ExtendsParts(m: Mem, m': Mem, d: nat, used: seq<nat>)
    requires Extends(m, m', d, used)
    ensures forall f :: Part(m, d, f) ==> Part(m', d, f)
    ensures forall f :: Part(m', d, f) ==> Part(m, d, f) || (f in m && m[f].Free?)
  {
    hide Part, SpaceOk;
  }

  lemma UsedWereFree(m: Mem, m': Mem, d: nat, used: seq<nat>, f: nat)
    requires Extends(m, m', d, used) && f in used
    ensures f in m && m[f].Free?
  {
  }

  lemma UndoGrowth(m: Mem, m3: Mem, m2: Mem, d: nat, used: seq<nat>, a: nat, k: nat, b: nat, lost: nat)
    requires a <= k <= b <= USER_PAGES && Extends(m, m3, d, used) && UserOk(m3, d)
    requires forall n :: a <= n < b ==> !Look(m, d, n).p
    requires forall n :: 0 <= n < ALL_PAGES && !(a <= n < k) ==> Look(m3, d, n) == Look(m, d, n)
    requires forall n :: a <= n < k ==> Look(m3, d, n).p && Look(m3, d, n).ppn in used
    requires forall g :: g in used ==> Part(m3, d, g) || BacksIn(m3, d, a, k, g) || g == lost
    requires lost != 0 ==> lost in used && IsData(m3, lost) && !Backs(m3, d, lost)
    requires Released(m3, m2, d, Visited(m3, d, a, b))
    ensures Undone(m, m2, d, lost)
  {
    hide SpaceOk, UserOk, Look, Pde, Visited, Part, Extends;
    CleanupReaches(m, m3, d, a, k, b);
    ExtendsParts(m, m3, d, used);
    var gone := Visited(m3, d, a, b);
    VisitedInRange(m3, d, a, b);
    if lost != 0 {
      DataIsNotPart(m3, d, lost);
      UsedWereFree(m, m3, d, used, lost);
    }
    forall f | f in m
      ensures !Part(m, d, f) && !m[f].Free? ==> m2[f] == m[f]
      ensures m[f].Free? && !m2[f].Free? ==> Part(m2, d, f) || f == lost
    {
      UndoFrame(m, m3, m2, d, used, a, k, gone, lost, f);
    }
    if lost != 0 {
      assert !BacksOne(m3, d, gone, lost);
      assert !Backs(m2, d, lost);
    }
  }

  lemma StalledIsLost(m1: Mem, m3: Mem, d: nat, lost: nat)
    requires Stalled(m1, m3, d, lost)
    ensures !Backs(m3, d, lost) && IsData(m3, lost)
  {
    FreeBacksNothing(m1, d, lost);
  }

  /** Memory ran out and deallocuvm has cleaned up. */
  lemma GaveUp(m: Mem, l: seq<nat>, m1: Mem, l1: seq<nat>, d: nat, a: nat, want: seq<Want>, m3: Mem, lost: nat,
               m2: Mem, b: nat)
    requires Grown(m, l, m1, l1, d, a, want) && (forall i :: 0 <= i < |want| ==> GoodWant(want[i]))
    requires if lost == 0 then m3 == m1 else Stalled(m1, m3, d, lost)
    requires a + |want| <= b <= USER_PAGES && forall n :: a <= n < b ==> !Look(m, d, n).p
    requires Released(m3, m2, d, Visited(m3, d, a, b))
    ensures Undone(m, m2, d, lost)
  {
    hide SpaceOk, UserOk, Opened, Look, Part, Pde, Need, Visited, Released, Undone, Extends, Grown, Stalled, GoodWant;
    var used := SoFar(m, l, m1, l1, d, a, want, m3, lost);
    var k := a + |want|;
    if lost != 0 {
      StalledIsLost(m1, m3, d, lost);
    }
    UndoGrowth(m, m3, m2, d, used, a, k, b, lost);
  }

  /** Before the next page is mapped: a frame for it is filled, and its entry is free. */
  lemma ReadyNext(m: Mem, l: seq<nat>, m1: Mem, l1: seq<nat>, d: nat, a: nat, want: seq<Want>, w: Want)
    requires Grown(m, l, m1, l1, d, a, want) && FreeOk(m1, l1) && l1 != [] && GoodWant(w)
    requires a + |want| < USER_PAGES && !Look(m, d, a + |want|).p
    ensures var mz, k := m1[l1[0] := w.page], a + |want|;
      && UserOk(mz, d) && FreeOk(mz, l1[1..]) && !Look(mz, d, k).p
      && (OpensTable(mz, d, k, k) <==> OpensTable(m, d, a, k))
  {
    var mz, k := m1[l1[0] := w.page], a + |want|;
    FillFrame(m1, l1, d, w.page);
    OpensIff(m, m1, d, a, k);
  }

  /** Nothing mapped, nothing taken from the list. */
  lemma NothingMapped(m: Mem, l: seq<nat>, m': Mem, l': seq<nat>, d: nat, k: nat, x: Pte)
    requires MappedTo(m, l, m', l', d, k, k, x)
    ensures l' == l
  {
  }

  lemma ListUsed(m: Mem, l: seq<nat>, m1: Mem, l1: seq<nat>, d: nat, a: nat, want: seq<Want>)
    requires Grown(m, l, m1, l1, d, a, want)
    ensures a + |want| <= USER_PAGES && |l| == Need(m, d, a, a + |want|) + |l1|
    ensures l1 != [] ==> l[Need(m, d, a, a + |want|)] == l1[0]
  {
  }

  lemma NeedMore(m: Mem, d: nat, a: nat, k: nat, b: nat)
    requires IsTable(m, d) && a <= k < b <= ALL_PAGES
    ensures Need(m, d, a, k + 1) == Need(m, d, a, k) + if OpensTable(m, d, a, k) then 2 else 1
    ensures Need(m, d, a, k + 1) <= Need(m, d, a, b)
  {
    NewTablesGrow(m, d, a, k + 1, b);
  }

  /** allocuvm reports success although its last page k has no table: the pages before it are mapped, and
      every frame taken belongs to d except `lost`. */
  ghost predicate Stranded(m: Mem, m': Mem, d: nat, a: nat, k: nat, lost: nat)
    ensures Stranded(m, m', d, a, k, lost) ==> SpaceOk(m, d) && SpaceOk(m', d)
  {
    && SpaceOk(m, d) && SpaceOk(m', d) && m.Keys == m'.Keys && a <= k < USER_PAGES
    && (forall n :: 0 <= n < ALL_PAGES && !(a <= n < k) ==> Look(m', d, n) == Look(m, d, n))
    && (forall n :: a <= n < k ==> Look(m', d, n).p && Look(m', d, n).ppn in m && m[Look(m', d, n).ppn].Free?)
    && (forall f :: f in m && !Part(m, d, f) && !m[f].Free? ==> m'[f] == m[f])
    && (forall f :: f in m && m[f].Free? && !m'[f].Free? ==> Part(m', d, f) || BacksIn(m', d, a, k, f) || f == lost)
    && (forall f :: Part(m, d, f) ==> Part(m', d, f))
    && (forall f :: Part(m', d, f) ==> Part(m, d, f) || (f in m && m[f].Free?))
    && lost in m && m[lost].Free? && m'[lost].Data? && !Part(m', d, lost) && !Backs(m', d, lost)
  }

  lemma IsStranded(m: Mem, l: seq<nat>, m1: Mem, l1: seq<nat>, d: nat, a: nat, want: seq<Want>, m3: Mem, lost: nat)
    requires Grown(m, l, m1, l1, d, a, want) && (forall i :: 0 <= i < |want| ==> GoodWant(want[i]))
    requires lost != 0 && Stalled(m1, m3, d, lost) && a + |want| < USER_PAGES
    ensures Stranded(m, m3, d, a, a + |want|, lost)
  {
    hide SpaceOk, UserOk, Look, Grown, Stalled, GoodWant, Part;
    var used := SoFar(m, l, m1, l1, d, a, want, m3, lost);
    ExtendsParts(m, m3, d, used);
    StalledIsLost(m1, m3, d, lost);
    DataIsNotPart(m3, d, lost);
  }

  lemma PagesSoFar(m: Mem, l: seq<nat>, m1: Mem, l1: seq<nat>, d: nat, a: nat, want: seq<Want>, m3: Mem, lost: nat)
    requires Grown(m, l, m1, l1, d, a, want) && (forall i :: 0 <= i < |want| ==> GoodWant(want[i]))
    requires if lost == 0 then m3 == m1 else Stalled(m1, m3, d, lost)
    ensures forall n :: 0 <= n < ALL_PAGES && !(a <= n < a + |want|) ==> Look(m3, d, n) == Look(m, d, n)
    ensures forall n :: a <= n < a + |want| ==> Look(m3, d, n).p
  {
    hide SpaceOk, UserOk, Look, Extends, Grown, Stalled, GoodWant;
    var _ := SoFar(m, l, m1, l1, d, a, want, m3, lost);
  }
}
