/** The size of a process: its mapped user pages are exactly those below it, through growth, shrinking and fork. */
module SpaceSize {
  import opened PageTable
  import opened AddressSpace
  import opened SpaceGrowth
  import opened UserPages
  import opened CopySpace
  import opened UserMemory
  import opened VmCode
  import opened ExecStack

  /** The user pages mapped are those that hold the bytes below sz. */
  predicate Sized(m: Mem, d: nat, sz: nat)
  {
    UserOk(m, d) && forall n :: 0 <= n < USER_PAGES ==> (Look(m, d, n).p <==> n < Up(sz))
  }

  /** allocuvm with memory enough. */
  lemma GrownIsSized(m: Mem, l: seq<nat>, m': Mem, l': seq<nat>, d: nat, oldsz: nat, newsz: nat)
    requires Sized(m, d, oldsz) && oldsz <= newsz < KERNBASE
    requires Grown(m, l, m', l', d, Up(oldsz), Zeros(Up(newsz) - Up(oldsz)))
    ensures Sized(m', d, newsz)
  {
    hide SpaceOk, UserOk, Look, Extends, Opened;
    var w := Zeros(Up(newsz) - Up(oldsz));
    forall n | 0 <= n < USER_PAGES
      ensures Look(m', d, n).p <==> n < Up(newsz)
    {
      if Up(oldsz) <= n < Up(newsz) {
        assert CellAt(m', d, Up(oldsz), w, l[..Need(m, d, Up(oldsz), Up(newsz))], n);
      }
    }
  }

  /** allocuvm that gave up. */
  lemma UndoneIsSized(m: Mem, m': Mem, d: nat, sz: nat, lost: nat)
    requires Sized(m, d, sz) && Undone(m, m', d, lost) && UserOk(m', d)
    ensures Sized(m', d, sz)
  {
    hide SpaceOk, UserOk, Look;
  }

  /** deallocuvm, which reaches every page it should. */
  lemma ReleasedIsSized(m: Mem, m': Mem, d: nat, oldsz: nat, newsz: nat)
    requires Sized(m, d, oldsz) && newsz < oldsz <= KERNBASE && UserOk(m', d)
    requires Released(m, m', d, Visited(m, d, Up(newsz), Up(oldsz)))
    ensures Sized(m', d, newsz)
    ensures forall f :: f in m && Backs(m, d, f) && !Backs(m', d, f) ==> m'[f].Free?
  {
    var a, b := Up(newsz), Up(oldsz);
    AlignedOrPrefix(m, d, a, b, b);
    VisitedInRange(m, d, a, b);
    forall f | f in m && Backs(m, d, f) && !Backs(m', d, f)
      ensures m'[f].Free?
    {
      BackingIsNotPart(m, d, f);
      var n :| 0 <= n < USER_PAGES && Look(m, d, n).p && Look(m, d, n).ppn == f;
      assert n in Visited(m, d, a, b);
      assert BacksOne(m, d, Visited(m, d, a, b), f);
    }
    hide SpaceOk, UserOk, Look, Visited;
  }

  /** fork: the child has the parent's size and the parent's bytes, on frames the parent does not have. */
  lemma ChildIsSized(m0: Mem, m: Mem, d: nat, c: nat, sz: nat, rows: seq<Kmap>, x: nat)
    requires Sized(m0, d, sz) && sz <= KERNBASE && CopyOf(m0, m, d, c, Up(sz), rows) && x < sz
    ensures Sized(m, c, sz)
    ensures Readable(m0, d, x) && Readable(m, c, x) && ByteOf(m, c, x) == ByteOf(m0, d, x)
    ensures !Backs(m0, d, Look(m, c, x / PGSIZE).ppn)
  {
    hide SpaceOk, Look, KernelPte;
    var n := x / PGSIZE;
    assert PageAt(m, c, n) && PageAt(m0, d, n);
    FreeBacksNothing(m0, d, Look(m, c, n).ppn);
  }

  lemma UserPageAt(m: Mem, l: seq<nat>, m1: Mem, l1: seq<nat>, d: nat, a: nat, k: nat, i: nat)
    requires Grown(m, l, m1, l1, d, a, Zeros(k)) && i < k
    ensures a + i < USER_PAGES && Look(m1, d, a + i).u
  {
    assert CellAt(m1, d, a, Zeros(k), l[..Need(m, d, a, a + k)], a + i);
  }

  lemma KernelSame(m: Mem, l: seq<nat>, m1: Mem, l1: seq<nat>, d: nat, a: nat, want: seq<Want>)
    requires Grown(m, l, m1, l1, d, a, want) && KernelOnly(m, d)
    ensures KernelOnly(m1, d)
  {
    hide Look, SpaceOk, UserOk;
  }

  /** exec: two more pages, the lower one taken from the user, are ready for the stack. */
  lemma TwoPagesReady(m: Mem, l: seq<nat>, m1: Mem, l1: seq<nat>, m2: Mem, d: nat, sz: nat)
    requires Sized(m, d, sz) && KernelOnly(m, d) && sz % PGSIZE == 0 && sz + 2 * PGSIZE < KERNBASE
    requires Grown(m, l, m1, l1, d, Up(sz), Zeros(2)) && UserOk(m2, d)
    requires forall k :: 0 <= k < ALL_PAGES ==>
      Look(m2, d, k) == if k == Up(sz) then Look(m1, d, k).(u := false) else Look(m1, d, k)
    ensures StackReady(m2, d, sz + 2 * PGSIZE)
  {
    hide SpaceOk, UserOk, Grown, Look;
    assert Up(sz + 2 * PGSIZE) - Up(sz) == 2;
    GrownIsSized(m, l, m1, l1, d, sz, sz + 2 * PGSIZE);
    UserPageAt(m, l, m1, l1, d, Up(sz), 2, 1);
    KernelSame(m, l, m1, l1, d, Up(sz), Zeros(2));
    assert (sz + 2 * PGSIZE) / PGSIZE == Up(sz) + 2;
  }
}
