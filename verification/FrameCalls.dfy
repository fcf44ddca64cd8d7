/** The procedures of vm.c and kalloc.c, called one after the other, are the calls of the ledger's runs. */
module FrameCalls {
  import opened PageTable
  import opened AddressSpace
  import opened CopySpace
  import opened FrameNeed
  import opened UserMemory
  import opened VmCode
  import opened FrameLedger
  import opened KernelHalf

  class Kernel {
    const vm: Vm
    const rows: seq<Kmap>
    ghost var w: World

    /** The ledger holds, and every address space has the kernel's half. */
    ghost predicate Valid()
      reads this, vm
    {
      && vm.Valid() && KmapOk(rows) && w.m == vm.mem && w.l == vm.freelist
      && Ledger(w) && AllHaveKernel(w, rows)
    }

    /** Every page is free. */
    constructor (vm: Vm, rows: seq<Kmap>)
      requires vm.Valid() && KmapOk(rows) && forall f :: f in vm.mem ==> vm.mem[f].Free?
      ensures Valid() && this.vm == vm && this.rows == rows && Boot(w)
    {
      this.vm, this.rows := vm, rows;
      w := World(vm.mem, vm.freelist, {}, {}, {});
    }

    method Alloc(d: nat, oldsz: nat, newsz: nat) returns (sz: nat, ghost a: Call)
      requires Valid() && d in w.dirs && oldsz <= newsz < KERNBASE
      requires forall n :: Up(oldsz) <= n < Up(newsz) ==> !Look(w.m, d, n).p
      modifies this, vm
      ensures Valid() && a.Alloc? && a.d == d && a.sz == sz && Does(old(w), rows, a, w)
    {
      hide Ledger, AllHaveKernel, AllocOutcome, SpaceOk, UserOk, FreeOk, Look;
      LedgerSpaces(w);
      ghost var k, lost;
      sz, k, lost := vm.AllocUvm(d, oldsz, newsz);
      a := Call.Alloc(d, oldsz, newsz, sz, k, lost);
      w := World(vm.mem, vm.freelist, w.dirs, w.held, w.lost + LostSet(lost));
      CallKeepsKernel(old(w), rows, a, w);
    }

    method Dealloc(d: nat, oldsz: nat, newsz: nat) returns (ghost a: Call)
      requires Valid() && d in w.dirs && newsz < oldsz <= KERNBASE
      modifies this, vm
      ensures Valid() && a == Call.Dealloc(d, oldsz, newsz) && Does(old(w), rows, a, w)
    {
      hide Ledger, AllHaveKernel, Released, SpaceOk, UserOk, FreeOk, Visited;
      LedgerSpaces(w);
      var _ := vm.DeallocUvm(d, oldsz, newsz);
      a := Call.Dealloc(d, oldsz, newsz);
      w := World(vm.mem, vm.freelist, w.dirs, w.held, w.lost);
      CallKeepsKernel(old(w), rows, a, w);
    }

    /** Nothing is said about the kernel after a panic. */
    method Copy(d: nat, size: nat) returns (c: nat, panic: bool, ghost a: Call)
      requires Valid() && d in w.dirs && size <= KERNBASE
      modifies this, vm
      ensures SpaceOk(old(w).m, d) && (panic <==> CopyPanics(old(w).m, old(w).l, d, Up(size), rows))
      ensures !panic ==> Valid() && a.Copy? && a.d == d && a.c == c && Does(old(w), rows, a, w)
    {
      hide Ledger, AllHaveKernel, CopyOutcome, CopyPanics, SpaceOk, UserOk, FreeOk, Look, KernelNeed;
      LedgerSpaces(w);
      ghost var lost;
      c, panic, lost := vm.CopyUvm(d, size, rows);
      a := Call.Copy(d, size, c, lost);
      if panic {
        return;
      }
      w := World(vm.mem, vm.freelist, if c == 0 then w.dirs else w.dirs + {c}, w.held,
                 w.lost + if |w.l| < KernelNeed(rows) then AsSet(w.l) else LostSet(lost));
      CallKeepsKernel(old(w), rows, a, w);
    }

    method Setup() returns (c: nat, ghost a: Call)
      requires Valid()
      modifies this, vm
      ensures Valid() && a == Call.Setup(c) && Does(old(w), rows, a, w)
    {
      hide Ledger, AllHaveKernel, SpaceOk, FreeOk, Look, KernelNeed, Built, KernelPte;
      c := vm.SetupKvm(rows);
      a := Call.Setup(c);
      if c == 0 {
        w := World(vm.mem, vm.freelist, w.dirs, w.held, w.lost + AsSet(w.l));
      } else {
        w := World(vm.mem, vm.freelist, w.dirs + {c}, w.held, w.lost);
      }
      CallKeepsKernel(old(w), rows, a, w);
    }

    method FreeSpace(d: nat) returns (ghost a: Call)
      requires Valid() && d in w.dirs
      modifies this, vm
      ensures Valid() && a == Call.FreeSpace(d) && Does(old(w), rows, a, w)
    {
      hide Ledger, AllHaveKernel, SpaceOk, UserOk, FreeOk, Part, Backs;
      LedgerSpaces(w);
      vm.FreeVm(d);
      a := Call.FreeSpace(d);
      w := World(vm.mem, vm.freelist, w.dirs - {d}, w.held, w.lost);
      CallKeepsKernel(old(w), rows, a, w);
    }

    method Clear(d: nat, n: nat) returns (ghost a: Call)
      requires Valid() && d in w.dirs && n < USER_PAGES && Pde(w.m, d, n / NPTENTRIES).p
      modifies this, vm
      ensures Valid() && a == Call.Clear(d, n) && Does(old(w), rows, a, w)
    {
      hide Ledger, AllHaveKernel, SpaceOk, UserOk, FreeOk, Look;
      LedgerSpaces(w);
      vm.ClearPteu(d, n);
      a := Call.Clear(d, n);
      w := World(vm.mem, vm.freelist, w.dirs, w.held, w.lost);
      CallKeepsKernel(old(w), rows, a, w);
    }

    method CopyTo(d: nat, va: nat, p: seq<nat>) returns (out: CopyResult, ghost a: Call)
      requires Valid() && d in w.dirs && va < ALL_PAGES * PGSIZE
      modifies this, vm
      ensures Valid() && a.CopyTo? && a.d == d && a.va == va && a.p <= p && Does(old(w), rows, a, w)
    {
      hide Ledger, AllHaveKernel, SpaceOk, UserOk, FreeOk, Stored, KernelOnly;
      LedgerSpaces(w);
      KernelIn(d);
      ghost var done;
      out, done := vm.CopyOut(d, va, p);
      a := Call.CopyTo(d, va, p[..done]);
      w := World(vm.mem, vm.freelist, w.dirs, w.held, w.lost);
      CallKeepsKernel(old(w), rows, a, w);
    }

    lemma KernelIn(d: nat)
      requires Valid() && d in w.dirs
      ensures SpaceOk(w.m, d) && KernelOnly(w.m, d)
    {
      hide SpaceOk, HasKernel;
      KernelIsNotUsers(w.m, d, rows);
    }

    /** A page for a kernel stack or a pipe, or 0. */
    method Take() returns (f: nat, ghost a: Call)
      requires Valid()
      modifies this, vm
      ensures Valid() && a == Call.Take(f) && Does(old(w), rows, a, w)
    {
      hide Ledger, AllHaveKernel, FreeOk;
      f := vm.Kalloc();
      a := Call.Take(f);
      w := World(vm.mem, vm.freelist, w.dirs, if f == 0 then w.held else w.held + {f}, w.lost);
      CallKeepsKernel(old(w), rows, a, w);
    }

    method Give(f: nat) returns (ghost a: Call)
      requires Valid() && f in w.held
      modifies this, vm
      ensures Valid() && a == Call.Give(f) && Does(old(w), rows, a, w)
    {
      ApartInUse(w, f);
      hide Ledger, AllHaveKernel, FreeOk;
      vm.Kfree(f);
      a := Call.Give(f);
      w := World(vm.mem, vm.freelist, w.dirs, w.held - {f}, w.lost);
      CallKeepsKernel(old(w), rows, a, w);
    }
  }
}
