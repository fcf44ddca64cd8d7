/** The user stack that exec builds: argument strings, the vector of pointers to them, argc and a return address. */
module ExecStack {
  import opened Machine
  import opened PageTable
  import opened AddressSpace
  import opened UserMemory
  import opened VmCode

  const MAXARG := 32

  // ---------------------------------------------------------------- words in memory

  function WordBytes(ws: seq<nat>): (b: seq<nat>)
    ensures |b| == 4 * |ws|
  {
    if ws == [] then [] else Le(ws[0]) + WordBytes(ws[1..])
  }

  lemma {:induction false} WordBytesAt(ws: seq<nat>, i: nat)
    requires i < |ws|
    ensures WordBytes(ws)[4 * i..4 * i + 4] == Le(ws[i])
    decreases |ws|
  {
    if i > 0 {
      WordBytesAt(ws[1..], i - 1);
      assert WordBytes(ws)[4 * i..4 * i + 4] == WordBytes(ws[1..])[4 * (i - 1)..4 * (i - 1) + 4];
    }
  }

  predicate Has(m: Mem, d: nat, va: nat, b: nat)
    requires UserOk(m, d)
  {
    Readable(m, d, va) && ByteOf(m, d, va) == b
  }

  /** These bytes are in memory at va. */
  predicate Holds(m: Mem, d: nat, va: nat, p: seq<nat>)
    requires UserOk(m, d)
  {
    forall t :: 0 <= t < |p| ==> Has(m, d, va + t, p[t])
  }

  /** A program that reads the word at va gets w. */
  predicate ReadsWord(m: Mem, d: nat, va: nat, w: nat)
    requires UserOk(m, d)
  {
    && Readable(m, d, va) && Readable(m, d, va + 1) && Readable(m, d, va + 2) && Readable(m, d, va + 3)
    && FromLe(ByteOf(m, d, va), ByteOf(m, d, va + 1), ByteOf(m, d, va + 2), ByteOf(m, d, va + 3)) == w
  }

  lemma HeldByte(m: Mem, d: nat, va: nat, ws: seq<nat>, i: nat, t: nat)
    requires UserOk(m, d) && Holds(m, d, va, WordBytes(ws)) && i < |ws| && t < 4
    ensures Has(m, d, va + 4 * i + t, Le(ws[i])[t])
  {
    hide Has, UserOk, Le, WordBytes;
    WordBytesAt(ws, i);
    assert WordBytes(ws)[4 * i + t] == WordBytes(ws)[4 * i..4 * i + 4][t];
    assert va + 4 * i + t == va + (4 * i + t);
  }

  lemma HeldWord(m: Mem, d: nat, va: nat, ws: seq<nat>, i: nat)
    requires UserOk(m, d) && Holds(m, d, va, WordBytes(ws)) && i < |ws| && ws[i] < UINT_LIMIT
    ensures ReadsWord(m, d, va + 4 * i, ws[i])
  {
    hide ByteOf, Readable, UserOk, Holds, WordBytes, Le;
    HeldByte(m, d, va, ws, i, 0);
    HeldByte(m, d, va, ws, i, 1);
    HeldByte(m, d, va, ws, i, 2);
    HeldByte(m, d, va, ws, i, 3);
    LeRoundTrip(ws[i]);
  }

  // ---------------------------------------------------------------- where things go

  function Align(x: int): int { x - x % 4 }

  /** The stack pointer after i strings. */
  function Sp(sz: nat, argv: seq<seq<nat>>, i: nat): int
    requires i <= |argv|
  {
    if i == 0 then sz else Align(Sp(sz, argv, i - 1) - (|argv[i - 1]| + 1))
  }

  /** The final stack pointer: below the strings, the vector, its null, argc, argv and the return address. */
  function Bottom(sz: nat, argv: seq<seq<nat>>): int { Sp(sz, argv, |argv|) - 4 * (|argv| + 4) }

  lemma {:induction false} SpFalls(sz: nat, argv: seq<seq<nat>>, i: nat, j: nat)
    requires i <= j <= |argv|
    ensures Sp(sz, argv, j) <= Sp(sz, argv, i) - (j - i)
    ensures i < j ==> Sp(sz, argv, j) % 4 == 0
    decreases j - i
  {
    if i < j {
      SpFalls(sz, argv, i, j - 1);
    }
  }

  lemma SpStep(sz: nat, argv: seq<seq<nat>>, i: nat)
    requires i < |argv|
    ensures Sp(sz, argv, i + 1) % 4 == 0
    ensures Sp(sz, argv, i) - 4 < Sp(sz, argv, i + 1) + |argv[i]| + 1 <= Sp(sz, argv, i)
  {
  }

  // ---------------------------------------------------------------- the stack page and its guard

  /** Two pages at the top of the image, the lower one taken from the user by clearpteu. */
  predicate StackReady(m: Mem, d: nat, sz: nat)
    ensures StackReady(m, d, sz) ==> UserOk(m, d)
  {
    && UserOk(m, d) && sz % PGSIZE == 0 && 2 * PGSIZE <= sz <= KERNBASE
    && (forall n :: 0 <= n < sz / PGSIZE ==> Look(m, d, n).p)
    && !Look(m, d, sz / PGSIZE - 2).u && Look(m, d, sz / PGSIZE - 1).u && KernelOnly(m, d)
  }

  /** Bytes that end in the stack page can be copied out exactly when they start there: the guard page stops
      the rest. */
  lemma GuardStops(m: Mem, d: nat, sz: nat, va: nat, len: nat)
    requires StackReady(m, d, sz) && len >= 1 && sz - 2 * PGSIZE < va + len <= sz
    ensures (forall x :: va <= x < va + len ==> UserPage(m, d, x)) <==> va >= sz - PGSIZE
    ensures forall x :: va <= x < va + len ==> !NoTable(m, d, x)
  {
    forall x | va <= x < va + len
      ensures !NoTable(m, d, x)
    {
      assert Look(m, d, x / PGSIZE).p;
    }
    if va >= sz - PGSIZE {
      assert forall x :: va <= x < va + len ==> x / PGSIZE == sz / PGSIZE - 1;
    } else {
      var x := if va < sz - 2 * PGSIZE then sz - 2 * PGSIZE else va;
      assert x / PGSIZE == sz / PGSIZE - 2;
      assert !UserPage(m, d, x);
    }
  }

  // ---------------------------------------------------------------- what stays in place

  lemma StoredHolds(m: Mem, m': Mem, d: nat, va: nat, p: seq<nat>)
    requires Stored(m, m', d, va, p) && forall x :: va <= x < va + |p| ==> UserPage(m, d, x)
    ensures Holds(m', d, va, p)
  {
    hide ByteOf, SpaceOk;
    forall t | 0 <= t < |p|
      ensures Has(m', d, va + t, p[t])
    {
      assert UserPage(m, d, va + t) && Readable(m, d, va + t);
    }
  }

  lemma StoredBeside(m: Mem, m': Mem, d: nat, va: nat, p: seq<nat>, vb: nat, q: seq<nat>)
    requires Stored(m, m', d, va, p) && Holds(m, d, vb, q) && va + |p| <= vb
    ensures Holds(m', d, vb, q)
  {
    hide ByteOf, SpaceOk;
    forall t | 0 <= t < |q|
      ensures Has(m', d, vb + t, q[t])
    {
      assert Has(m, d, vb + t, q[t]);
    }
  }

  lemma StoredReady(m: Mem, m': Mem, d: nat, va: nat, p: seq<nat>, sz: nat)
    requires Stored(m, m', d, va, p) && StackReady(m, d, sz)
    ensures StackReady(m', d, sz)
  {
    hide ByteOf, Look;
  }

  /** Only bytes at lo..hi differ. */
  ghost predicate Kept(m0: Mem, m: Mem, d: nat, lo: int, hi: int)
    ensures Kept(m0, m, d, lo, hi) ==> UserOk(m0, d) && UserOk(m, d)
  {
    && UserOk(m0, d) && UserOk(m, d)
    && (forall n :: 0 <= n < ALL_PAGES ==> Look(m, d, n) == Look(m0, d, n))
    && (forall x :: 0 <= x && Readable(m0, d, x) && !(lo <= x < hi) ==> ByteOf(m, d, x) == ByteOf(m0, d, x))
  }

  lemma KeptMore(m0: Mem, m: Mem, m': Mem, d: nat, lo: int, hi: int, va: nat, p: seq<nat>)
    requires Kept(m0, m, d, lo, hi) && Stored(m, m', d, va, p) && va + |p| <= lo <= hi
    ensures Kept(m0, m', d, va, hi)
  {
    hide ByteOf, SpaceOk, Look, UserOk;
    forall x | 0 <= x && Readable(m0, d, x) && !(va <= x < hi)
      ensures ByteOf(m', d, x) == ByteOf(m0, d, x)
    {
      assert Readable(m, d, x);
    }
  }

  lemma KeptNone(m: Mem, d: nat, hi: int)
    requires UserOk(m, d)
    ensures Kept(m, m, d, hi, hi)
  {
  }

  /** The first i strings are in place, each aligned and below the one before. */
  ghost predicate Strings(m: Mem, d: nat, sz: nat, argv: seq<seq<nat>>, i: nat)
    requires UserOk(m, d) && i <= |argv|
  {
    forall j :: 0 <= j < i ==> InPlace(m, d, sz, argv, j)
  }

  ghost predicate InPlace(m: Mem, d: nat, sz: nat, argv: seq<seq<nat>>, j: nat)
    requires UserOk(m, d) && j < |argv|
  {
    Sp(sz, argv, j + 1) >= 0 && Holds(m, d, Sp(sz, argv, j + 1), argv[j] + [0])
  }

  lemma StringsKept(m: Mem, m': Mem, d: nat, sz: nat, argv: seq<seq<nat>>, i: nat, va: nat, p: seq<nat>)
    requires Stored(m, m', d, va, p) && i <= |argv| && Strings(m, d, sz, argv, i) && va + |p| <= Sp(sz, argv, i)
    ensures Strings(m', d, sz, argv, i)
  {
    hide Stored, Holds, UserOk;
    forall j | 0 <= j < i
      ensures InPlace(m', d, sz, argv, j)
    {
      assert InPlace(m, d, sz, argv, j);
      SpFalls(sz, argv, j + 1, i);
      StoredBeside(m, m', d, va, p, Sp(sz, argv, j + 1), argv[j] + [0]);
    }
  }

  /** What the new program finds: at sp a fake return address, argc and argv; argv[i] points to a
      word-aligned copy of argument i, the copies are disjoint, and everything is in the stack page. */
  ghost predicate Layout(m: Mem, d: nat, sz: nat, argv: seq<seq<nat>>, sp: nat)
    requires UserOk(m, d)
  {
    && sz - PGSIZE <= sp && sp % 4 == 0 && sp + 4 * (|argv| + 4) <= sz
    && ReadsWord(m, d, sp, 0xffffffff) && ReadsWord(m, d, sp + 4, |argv|) && ReadsWord(m, d, sp + 8, sp + 12)
    && ReadsWord(m, d, sp + 12 + 4 * |argv|, 0)
    && forall i :: 0 <= i < |argv| ==> Argument(m, d, sz, argv, sp, i)
  }

  ghost predicate Argument(m: Mem, d: nat, sz: nat, argv: seq<seq<nat>>, sp: nat, i: nat)
    requires UserOk(m, d) && i < |argv|
  {
    var u := Sp(sz, argv, i + 1);
    && u % 4 == 0 && sp + 4 * (|argv| + 4) <= u && u + |argv[i]| + 1 <= Sp(sz, argv, i) <= sz
    && ReadsWord(m, d, sp + 12 + 4 * i, u) && Holds(m, d, u, argv[i] + [0])
  }

  lemma LayoutDone(m: Mem, d: nat, sz: nat, argv: seq<seq<nat>>, ustack: seq<nat>, sp: nat)
    requires UserOk(m, d) && sz % PGSIZE == 0 && sz <= KERNBASE && sp == Bottom(sz, argv) >= sz - PGSIZE
    requires |argv| <= MAXARG
    requires |ustack| == |argv| && forall i :: 0 <= i < |argv| ==> ustack[i] == Sp(sz, argv, i + 1)
    requires Strings(m, d, sz, argv, |argv|)
    requires Holds(m, d, sp, WordBytes([0xffffffff, |argv|, sp + 12] + ustack + [0]))
    ensures Layout(m, d, sz, argv, sp)
  {
    hide UserOk, Holds, ReadsWord, WordBytes, Sp, Strings, Argument;
    SpFirst(sz, argv);
    var ws := [0xffffffff, |argv|, sp + 12] + ustack + [0];
    SpFalls(sz, argv, 0, |argv|);
    HeldWord(m, d, sp, ws, 0);
    HeldWord(m, d, sp, ws, 1);
    HeldWord(m, d, sp, ws, 2);
    HeldWord(m, d, sp, ws, 3 + |argv|);
    forall i | 0 <= i < |argv|
      ensures Argument(m, d, sz, argv, sp, i)
    {
      ArgumentDone(m, d, sz, argv, ustack, sp, i);
    }
  }

  lemma ArgumentDone(m: Mem, d: nat, sz: nat, argv: seq<seq<nat>>, ustack: seq<nat>, sp: nat, i: nat)
    requires UserOk(m, d) && sz <= KERNBASE && sp == Bottom(sz, argv) >= sz - PGSIZE && i < |argv| == |ustack|
    requires ustack[i] == Sp(sz, argv, i + 1) && Strings(m, d, sz, argv, |argv|)
    requires Holds(m, d, sp, WordBytes([0xffffffff, |argv|, sp + 12] + ustack + [0]))
    ensures Argument(m, d, sz, argv, sp, i)
  {
    hide UserOk, Holds, ReadsWord, WordBytes, Sp;
    var ws := [0xffffffff, |argv|, sp + 12] + ustack + [0];
    SpFirst(sz, argv);
    SpFalls(sz, argv, i + 1, |argv|);
    SpFalls(sz, argv, 0, i);
    SpStep(sz, argv, i);
    assert InPlace(m, d, sz, argv, i);
    assert ws[3 + i] == ustack[i];
    HeldWord(m, d, sp, ws, 3 + i);
  }

  // ---------------------------------------------------------------- the loop of exec

  /** Fault: the source reads a page table entry through a null pointer. */
  datatype Result = Stack(sp: nat) | Bad | Fault

  /** The stack pointer wraps below zero at string i, to an address without a page table. */
  ghost predicate Faults(m: Mem, d: nat, sz: nat, argv: seq<seq<nat>>, i: nat)
    requires SpaceOk(m, d) && i < |argv| && |argv[i]| < KERNBASE && sz <= KERNBASE
  {
    && i < MAXARG && Sp(sz, argv, i) >= sz - PGSIZE && Sp(sz, argv, i + 1) < 0
    && WrappedSp(sz, argv, i) < ALL_PAGES * PGSIZE && NoTable(m, d, WrappedSp(sz, argv, i))
  }

  /** `(sp - (strlen + 1)) & ~3` when the unsigned subtraction wraps. */
  function WrappedSp(sz: nat, argv: seq<seq<nat>>, i: nat): nat
    requires i < |argv| && |argv[i]| < KERNBASE && sz <= KERNBASE
  {
    var x := Sp(sz, argv, i + 1) + ALL_PAGES * PGSIZE;
    if x < 0 then 0 else x
  }

  method PushArgs(vm: Vm, d: nat, sz: nat, argv: seq<seq<nat>>) returns (r: Result)
    requires vm.Valid() && StackReady(vm.mem, d, sz) && forall i :: 0 <= i < |argv| ==> |argv[i]| < KERNBASE
    modifies vm
    ensures vm.Valid() && UserOk(vm.mem, d)
    ensures r.Stack? <==> |argv| <= MAXARG && Bottom(sz, argv) >= sz - PGSIZE
    ensures r.Stack? ==> r.sp == Bottom(sz, argv) && Layout(vm.mem, d, sz, argv, r.sp)
    ensures r.Stack? ==> Kept(old(vm.mem), vm.mem, d, r.sp, sz)
    ensures r.Fault? <==> exists i :: 0 <= i < |argv| && Faults(old(vm.mem), d, sz, argv, i)
  {
    hide Kept, Stored, StackReady, UserOk, Strings, Layout, Holds, UserPage, FreeOk, Pde, WordBytes, Sp;
    hide KernelOnly, Faults, NoTable;
    SpStart(sz, argv, vm.mem, d);
    KeptNone(vm.mem, d, sz);
    var sp, argc, ustack: seq<nat> := sz, 0, [];
    while argc < |argv|
      invariant 0 <= argc <= |argv| && argc <= MAXARG && vm.Valid() && StackReady(vm.mem, d, sz)
      invariant sp == Sp(sz, argv, argc) && sz - PGSIZE <= sp <= sz && vm.mem[d] == old(vm.mem)[d]
      invariant |ustack| == argc && forall i :: 0 <= i < argc ==> ustack[i] == Sp(sz, argv, i + 1)
      invariant Strings(vm.mem, d, sz, argv, argc) && Kept(old(vm.mem), vm.mem, d, sp, sz)
    {
      SpStep(sz, argv, argc);
      SpFalls(sz, argv, argc + 1, |argv|);
      if argc >= MAXARG {
        NoFault(old(vm.mem), d, sz, argv, argc);
        return Bad;
      }
      ghost var m1, before := vm.mem, sp;
      SpIs(sz, argv, argc);
      if sp < |argv[argc]| + 1 {
        sp := sp - (|argv[argc]| + 1) + ALL_PAGES * PGSIZE;
      } else {
        sp := sp - (|argv[argc]| + 1);
      }
      sp := sp - sp % 4;
      var p := argv[argc] + [0];
      ReadyKernel(vm.mem, d, sz);
      if before >= |p| {
        GuardStops(vm.mem, d, sz, sp, |p|);
      }
      var out, done := vm.CopyOut(d, sp, p);
      StoredReady(m1, vm.mem, d, sp, p[..done], sz);
      if before < |p| {
        FirstStops(m1, d, sp, p, done);
        FaultIff(old(vm.mem), m1, d, sz, argv, argc, out.Faulted?);
      } else if done < |p| {
        NoFault(old(vm.mem), d, sz, argv, argc);
      }
      if !out.Copied? {
        return if out.Faulted? then Fault else Bad;
      }
      assert p[..done] == p;
      StoredDir(m1, vm.mem, d, sp, p);
      KeptMore(old(vm.mem), m1, vm.mem, d, before, sz, sp, p);
      StoredHolds(m1, vm.mem, d, sp, p);
      StringsKept(m1, vm.mem, d, sz, argv, argc, sp, p);
      StringsNext(vm.mem, d, sz, argv, argc);
      ustack := ustack + [sp];
      argc := argc + 1;
    }
    NoFault(old(vm.mem), d, sz, argv, argc);
    r := PushVector(vm, old(vm.mem), d, sz, argv, sp, ustack);
  }

  /** The rest of exec's stack, below the strings: return address, argc, argv and the vector. */
  method PushVector(vm: Vm, ghost m0: Mem, d: nat, sz: nat, argv: seq<seq<nat>>, top: nat, ustack: seq<nat>)
    returns (r: Result)
    requires vm.Valid() && StackReady(vm.mem, d, sz) && |argv| <= MAXARG
    requires top == Sp(sz, argv, |argv|) && sz - PGSIZE <= top <= sz
    requires |ustack| == |argv| && forall i :: 0 <= i < |argv| ==> ustack[i] == Sp(sz, argv, i + 1)
    requires Strings(vm.mem, d, sz, argv, |argv|) && Kept(m0, vm.mem, d, top, sz)
    modifies vm
    ensures vm.Valid() && UserOk(vm.mem, d) && !r.Fault?
    ensures r.Stack? <==> Bottom(sz, argv) >= sz - PGSIZE
    ensures r.Stack? ==> r.sp == Bottom(sz, argv) && Layout(vm.mem, d, sz, argv, r.sp)
    ensures r.Stack? ==> Kept(m0, vm.mem, d, r.sp, sz)
  {
    hide Kept, Stored, StackReady, UserOk, Strings, Layout, Holds, UserPage, FreeOk, Pde, WordBytes, Sp, KernelOnly;
    hide NoTable;
    StackShape(vm.mem, d, sz);
    ghost var m1 := vm.mem;
    var argc := |argv|;
    var ws := [0xffffffff, argc, top - 4 * (argc + 1)] + ustack + [0];
    var sp := top - 4 * (argc + 4);
    GuardStops(vm.mem, d, sz, sp, 4 * (argc + 4));
    ReadyKernel(vm.mem, d, sz);
    var p := WordBytes(ws);
    var out, done := vm.CopyOut(d, sp, p);
    StoredReady(m1, vm.mem, d, sp, p[..done], sz);
    if !out.Copied? {
      return Bad;
    }
    assert p[..done] == p;
    KeptMore(m0, m1, vm.mem, d, top, sz, sp, p);
    StoredHolds(m1, vm.mem, d, sp, p);
    StringsKept(m1, vm.mem, d, sz, argv, argc, sp, p);
    LayoutDone(vm.mem, d, sz, argv, ustack, sp);
    r := Stack(sp);
  }

  lemma StackShape(m: Mem, d: nat, sz: nat)
    requires StackReady(m, d, sz)
    ensures sz % PGSIZE == 0 && 2 * PGSIZE <= sz <= KERNBASE
  {
  }

  lemma ReadyKernel(m: Mem, d: nat, sz: nat)
    requires StackReady(m, d, sz)
    ensures KernelOnly(m, d)
  {
  }

  /** The kernel's half stops copyout at once. */
  lemma FirstStops(m: Mem, d: nat, va: nat, p: seq<nat>, done: nat)
    requires SpaceOk(m, d) && va >= KERNBASE && p != [] && done <= |p|
    requires forall x :: va <= x < va + done ==> UserPage(m, d, x)
    ensures done == 0
  {
    assert done > 0 ==> UserPage(m, d, va);
  }

  /** At string i the pointer wraps; up to there it did not. */
  lemma FaultIff(m0: Mem, m: Mem, d: nat, sz: nat, argv: seq<seq<nat>>, i: nat, faulted: bool)
    requires UserOk(m0, d) && UserOk(m, d) && m[d] == m0[d] && PGSIZE <= sz <= KERNBASE && i < |argv| && i < MAXARG
    requires forall j :: 0 <= j < |argv| ==> |argv[j]| < KERNBASE
    requires Sp(sz, argv, i) >= sz - PGSIZE && Sp(sz, argv, i + 1) < 0
    requires WrappedSp(sz, argv, i) < ALL_PAGES * PGSIZE && (faulted <==> NoTable(m, d, WrappedSp(sz, argv, i)))
    ensures faulted <==> exists j :: 0 <= j < |argv| && Faults(m0, d, sz, argv, j)
  {
    hide Sp, UserOk, WrappedSp;
    if faulted {
      assert Faults(m0, d, sz, argv, i);
    }
    forall j | 0 <= j < |argv| && Faults(m0, d, sz, argv, j)
      ensures j == i
    {
      if j > i {
        SpFalls(sz, argv, i + 1, j);
      } else if j < i {
        SpFalls(sz, argv, j + 1, i);
      }
    }
  }

  /** Without a wrap so far, and none possible at string i, there is no fault. */
  lemma NoFault(m0: Mem, d: nat, sz: nat, argv: seq<seq<nat>>, i: nat)
    requires UserOk(m0, d) && PGSIZE <= sz <= KERNBASE && i <= |argv|
    requires forall j :: 0 <= j < |argv| ==> |argv[j]| < KERNBASE
    requires Sp(sz, argv, i) >= sz - PGSIZE
    requires i < |argv| ==> i >= MAXARG || 0 <= Sp(sz, argv, i + 1) < sz - PGSIZE
    ensures !exists j :: 0 <= j < |argv| && Faults(m0, d, sz, argv, j)
  {
    hide Sp, UserOk, WrappedSp, NoTable;
    forall j | 0 <= j < |argv|
      ensures !Faults(m0, d, sz, argv, j)
    {
      if j > i && i < MAXARG {
        SpFalls(sz, argv, i + 1, j);
      } else if j < i {
        SpFalls(sz, argv, j + 1, i);
      }
    }
  }

  lemma StoredDir(m: Mem, m': Mem, d: nat, va: nat, p: seq<nat>)
    requires Stored(m, m', d, va, p)
    ensures m'[d] == m[d]
  {
    if Backs(m, d, d) {
      BackingIsNotPart(m, d, d);
    }
  }

  lemma SpStart(sz: nat, argv: seq<seq<nat>>, m: Mem, d: nat)
    requires StackReady(m, d, sz)
    ensures Sp(sz, argv, 0) == sz && Strings(m, d, sz, argv, 0) && 2 * PGSIZE <= sz <= KERNBASE && sz % PGSIZE == 0
  {
  }

  lemma SpIs(sz: nat, argv: seq<seq<nat>>, i: nat)
    requires i < |argv|
    ensures Sp(sz, argv, i + 1) == Align(Sp(sz, argv, i) - (|argv[i]| + 1))
  {
  }

  lemma StringsNext(m: Mem, d: nat, sz: nat, argv: seq<seq<nat>>, i: nat)
    requires UserOk(m, d) && i < |argv| && Strings(m, d, sz, argv, i) && Sp(sz, argv, i + 1) >= 0
    requires Holds(m, d, Sp(sz, argv, i + 1), argv[i] + [0])
    ensures Strings(m, d, sz, argv, i + 1)
  {
    assert InPlace(m, d, sz, argv, i);
  }

  lemma SpFirst(sz: nat, argv: seq<seq<nat>>)
    ensures Sp(sz, argv, 0) == sz
  {
  }
}
