/** begin_op's reservation. An operation that starts reserves MAXOPBLOCKS log slots; the
    reservation keeps log_write's guard from firing exactly when the log region has room for
    LOGSIZE data blocks beside its header. */
module LogQuota {
  import opened Blocks
  import opened RedoLog
  import opened LogRuns
  import opened LogSafety

  // ---------------------------------------------------------------- sums over running operations

  /** Slots reserved and not yet taken. */
  ghost function Unused(slots: map<Op, nat>): (u: int)
    decreases |slots|
  {
    if |slots| == 0 then 0
    else
      var op :| op in slots;
      MAXOPBLOCKS - slots[op] + Unused(slots - {op})
  }

  lemma {:induction false} UnusedSplit(slots: map<Op, nat>, op: Op)
    requires op in slots
    ensures Unused(slots) == MAXOPBLOCKS - slots[op] + Unused(slots - {op})
    decreases |slots|
  {
    var first: Op :| first in slots && Unused(slots) == MAXOPBLOCKS - slots[first] + Unused(slots - {first});
    if first != op {
      var rest := slots - {first};
      UnusedSplit(rest, op);
      UnusedSplit(slots - {op}, first);
      assert rest - {op} == slots - {op} - {first};
    }
  }

  lemma {:induction false} UnusedBounds(slots: map<Op, nat>)
    requires forall op :: op in slots ==> slots[op] <= MAXOPBLOCKS
    ensures 0 <= Unused(slots) <= MAXOPBLOCKS * |slots|
    decreases |slots|
  {
    if |slots| != 0 {
      var op :| op in slots;
      UnusedSplit(slots, op);
      UnusedBounds(slots - {op});
    }
  }

  lemma UnusedUpdate(slots: map<Op, nat>, op: Op, n: nat)
    ensures Unused(slots[op := n])
         == Unused(slots) + MAXOPBLOCKS - n - (if op in slots then MAXOPBLOCKS - slots[op] else 0)
  {
    UnusedSplit(slots[op := n], op);
    assert slots[op := n] - {op} == slots - {op};
    if op in slots {
      UnusedSplit(slots, op);
    } else {
      assert slots - {op} == slots;
    }
  }

  // ---------------------------------------------------------------- the reservation invariant

  /** The operation has taken fewer than q slots. */
  predicate HasQuota(s: State, op: Op, q: nat) { op in s.slots && s.slots[op] < q }

  /** Every log_write of the run is made by an operation that has taken fewer than q slots. */
  ghost predicate Within(g: Region, s: State, run: seq<Step>, q: nat)
    decreases |run|
  {
    run == [] ||
    (&& Enabled(g, s, run[0])
     && (run[0].Log? ==> HasQuota(s, run[0].op, q))
     && Within(g, Do(g, s, run[0]), run[1..], q))
  }

  /** Every log_write of the run is made by an operation that still has a reserved slot. */
  ghost predicate Modest(g: Region, s: State, run: seq<Step>) { Within(g, s, run, MAXOPBLOCKS) }

  ghost predicate Reserved(s: State)
  {
    && s.slots.Keys == s.ops
    && (forall op :: op in s.slots ==> s.slots[op] <= MAXOPBLOCKS)
    && |s.lh| + Unused(s.slots) <= LOGSIZE
    && s.panic.NoPanic?
  }

  /** With slots left, the log has room, so the guard does not fire when log.size > LOGSIZE. */
  lemma QuotaMeansRoom(s: State, op: Op)
    requires Reserved(s) && HasQuota(s, op, MAXOPBLOCKS)
    ensures |s.lh| < LOGSIZE
  {
    UnusedSplit(s.slots, op);
    UnusedBounds(s.slots - {op});
  }

  lemma BeginReserves(g: Region, s: State, op: Op)
    requires Reserved(s) && Enabled(g, s, Begin(op)) && s.outstanding == |s.ops| && op !in s.ops
    ensures Reserved(Do(g, s, Begin(op)))
  {
    hide Unused, TransOk, View, CommitWrites, LogOk, RecoverWrites;
    UnusedBounds(s.slots);
    UnusedUpdate(s.slots, op, 0);
    assert |s.slots| == |s.slots.Keys|;
  }

  lemma LogReserves(g: Region, s: State, op: Op, b: nat, data: Block)
    requires Reserved(s) && Enabled(g, s, Log(op, b, data)) && HasQuota(s, op, MAXOPBLOCKS)
    requires s.outstanding >= 1 && g.size > LOGSIZE
    ensures Reserved(Do(g, s, Log(op, b, data)))
  {
    hide Unused, TransOk, View, CommitWrites, LogOk, RecoverWrites;
    QuotaMeansRoom(s, op);
    UnusedUpdate(s.slots, op, s.slots[op] + if b in s.lh then 0 else 1);
  }

  lemma EndReserves(g: Region, s: State, op: Op)
    requires Reserved(s) && Enabled(g, s, End(op)) && !s.committing
    ensures Reserved(Do(g, s, End(op)))
  {
    hide TransOk, View, CommitWrites;
    UnusedSplit(s.slots, op);
  }

  lemma OtherReserves(g: Region, s: State, a: Step)
    requires Reserved(s) && Enabled(g, s, a) && !a.Begin? && !a.Log? && !a.End?
    ensures Reserved(Do(g, s, a))
  {
    hide LogOk, RecoverWrites;
    UnusedBounds(s.slots);
  }

  lemma StepReserves(g: Region, img: Disk, s: State, a: Step)
    requires Inv(g, img, s) && Reserved(s) && Enabled(g, s, a) && g.size > LOGSIZE
    requires a.Log? ==> HasQuota(s, a.op, MAXOPBLOCKS)
    ensures Reserved(Do(g, s, a))
  {
    hide Do, Reserved, HasQuota, IdleOk, CommitOk, RecoveryOk, CacheOk, LogOk, TransOk, CanBegin;
    match a
    case Begin(op) => BeginReserves(g, s, op);
    case Log(op, b, data) =>
      assert s.ops != {};
      LogReserves(g, s, op, b, data);
    case End(op) => EndReserves(g, s, op);
    case _ => OtherReserves(g, s, a);
  }

  lemma {:induction false} ModestRunReserves(g: Region, img: Disk, s: State, run: seq<Step>, t: State)
    requires Inv(g, img, s) && Reserved(s) && g.size > LOGSIZE
    requires Run(g, s, run, t) && Modest(g, s, run)
    ensures Reserved(t)
    decreases |run|
  {
    hide Inv, Reserved, Do;
    if run != [] {
      StepKeeps(g, img, s, run[0]);
      StepReserves(g, img, s, run[0]);
      ModestRunReserves(g, img, Do(g, s, run[0]), run[1..], t);
    }
  }

  /** Log reservation: taken slots plus reserved ones never exceed LOGSIZE, and nothing panics. */
  lemma ReservationHolds(g: Region, d: Disk, s: State, run: seq<Step>, t: State)
    requires Init(g, d, s) && Run(g, s, run, t) && Modest(g, s, run) && g.size > LOGSIZE
    ensures |t.lh| + Unused(t.slots) <= LOGSIZE
    ensures t.panic.NoPanic?
  {
    hide Run, Modest, Inv, LogOk, RecoverWrites;
    InitInv(g, d, s);
    ModestRunReserves(g, Recover(g, d), s, run, t);
  }

  // ---------------------------------------------------------------- when the guard does fire

  ghost predicate Reaches(g: Region, s: State, run: seq<Step>, t: State, q: nat)
  {
    Run(g, s, run, t) && Within(g, s, run, q)
  }

  lemma {:induction false} ReachesStep(g: Region, s: State, run: seq<Step>, t: State, a: Step, q: nat)
    requires Reaches(g, s, run, t, q) && Enabled(g, t, a) && (a.Log? ==> HasQuota(t, a.op, q))
    ensures Reaches(g, s, run + [a], Do(g, t, a), q)
    decreases |run|
  {
    hide Do, Enabled, HasQuota;
    if run == [] {
      assert run + [a] == [a] && [a][1..] == [];
      assert Run(g, Do(g, t, a), [], Do(g, t, a)) && Within(g, Do(g, t, a), [], q);
      assert Run(g, s, [a], Do(g, t, a)) && Within(g, s, [a], q);
    } else {
      ReachesStep(g, Do(g, s, run[0]), run[1..], t, a, q);
      assert (run + [a])[1..] == run[1..] + [a];
    }
  }

  /** Recovery under way, nothing begun. */
  ghost predicate Booting(s: State)
  {
    && s.panic.NoPanic? && s.phase.Recovery? && s.phase.done <= |s.phase.plan|
    && s.lh == [] && s.outstanding == 0 && !s.committing
    && s.ops == {} && s.seen == {} && s.slots == map[]
  }

  lemma {:induction false} Boots(g: Region, s0: State, run0: seq<Step>, s: State, q: nat)
    returns (run: seq<Step>, t: State)
    requires Reaches(g, s0, run0, s, q) && Booting(s)
    ensures Reaches(g, s0, run, t, q) && t == s.(disk := t.disk, cache := t.cache, phase := Idle)
    ensures |t.disk| == |s.disk|
    decreases |s.phase.plan| - s.phase.done
  {
    hide Run, Within;
    if s.phase.done == |s.phase.plan| {
      ReachesStep(g, s0, run0, s, RecoveryDone, q);
      return run0 + [RecoveryDone], Do(g, s, RecoveryDone);
    } else {
      ReachesStep(g, s0, run0, s, WriteNext, q);
      run, t := Boots(g, s0, run0 + [WriteNext], Do(g, s, WriteNext), q);
    }
  }

  /** Three operations that take what they reserved, or two that each log as much as a chunk may. */
  predicate Plan(n: nat, q: nat) { (n == 3 && q == MAXOPBLOCKS) || (n == 2 && q == CHUNKBLOCKS) }

  /** Slots operation `op` has taken when k slots are taken, q by each operation in turn. */
  function Took(k: nat, op: nat, q: nat): nat
    requires op < 3
  {
    if k <= q * op then 0 else if k >= q * (op + 1) then q else k - q * op
  }

  /** The operation whose turn it is. */
  function Taker(k: nat, n: nat, q: nat): (op: nat)
    requires Plan(n, q) && k < n * q
    ensures op < n && Took(k, op, q) < q && Took(k + 1, op, q) == Took(k, op, q) + 1
    ensures forall other: nat :: other < n && other != op ==> Took(k + 1, other, q) == Took(k, other, q)
  {
    if n == 3 then k / MAXOPBLOCKS else k / CHUNKBLOCKS
  }

  /** n operations are running and have logged the first k blocks of `home`. */
  ghost predicate Filled(s: State, home: seq<nat>, k: nat, n: nat, q: nat)
    requires k <= |home|
  {
    && s.panic.NoPanic? && s.phase.Idle? && !s.committing && s.outstanding == n && s.lh == home[..k]
    && s.ops == s.seen == (if n == 3 then {0, 1, 2} else {0, 1})
    && s.slots == if n == 3 then map[0 := Took(k, 0, q), 1 := Took(k, 1, q), 2 := Took(k, 2, q)]
                  else map[0 := Took(k, 0, q), 1 := Took(k, 1, q)]
  }

  /** Distinct home blocks, enough to fill the log. */
  ghost predicate HomeBlocks(g: Region, d: Disk, home: seq<nat>)
  {
    && |home| >= LOGSIZE
    && (forall i :: 0 <= i < |home| ==> g.Home(d, home[i]))
    && (forall i, j :: 0 <= i < j < |home| ==> home[i] != home[j])
  }

  /** A block brought into the cache, if it is not there already. */
  lemma InCache(g: Region, s0: State, run0: seq<Step>, s: State, b: nat, q: nat) returns (run: seq<Step>, t: State)
    requires Reaches(g, s0, run0, s, q) && s.panic.NoPanic? && b < |s.disk|
    ensures Reaches(g, s0, run, t, q) && b in t.cache && t == s.(cache := t.cache)
  {
    hide Run, Within;
    if b in s.cache {
      return run0, s;
    }
    ReachesStep(g, s0, run0, s, Load(b), q);
    return run0 + [Load(b)], Do(g, s, Load(b));
  }

  /** One more log_write, of a block not yet logged. */
  lemma Logged(g: Region, s: State, home: seq<nat>, k: nat, n: nat, q: nat)
    requires Plan(n, q) && k < |home| && k < LOGSIZE && k < g.size - 1 && home[k] !in home[..k]
    requires Filled(s, home, k, n, q) && g.Home(s.disk, home[k]) && home[k] in s.cache
    ensures var a := Log(Taker(k, n, q), home[k], ZeroBlock());
      && Enabled(g, s, a) && HasQuota(s, a.op, q)
      && Filled(Do(g, s, a), home, k + 1, n, q) && Do(g, s, a).disk == s.disk
  {
    hide Took, TransOk, LogOk, CommitWrites, RecoverWrites, View;
    var op := Taker(k, n, q);
    assert home[..k] + [home[k]] == home[..k + 1];
    assert s.slots[op := Took(k + 1, op, q)] ==
      if n == 3 then map[0 := Took(k + 1, 0, q), 1 := Took(k + 1, 1, q), 2 := Took(k + 1, 2, q)]
      else map[0 := Took(k + 1, 0, q), 1 := Took(k + 1, 1, q)];
  }

  lemma FillOne(g: Region, s0: State, run0: seq<Step>, s: State, home: seq<nat>, k: nat, n: nat, q: nat)
    returns (run: seq<Step>, t: State)
    requires Plan(n, q) && Reaches(g, s0, run0, s, q) && HomeBlocks(g, s.disk, home)
    requires k < LOGSIZE && k < g.size - 1 && Filled(s, home, k, n, q)
    ensures Reaches(g, s0, run, t, q) && Filled(t, home, k + 1, n, q) && t.disk == s.disk
  {
    hide Reaches, Took, Do, Enabled, HasQuota;
    run, t := InCache(g, s0, run0, s, home[k], q);
    Logged(g, t, home, k, n, q);
    var a := Log(Taker(k, n, q), home[k], ZeroBlock());
    ReachesStep(g, s0, run, t, a, q);
    run, t := run + [a], Do(g, t, a);
  }

  /** The number of slots at which log_write's guard fires. */
  function Capacity(g: Region): (c: nat)
    requires 1 <= g.size
    ensures c <= LOGSIZE && LogFull(g, c) && (c > 0 ==> !LogFull(g, c - 1))
  {
    if g.size - 1 < LOGSIZE then g.size - 1 else LOGSIZE
  }

  lemma {:induction false} Fill(g: Region, s0: State, run0: seq<Step>, s: State, home: seq<nat>, k: nat, n: nat, q: nat)
    returns (run: seq<Step>, t: State)
    requires Plan(n, q) && Reaches(g, s0, run0, s, q) && HomeBlocks(g, s.disk, home) && 1 <= g.size
    requires k <= Capacity(g) && Filled(s, home, k, n, q)
    ensures Reaches(g, s0, run, t, q) && Filled(t, home, Capacity(g), n, q) && t.disk == s.disk
    decreases Capacity(g) - k
  {
    hide Run, Within, Filled;
    if k == Capacity(g) {
      return run0, s;
    }
    run, t := FillOne(g, s0, run0, s, home, k, n, q);
    run, t := Fill(g, s0, run, t, home, k + 1, n, q);
  }

  lemma BeginAll(g: Region, s0: State, run0: seq<Step>, s: State, home: seq<nat>, n: nat, q: nat)
    returns (run: seq<Step>, t: State)
    requires Plan(n, q) && Reaches(g, s0, run0, s, q) && HomeBlocks(g, s.disk, home)
    requires s.phase.Idle? && s.panic.NoPanic? && s.lh == [] && s.outstanding == 0 && !s.committing
    requires s.ops == {} && s.seen == {} && s.slots == map[]
    ensures Reaches(g, s0, run, t, q) && Filled(t, home, 0, n, q) && t.disk == s.disk
  {
    hide Run, Within;
    ReachesStep(g, s0, run0, s, Begin(0), q);
    var s1 := Do(g, s, Begin(0));
    ReachesStep(g, s0, run0 + [Begin(0)], s1, Begin(1), q);
    run, t := run0 + [Begin(0)] + [Begin(1)], Do(g, s1, Begin(1));
    if n == 3 {
      ReachesStep(g, s0, run, t, Begin(2), q);
      run, t := run + [Begin(2)], Do(g, t, Begin(2));
    }
  }

  /** The operations can fill the log while each stays within its q slots. */
  lemma LogFills(g: Region, d: Disk, s: State, home: seq<nat>, n: nat, q: nat) returns (run: seq<Step>, t: State)
    requires Plan(n, q) && Init(g, d, s) && HomeBlocks(g, d, home)
    ensures Reaches(g, s, run, t, q) && Filled(t, home, Capacity(g), n, q) && |t.disk| == |d|
  {
    assert Reaches(g, s, [], s, q);
    hide Run, Within, Filled;
    run, t := Boots(g, s, [], s, q);
    run, t := BeginAll(g, s, run, t, home, n, q);
    run, t := Fill(g, s, run, t, home, 0, n, q);
  }

  /** A full log: one more log_write of a new block panics, if it has a quota left for it. */
  lemma OneTooMany(g: Region, d: Disk, s: State, home: seq<nat>, n: nat, q: nat) returns (run: seq<Step>, t: State)
    requires Plan(n, q) && Init(g, d, s) && HomeBlocks(g, d, home) && Capacity(g) < |home| && Capacity(g) < n * q
    ensures Reaches(g, s, run, t, q) && t.panic.TooBig? && t.seen == (if n == 3 then {0, 1, 2} else {0, 1})
  {
    hide Run, Within, Took;
    run, t := LogFills(g, d, s, home, n, q);
    var k := Capacity(g);
    run, t := InCache(g, s, run, t, home[k], q);
    var a := Log(Taker(k, n, q), home[k], ZeroBlock());
    ReachesStep(g, s, run, t, a, q);
    run, t := run + [a], Do(g, t, a);
  }

  /** If the log region has LOGSIZE blocks or fewer, header included, three operations that stay
      within their reservations can make log_write panic. */
  lemma SmallLogPanics(g: Region, d: Disk, s: State, home: seq<nat>) returns (run: seq<Step>, t: State)
    requires Init(g, d, s) && HomeBlocks(g, d, home) && g.size <= LOGSIZE
    ensures Run(g, s, run, t) && Modest(g, s, run) && t.panic.TooBig?
  {
    hide Run, Within;
    run, t := OneTooMany(g, d, s, home, 3, MAXOPBLOCKS);
  }

  /** In a log of any size, two operations that log no more blocks than one chunk of filewrite may (ChunkBound)
      can make log_write panic: begin_op has let both in, having reserved MAXOPBLOCKS slots for each. */
  lemma TwoChunksPanic(g: Region, d: Disk, s: State, home: seq<nat>) returns (run: seq<Step>, t: State)
    requires Init(g, d, s) && HomeBlocks(g, d, home) && |home| > LOGSIZE
    ensures Run(g, s, run, t) && Within(g, s, run, CHUNKBLOCKS) && t.panic.TooBig? && t.seen == {0, 1}
  {
    hide Run, Within;
    run, t := OneTooMany(g, d, s, home, 2, CHUNKBLOCKS);
  }

  /** In a log of any size, three operations that have taken exactly the slots they reserved panic
      when one of them logs an already logged block again: the guard runs before the absorption
      scan. So "at most MAXOPBLOCKS distinct blocks per operation" does not keep log_write safe;
      a slot left at each log_write does (ReservationIffRoom). */
  lemma AbsorbedWriteCanPanic(g: Region, d: Disk, s: State, home: seq<nat>)
    returns (run: seq<Step>, t: State, a: Step)
    requires Init(g, d, s) && HomeBlocks(g, d, home) && g.size > LOGSIZE
    ensures Run(g, s, run, t) && Modest(g, s, run) && t.panic.NoPanic?
    ensures forall op :: op in t.slots ==> t.slots[op] <= MAXOPBLOCKS
    ensures a.Log? && a.b in t.lh && Enabled(g, t, a) && Do(g, t, a).panic.TooBig?
  {
    hide Run, Within;
    run, t := LogFills(g, d, s, home, 3, MAXOPBLOCKS);
    run, t := InCache(g, s, run, t, home[0], MAXOPBLOCKS);
    a := Log(0, home[0], ZeroBlock());
    assert t.lh[0] == home[0] && Capacity(g) == LOGSIZE;
    assert LogFull(g, |t.lh|) && Enabled(g, t, a);
  }

  /** The reservation protects log_write exactly when the log region has more than LOGSIZE blocks.
      (mkfs makes it LOGSIZE blocks.) */
  lemma ReservationIffRoom(g: Region, d: Disk, s: State, home: seq<nat>)
    requires Init(g, d, s) && HomeBlocks(g, d, home)
    ensures (forall run, t :: Run(g, s, run, t) && Modest(g, s, run) ==> t.panic.NoPanic?) <==> g.size > LOGSIZE
  {
    if g.size > LOGSIZE {
      forall run, t | Run(g, s, run, t) && Modest(g, s, run)
        ensures t.panic.NoPanic?
      {
        ReservationHolds(g, d, s, run, t);
      }
    } else {
      var run, t := SmallLogPanics(g, d, s, home);
    }
  }
}
