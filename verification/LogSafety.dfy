/** Crash safety and atomicity of operations over every run of the logging system. */
module LogSafety {
  import opened Blocks
  import opened RedoLog
  import opened CrashAtomicity
  import opened LogRuns

  lemma ReplayExtends(img: Disk, hist: seq<Entry>, e: Entry)
    ensures Replay(img, hist + [e]) == Put(Replay(img, hist), e.w)
  {
    assert (hist + [e])[..|hist|] == hist;
  }

  /** The writes a commit plans: log slots, header, home blocks with the cache contents, header. */
  lemma PlannedWrite(g: Region, d: Disk, v: Disk, lh: seq<nat>, k: nat)
    requires CommitReady(g, d, v, lh) && lh != [] && k < |CommitWrites(g, d, v, lh)|
    ensures var w := CommitWrites(g, d, v, lh)[k];
      && w.b < |d|
      && (k <= |lh| || k == 2 * |lh| + 1 ==> g.Has(w.b))
      && (|lh| < k <= 2 * |lh| ==> w.b == lh[k - |lh| - 1] && w.data == v[w.b])
  {
    hide Apply, PutHeader, Entries, Word;
    var n := |lh|;
    assert forall i :: 0 <= i < n ==> g.Home(d, lh[i]);
    if n < k <= 2 * n {
      LogSlot(g, d, v, lh, n, k - n - 1);
      assert LogWrites(g, v, lh)[..n] == LogWrites(g, v, lh);
    }
  }

  // ---------------------------------------------------------------- one step at a time

  lemma InitInv(g: Region, d: Disk, s: State)
    requires Init(g, d, s)
    ensures Inv(g, Recover(g, d), s)
  {
    assert RecoverWrites(g, d)[..0] == [];
  }

  lemma BeginKeeps(g: Region, img: Disk, s: State, op: Op)
    requires Inv(g, img, s) && Enabled(g, s, Begin(op))
    ensures Inv(g, img, Do(g, s, Begin(op)))
  {
    hide LogOk, TransOk, Entries, Word, Replay, CommitReady, CommitWrites, RecoverWrites, Apply;
    var t := Do(g, s, Begin(op));
    assert View(t) == View(s);
  }

  lemma LogKeeps(g: Region, img: Disk, s: State, op: Op, b: nat, data: Block)
    requires Inv(g, img, s) && Enabled(g, s, Log(op, b, data))
    ensures Inv(g, img, Do(g, s, Log(op, b, data)))
  {
    hide LogOk, Entries, Word, CommitReady, CommitWrites, RecoverWrites, Apply, Replay, CommitOk, RecoveryOk;
    var t := Do(g, s, Log(op, b, data));
    if t.panic.TooBig? {
      assert View(t) == View(s);
    } else {
      assert s.phase.Idle?;
      ReplayExtends(img, s.hist, Entry(op, Write(b, data)));
      assert t.hist[..t.durable] == s.hist[..s.durable];
      assert forall c: nat :: c < |s.disk| && c != b ==> Contents(t, c) == Contents(s, c);
    }
  }

  lemma EndKeeps(g: Region, img: Disk, s: State, op: Op)
    requires Inv(g, img, s) && Enabled(g, s, End(op))
    ensures Inv(g, img, Do(g, s, End(op)))
  {
    hide LogOk, Entries, Word, CommitWrites, RecoverWrites, Replay, RecoveryOk;
    var t := Do(g, s, End(op));
    assert s.phase.Idle? && !s.committing;
    assert View(t) == View(s);
    assert |s.ops - {op}| == |s.ops| - 1;
    if t.phase.Commit? {
      assert t.ops == {};
      assert t.phase.plan[..0] == [];
      assert CommitReady(g, s.disk, View(s), s.lh);
      forall b | b in t.cache && t.cache[b].dirty
        ensures exists i :: Pending(i, 0, |t.lh|) && i < |t.lh| && t.lh[i] == b
      {
        var i :| 0 <= i < |t.lh| && t.lh[i] == b;
        assert Pending(i, 0, |t.lh|);
      }
    }
  }

  lemma CacheStepKeeps(g: Region, img: Disk, s: State, a: Step)
    requires Inv(g, img, s) && Enabled(g, s, a) && (a.Load? || a.Recycle?)
    ensures Inv(g, img, Do(g, s, a))
  {
    hide LogOk, TransOk, Entries, Word, Replay, CommitReady, CommitWrites, RecoverWrites, Apply;
    var t := Do(g, s, a);
    assert View(t) == View(s);
  }

  lemma CommitDoneKeeps(g: Region, img: Disk, s: State)
    requires Inv(g, img, s) && Enabled(g, s, CommitDone)
    ensures Inv(g, img, Do(g, s, CommitDone))
    ensures Do(g, s, CommitDone).durable == |s.hist|
  {
    hide LogOk, Entries, Word, CommitWrites, RecoverWrites, Replay, Apply, Put, HeadWrite, InstallWrites, PutHeader;
    var t := Do(g, s, CommitDone);
    assert View(t) == View(s);
    if s.phase.Commit? {
      var Commit(base, view, plan, done) := s.phase;
      CommitEndsAsRecovery(g, base, view, s.lh);
      var first := LogWrites(g, view, s.lh) + [HeadWrite(g, base, s.lh)];
      ApplyConcat(base, first, RecoverWrites(g, CommitPoint(g, base, view, s.lh)));
      assert plan[..done] == plan;
      RecoveredIsFixed(g, CommitPoint(g, base, view, s.lh));
      forall b: nat | b < |img| && !g.Has(b)
        ensures s.disk[b] == view[b]
      {
        RecoverCommitted(g, base, view, s.lh, b);
      }
      assert s.hist[..s.durable] == s.hist;
    }
  }

  lemma CrashKeeps(g: Region, img: Disk, s: State)
    requires Inv(g, img, s) && Enabled(g, s, Crash)
    ensures Inv(g, img, Do(g, s, Crash))
  {
    hide LogOk, Entries, Word, CommitWrites, RecoverWrites, Replay, IdleOk, CommitOk;
    CrashNow(g, img, s);
    assert RecoverWrites(g, s.disk)[..0] == [];
  }

  lemma RecoveryDoneKeeps(g: Region, img: Disk, s: State)
    requires Inv(g, img, s) && Enabled(g, s, RecoveryDone)
    ensures Inv(g, img, Do(g, s, RecoveryDone))
  {
    hide Entries, Word, CommitWrites, RecoverWrites, Apply, Replay, PutHeader, HeadWrite, InstallWrites;
    var t := Do(g, s, RecoveryDone);
    assert s.phase.plan[..s.phase.done] == s.phase.plan;
    RecoveredIsFixed(g, s.phase.base);
    assert s.hist[..s.durable] == s.hist;
    assert forall b: nat :: b < |s.disk| ==> Contents(t, b) == s.disk[b];
  }

  lemma RecoveryWriteKeeps(g: Region, img: Disk, s: State)
    requires Inv(g, img, s) && Enabled(g, s, WriteNext) && s.phase.Recovery?
    ensures Inv(g, img, Do(g, s, WriteNext))
  {
    hide Entries, Word, Replay, Apply, PutHeader;
    var Recovery(base, plan, done) := s.phase;
    ApplyPrefix(base, plan, done);
    RecoveryIdempotent(g, base, done + 1);
    assert plan[done].b < |base|;
  }

  lemma CommitWriteDisk(g: Region, img: Disk, s: State)
    requires Inv(g, img, s) && Enabled(g, s, WriteNext) && s.phase.Commit?
    ensures var t := Do(g, s, WriteNext);
      Shape(g, img, t) && CacheOk(t) && t.disk == CommitCut(g, s.phase.base, s.phase.view, s.lh, s.phase.done + 1)
  {
    hide Apply, CommitWrites, LogOk, Recover, Entries, Word, Replay, View, Whole, SameHome;
    var Commit(base, view, plan, done) := s.phase;
    ApplyPrefix(base, plan, done);
    assert g.Home(base, s.lh[0]);
    CommitCutRecovers(g, base, view, s.lh, done + 1, s.lh[0]);
    PlannedWrite(g, base, view, s.lh, done);
  }

  lemma CommitWriteView(g: Region, img: Disk, s: State)
    requires Inv(g, img, s) && Enabled(g, s, WriteNext) && s.phase.Commit?
    ensures SameHome(g, View(Do(g, s, WriteNext)), s.phase.view)
  {
    hide LogOk, Entries, Word, CommitWrites, Replay, Apply;
    var Commit(base, view, plan, done) := s.phase;
    var t := Do(g, s, WriteNext);
    PlannedWrite(g, base, view, s.lh, done);
    forall b: nat | b < |img| && !g.Has(b)
      ensures View(t)[b] == view[b]
    {
      if b == plan[done].b {
        assert Contents(t, b) == plan[done].data;
      } else {
        assert Contents(t, b) == Contents(s, b);
      }
    }
  }

  lemma CommitWritePending(g: Region, img: Disk, s: State, b: nat)
    requires Inv(g, img, s) && Enabled(g, s, WriteNext) && s.phase.Commit?
    requires var t := Do(g, s, WriteNext); b in t.cache && t.cache[b].dirty
    ensures exists i :: Pending(i, s.phase.done + 1, |s.lh|) && i < |s.lh| && s.lh[i] == b
  {
    hide LogOk, Entries, Word, CommitWrites, Replay, Apply, CommitReady, View;
    var Commit(base, view, plan, done) := s.phase;
    PlannedWrite(g, base, view, s.lh, done);
    var i :| Pending(i, done, |s.lh|) && i < |s.lh| && s.lh[i] == b;
    assert Pending(i, done + 1, |s.lh|);
  }

  lemma CommitWriteKeeps(g: Region, img: Disk, s: State)
    requires Inv(g, img, s) && Enabled(g, s, WriteNext) && s.phase.Commit?
    ensures Inv(g, img, Do(g, s, WriteNext))
  {
    hide LogOk, Entries, Word, CommitWrites, Replay, Apply, CommitReady, View, TransOk;
    var t := Do(g, s, WriteNext);
    CommitWriteDisk(g, img, s);
    CommitWriteView(g, img, s);
    forall b | b in t.cache && t.cache[b].dirty
      ensures exists i :: Pending(i, t.phase.done, |t.lh|) && i < |t.lh| && t.lh[i] == b
    {
      CommitWritePending(g, img, s, b);
    }
    assert t.hist == s.hist;
    assert Whole(t);
  }

  lemma StepKeeps(g: Region, img: Disk, s: State, a: Step)
    requires Inv(g, img, s) && Enabled(g, s, a)
    ensures Inv(g, img, Do(g, s, a))
  {
    hide Inv, Do;
    match a
    case Begin(op) => BeginKeeps(g, img, s, op);
    case Log(op, b, data) => LogKeeps(g, img, s, op, b, data);
    case End(op) => EndKeeps(g, img, s, op);
    case WriteNext => if s.phase.Commit? { CommitWriteKeeps(g, img, s); } else { RecoveryWriteKeeps(g, img, s); }
    case CommitDone => CommitDoneKeeps(g, img, s);
    case Load(_) => CacheStepKeeps(g, img, s, a);
    case Recycle(_) => CacheStepKeeps(g, img, s, a);
    case Crash => CrashKeeps(g, img, s);
    case RecoveryDone => RecoveryDoneKeeps(g, img, s);
  }

  lemma {:induction false} RunKeeps(g: Region, img: Disk, s: State, run: seq<Step>, t: State)
    requires Inv(g, img, s) && Run(g, s, run, t)
    ensures Inv(g, img, t)
    decreases |run|
  {
    if run != [] {
      StepKeeps(g, img, s, run[0]);
      RunKeeps(g, img, Do(g, s, run[0]), run[1..], t);
    }
  }

  // ---------------------------------------------------------------- the theorems

  lemma CrashIdle(g: Region, img: Disk, s: State)
    requires Inv(g, img, s) && s.phase.Idle?
    ensures SameHome(g, Recover(g, s.disk), Replay(img, s.hist[..s.durable]))
  {
    hide Recover, Replay, View, CacheOk, Whole, TransOk, Word, Entries;
    forall b: nat | b < |img| && !g.Has(b)
      ensures Recover(g, s.disk)[b] == s.disk[b]
    {
      EmptyHeader(s.disk[g.start]);
      RecoverMisses(g, s.disk, b);
    }
  }

  lemma EmptyHeader(h: Block)
    requires Word(h, 0) == 0
    ensures Entries(h) == []
  {
  }

  lemma CrashCommit(g: Region, img: Disk, s: State)
    requires Inv(g, img, s) && s.phase.Commit?
    ensures SameHome(g, Recover(g, s.disk), Replay(img, s.hist[..s.durable]))
  {
    hide Recover, Replay, View, CacheOk, Whole, TransOk, CommitWrites, CommitCut, LogOk;
    var Commit(base, view, plan, done) := s.phase;
    assert done > |s.lh| ==> s.hist[..s.durable] == s.hist;
    forall b: nat | b < |img| && !g.Has(b)
      ensures Recover(g, s.disk)[b] == Replay(img, s.hist[..s.durable])[b]
    {
      CommitCutRecovers(g, base, view, s.lh, done, b);
    }
  }

  /** In any state that satisfies the invariant, recovery yields the committed prefix. */
  lemma CrashNow(g: Region, img: Disk, s: State)
    requires Inv(g, img, s)
    ensures SameHome(g, Recover(g, s.disk), Replay(img, s.hist[..s.durable]))
  {
    hide Recover, Replay, View, CacheOk, TransOk, SameHome, RecoverWrites, Apply, IdleOk, CommitOk;
    match s.phase
    case Idle => CrashIdle(g, img, s);
    case Commit(_, _, _, _) => CrashCommit(g, img, s);
    case Recovery(base, plan, done) =>
      RecoveryIdempotent(g, base, done);
      assert s.hist[..s.durable] == s.hist;
  }

  lemma ViewNow(g: Region, img: Disk, s: State)
    requires Inv(g, img, s) && !s.phase.Recovery?
    ensures SameHome(g, View(s), Replay(img, s.hist))
  {
    hide LogOk, Recover, Replay, Apply, RecoverWrites, CommitWrites, CacheOk, Whole;
    if s.phase.Commit? {
      forall b: nat | b < |img| && !g.Has(b)
        ensures View(s)[b] == Replay(img, s.hist)[b]
      {
        assert View(s)[b] == s.phase.view[b];
      }
    }
  }

  /** Crash safety over whole runs. Stop a run anywhere, crash, let recovery be cut any number of
      times: the home blocks are those of the boot image after the committed prefix of the
      log_writes, and every operation lies wholly inside or wholly outside that prefix. While the
      system is up, the cache shows every log_write made so far, and commit overlaps no operation. */
  lemma RunsAreCrashSafe(g: Region, d: Disk, s: State, run: seq<Step>, t: State, cuts: seq<nat>)
    requires Init(g, d, s) && Run(g, s, run, t)
    ensures LogOk(g, t.disk) && TransOk(g, t.disk, t.lh) && |t.disk| == |d| && t.durable <= |t.hist|
    ensures SameHome(g, Recover(g, Cuts(g, t.disk, cuts)), Replay(Recover(g, d), t.hist[..t.durable]))
    ensures forall i, j :: 0 <= i < t.durable <= j < |t.hist| ==> t.hist[i].op != t.hist[j].op
    ensures forall i :: 0 <= i < t.durable ==> t.hist[i].op !in t.ops
    ensures !t.phase.Recovery? ==> SameHome(g, View(t), Replay(Recover(g, d), t.hist))
    ensures t.committing ==> t.ops == {}
    ensures t.panic != Committing && t.panic != OutsideTrans
  {
    hide LogOk, Recover, Replay, View, Run, Apply, RecoverWrites, CommitWrites, CommitReady, TransOk, CacheOk;
    InitInv(g, d, s);
    RunKeeps(g, Recover(g, d), s, run, t);
    CrashNow(g, Recover(g, d), t);
    InterruptedRecoveries(g, t.disk, cuts);
    if !t.phase.Recovery? {
      ViewNow(g, Recover(g, d), t);
    }
  }

  lemma StepKeepsCommitted(g: Region, img: Disk, s: State, a: Step)
    requires Inv(g, img, s) && Enabled(g, s, a)
    ensures var t := Do(g, s, a);
      s.durable <= |s.hist| && s.durable <= t.durable <= |t.hist| && s.hist[..s.durable] == t.hist[..s.durable]
  {
    hide LogOk, Recover, Replay, View, Apply, RecoverWrites, CommitWrites, CommitReady, TransOk, CacheOk,
         IdleOk, RecoveryOk, Whole;
  }

  lemma DurableBound(g: Region, img: Disk, s: State)
    requires Inv(g, img, s)
    ensures s.durable <= |s.hist|
  {
  }

  /** A committed log_write is never lost, whatever runs or crashes follow. */
  lemma {:induction false} CommittedStays(g: Region, img: Disk, s: State, run: seq<Step>, t: State)
    requires Inv(g, img, s) && Run(g, s, run, t)
    ensures s.durable <= |s.hist| && s.durable <= t.durable <= |t.hist|
    ensures s.hist[..s.durable] == t.hist[..s.durable]
    decreases |run|
  {
    hide Do, Inv, Enabled;
    DurableBound(g, img, s);
    if run != [] {
      StepKeeps(g, img, s, run[0]);
      StepKeepsCommitted(g, img, s, run[0]);
      CommittedStays(g, img, Do(g, s, run[0]), run[1..], t);
    }
  }

  // ---------------------------------------------------------------- what a crash goes back to

  /** The system is up and no operation is between begin_op and end_op. */
  ghost predicate Quiet(u: State) { u.ops == {} && !u.phase.Recovery? }

  /** After k steps of the run, in the quiet state u, exactly the log_writes committed in t had been made. */
  ghost predicate CommittedAt(g: Region, s: State, run: seq<Step>, t: State, k: nat, u: State)
  {
    && t.durable <= |t.hist|
    && (t.durable > 0 ==> k <= |run| && Run(g, s, run[..k], u) && Quiet(u) && u.hist == t.hist[..t.durable])
  }

  lemma {:induction false} RunSnoc(g: Region, s: State, run: seq<Step>, t: State, a: Step)
    requires Run(g, s, run, t) && Enabled(g, t, a)
    ensures Run(g, s, run + [a], Do(g, t, a))
    decreases |run|
  {
    hide Do, Enabled;
    if run == [] {
      assert run + [a] == [a] && [a][1..] == [];
      assert Run(g, Do(g, t, a), [], Do(g, t, a));
    } else {
      RunSnoc(g, Do(g, s, run[0]), run[1..], t, a);
      assert (run + [a])[1..] == run[1..] + [a];
    }
  }

  /** Only the header write of a commit makes log_writes durable, and it makes all of them. */
  lemma DurableStep(g: Region, img: Disk, s: State, a: Step)
    requires Inv(g, img, s) && Enabled(g, s, a)
    ensures var t := Do(g, s, a);
      && t.durable <= |t.hist| && s.durable <= |s.hist|
      && ((t.durable == s.durable && t.hist[..t.durable] == s.hist[..s.durable])
          || (Quiet(s) && t.durable == |t.hist| && t.hist == s.hist))
  {
    hide LogOk, Recover, Replay, View, Apply, RecoverWrites, CommitWrites, CommitReady, TransOk, CacheOk,
         IdleOk, CommitOk, RecoveryOk, Whole;
  }

  lemma {:induction false} FindQuiet(g: Region, img: Disk, s0: State, run0: seq<Step>, s: State, k0: nat, u0: State,
                                     run: seq<Step>, t: State)
    returns (k: nat, u: State)
    requires Run(g, s0, run0, s) && Inv(g, img, s) && CommittedAt(g, s0, run0, s, k0, u0) && Run(g, s, run, t)
    ensures CommittedAt(g, s0, run0 + run, t, k, u)
    decreases |run|
  {
    hide Do, Inv, Quiet;
    if run == [] {
      assert run0 + run == run0;
      return k0, u0;
    }
    var s1 := Do(g, s, run[0]);
    RunSnoc(g, s0, run0, s, run[0]);
    StepKeeps(g, img, s, run[0]);
    DurableStep(g, img, s, run[0]);
    assert run0 + [run[0]] + run[1..] == run0 + run;
    assert (run0 + [run[0]])[..|run0|] == run0;
    assert k0 <= |run0| ==> (run0 + [run[0]])[..k0] == run0[..k0];
    if s1.durable == s.durable && s1.hist[..s1.durable] == s.hist[..s.durable] {
      k, u := FindQuiet(g, img, s0, run0 + [run[0]], s1, k0, u0, run[1..], t);
    } else {
      assert s1.hist[..s1.durable] == s.hist;
      k, u := FindQuiet(g, img, s0, run0 + [run[0]], s1, |run0|, s, run[1..], t);
    }
  }

  /** Stop a run anywhere, crash, let recovery be cut any number of times: the home blocks are those the cache
      showed at an earlier moment of the run when no operation was under way, or those of the boot image. */
  lemma CrashesLandOnQuiet(g: Region, d: Disk, s: State, run: seq<Step>, t: State, cuts: seq<nat>)
    returns (k: nat, u: State)
    requires Init(g, d, s) && Run(g, s, run, t)
    ensures LogOk(g, t.disk) && |t.disk| == |d| && CommittedAt(g, s, run, t, k, u)
    ensures t.durable == 0 ==> SameHome(g, Recover(g, Cuts(g, t.disk, cuts)), Recover(g, d))
    ensures t.durable > 0 ==>
      |u.disk| == |d| && Quiet(u) && SameHome(g, Recover(g, Cuts(g, t.disk, cuts)), View(u))
  {
    hide LogOk, Recover, View, Run, Apply, RecoverWrites, CommitWrites, CommitReady, TransOk, CacheOk, Quiet, Inv;
    var img := Recover(g, d);
    RunsAreCrashSafe(g, d, s, run, t, cuts);
    InitInv(g, d, s);
    assert Run(g, s, [], s) by { RunNone(g, s); }
    k, u := FindQuiet(g, img, s, [], s, 0, s, run, t);
    assert [] + run == run;
    if t.durable > 0 {
      RunKeeps(g, img, s, run[..k], u);
      QuietView(g, img, u);
    } else {
      assert t.hist[..0] == [];
    }
  }

  lemma RunNone(g: Region, s: State)
    ensures Run(g, s, [], s)
  {
  }

  lemma QuietView(g: Region, img: Disk, u: State)
    requires Inv(g, img, u) && Quiet(u)
    ensures |u.disk| == |img| && SameHome(g, View(u), Replay(img, u.hist))
  {
    hide LogOk, Recover, Replay, View, Apply, RecoverWrites, CommitWrites, CacheOk, Whole;
    ViewNow(g, img, u);
  }

  /** The property depends on home blocks alone. */
  ghost predicate OfHome(g: Region, p: Disk -> bool)
  {
    forall x: Disk, y: Disk :: |x| == |y| && SameHome(g, x, y) && p(x) ==> p(y)
  }

  /** So a property of home blocks that holds of the boot image and whenever no operation is under way holds
      after every crash, however the run stood when it came. */
  lemma QuietPropertiesSurvive(g: Region, d: Disk, s: State, run: seq<Step>, t: State, cuts: seq<nat>, p: Disk -> bool)
    requires Init(g, d, s) && Run(g, s, run, t) && OfHome(g, p) && p(Recover(g, d))
    requires forall k: nat, u :: k <= |run| && Run(g, s, run[..k], u) && Quiet(u) ==> p(View(u))
    ensures LogOk(g, t.disk) && p(Recover(g, Cuts(g, t.disk, cuts)))
  {
    hide LogOk, Recover, View, Run, Apply, RecoverWrites, Quiet;
    var k, u := CrashesLandOnQuiet(g, d, s, run, t, cuts);
    var x := if t.durable == 0 then Recover(g, d) else View(u);
    assert SameHome(g, x, Recover(g, Cuts(g, t.disk, cuts)));
  }

  /** A home block changes on disk only after a header naming it is there: pinned buffers are
      not recycled, and the only writers are commit past its commit point and recovery. */
  lemma HomeWritesFollowCommit(g: Region, img: Disk, s: State, a: Step, b: nat)
    requires Inv(g, img, s) && Enabled(g, s, a)
    requires b < |s.disk| && !g.Has(b) && Do(g, s, a).disk[b] != s.disk[b]
    ensures a.WriteNext?
    ensures s.phase.Commit? ==> s.phase.done > |s.lh| && b in s.lh
    ensures s.phase.Recovery? ==> b in Entries(s.phase.base[g.start])
  {
    hide Apply, Replay, View, CacheOk, Whole, Word, Entries, PutHeader;
    if s.phase.Commit? {
      PlannedWrite(g, s.phase.base, s.phase.view, s.lh, s.phase.done);
    }
  }

  /** end_op returns from a commit only when every log_write so far is on disk for good. */
  lemma CommitMakesDurable(g: Region, img: Disk, s: State)
    requires Inv(g, img, s) && Enabled(g, s, CommitDone)
    ensures var t := Do(g, s, CommitDone);
      t.durable == |t.hist| && SameHome(g, t.disk, Replay(img, t.hist))
  {
    hide LogOk, Recover, Apply, RecoverWrites, CommitWrites, CommitReady, View, CommitOk;
    CommitDoneKeeps(g, img, s);
    assert s.hist[..|s.hist|] == s.hist;
  }
}
