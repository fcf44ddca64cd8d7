/** The process tree over every run of fork, exit, wait, sleep, wakeup, kill and the scheduler, by any
    number of processes: orphans always have a living parent, nobody sleeps in wait() beside a
    zombie child or without a living one, and every zombie is reaped once. */
module ProcTree {
  import opened ProcTable

  /** `forking[p]`: the slot process p has taken in a fork() it has not finished.
      `exited`, `reaped`: pids that have been through exit() and wait(). */
  datatype State = State(table: Table, nextpid: int, forking: map<nat, nat>, exited: set<int>, reaped: set<int>)

  datatype Step =
    | Fork(p: nat)          // allocproc in fork
    | ForkFail(p: nat)      // kalloc or copyuvm failed: the slot is given back
    | ForkParent(p: nat)    // np->parent = proc
    | ForkRun(p: nat)       // np->state = RUNNABLE
    | Exit(p: nat)
    | Wait(p: nat)
    | Sleep(p: nat, addr: int)
    | Wakeup(addr: int)
    | Kill(pid: int)
    | Schedule(p: nat)
    | Yield(p: nat)

  /** p is on a CPU, outside fork(). */
  predicate Free(s: State, p: nat) { p < |s.table| && s.table[p].state.Running? && p !in s.forking }

  predicate Mid(s: State, p: nat)
  {
    && p < |s.table| && s.table[p].state.Running? && p in s.forking && s.forking[p] < |s.table|
  }

  predicate Enabled(s: State, init: nat, a: Step)
  {
    && init < |s.table|
    && match a
       case Fork(p) => Free(s, p) && FirstUnused(s.table, 0) < |s.table|
       case ForkFail(p) => Mid(s, p) && s.table[s.forking[p]].parent == NOBODY
       case ForkParent(p) => Mid(s, p)
       case ForkRun(p) => Mid(s, p) && s.table[s.forking[p]].parent == p
       case Exit(p) => Free(s, p) && p != init
       case Wait(p) => Free(s, p)
       case Sleep(p, _) => p < |s.table| && s.table[p].state.Running?
       case Wakeup(_) => true
       case Kill(_) => true
       case Schedule(p) => p < |s.table| && s.table[p].state.Runnable?
       case Yield(p) => p < |s.table| && s.table[p].state.Running?
  }

  function Put(s: State, p: nat, q: Proc): (r: State)
    requires p < |s.table|
  {
    s.(table := s.table[p := q])
  }

  function Do(s: State, init: nat, a: Step): (r: State)
    requires Enabled(s, init, a)
  {
    match a
    case Fork(p) =>
      var i := FirstUnused(s.table, 0);
      Put(s, i, s.table[i].(state := Embryo, pid := s.nextpid)).(nextpid := s.nextpid + 1, forking := s.forking[p := i])
    case ForkFail(p) =>
      var i := s.forking[p];
      Put(s, i, s.table[i].(state := Unused)).(forking := s.forking - {p})
    case ForkParent(p) =>
      var i := s.forking[p];
      Put(s, i, s.table[i].(parent := p))
    case ForkRun(p) =>
      var i := s.forking[p];
      Put(s, i, s.table[i].(state := Runnable)).(forking := s.forking - {p})
    case Exit(p) => s.(table := Exited(s.table, p, init), exited := s.exited + {s.table[p].pid})
    case Wait(p) =>
      s.(table := AfterWait(s.table, p),
         reaped := if Waited(s.table, p).Reaped? then s.reaped + {Waited(s.table, p).pid} else s.reaped)
    case Sleep(p, addr) => Put(s, p, s.table[p].(state := Sleeping, chan := Other(addr)))
    case Wakeup(addr) => s.(table := WakeAll(s.table, Other(addr)))
    case Kill(pid) => s.(table := Killed(s.table, pid))
    case Schedule(p) => Put(s, p, s.table[p].(state := Running))
    case Yield(p) => Put(s, p, s.table[p].(state := Runnable))
  }

  /** userinit has run: init is runnable and everything else unused. */
  ghost predicate Init(s: State, init: nat)
  {
    && init < |s.table| && s.nextpid == 2 && s.forking == map[] && s.exited == {} && s.reaped == {}
    && s.table[init] == Proc(Runnable, 1, NOBODY, NoChan, false)
    && forall i :: 0 <= i < |s.table| && i != init ==> s.table[i] == Proc(Unused, 0, NOBODY, NoChan, false)
  }

  ghost predicate Run(s: State, init: nat, run: seq<Step>, t: State)
    decreases |run|
  {
    if run == [] then s == t
    else Enabled(s, init, run[0]) && Run(Do(s, init, run[0]), init, run[1..], t)
  }

  // ---------------------------------------------------------------- the invariant

  /** Past EMBRYO: it has run, or is about to. */
  predicate Started(st: PState) { Alive(st) || st.Zombie? }

  /** A process past EMBRYO, other than init, has a parent that is alive, and is not itself. */
  predicate Placed(t: Table, init: nat, i: nat)
    requires i < |t|
  {
    i != init && Started(t[i].state) ==> 0 <= t[i].parent < |t| && t[i].parent != i && Alive(t[t[i].parent].state)
  }

  ghost predicate Tree(t: Table, init: nat)
  {
    && init < |t| && Alive(t[init].state) && t[init].parent == NOBODY
    && forall i: nat :: i < |t| ==> Placed(t, init, i)
  }

  /** p does not sleep in wait() beside its zombie child i. */
  predicate Attended(t: Table, p: nat, i: nat)
    requires p < |t| && i < |t|
  {
    t[p].state.Sleeping? && t[p].chan == OnProc(p) && t[i].parent == p ==> !t[i].state.Zombie?
  }

  ghost predicate NoSleepingParent(t: Table)
  {
    forall p: nat, i: nat :: p < |t| && i < |t| ==> Attended(t, p, i)
  }

  predicate LivingChild(t: Table, p: nat, i: nat) { i < |t| && i != p && t[i].parent == p && Alive(t[i].state) }

  /** p sleeps in wait() only unkilled, and only for a child that is alive. */
  ghost predicate Waits(t: Table, p: nat)
    requires p < |t|
  {
    t[p].state.Sleeping? && t[p].chan == OnProc(p) ==> !t[p].killed && exists i: nat :: LivingChild(t, p, i)
  }

  ghost predicate Waiting(t: Table)
  {
    forall p: nat :: p < |t| ==> Waits(t, p)
  }

  /** A fork() in progress: its slot is an embryo, and the forker is alive. */
  predicate ForkOk(t: Table, forking: map<nat, nat>, p: nat)
    requires p in forking
  {
    && p < |t| && forking[p] < |t| && Alive(t[p].state) && t[forking[p]].state.Embryo?
    && (t[forking[p]].parent == NOBODY || t[forking[p]].parent == p)
  }

  /** An embryo that already has a parent belongs to that parent's fork(). */
  predicate EmbryoOk(t: Table, forking: map<nat, nat>, i: nat)
    requires i < |t|
  {
    var p := t[i].parent;
    t[i].state.Embryo? && p != NOBODY ==> 0 <= p && p in forking && forking[p] == i
  }

  ghost predicate Forks(t: Table, forking: map<nat, nat>)
  {
    && (forall i: nat :: i < |t| ==> EmbryoOk(t, forking, i))
    && (forall p :: p in forking ==> ForkOk(t, forking, p))
    && (forall p, q :: p in forking && q in forking && p != q ==> forking[p] != forking[q])
    && (forall i :: 0 <= i < |t| && t[i].state.Unused? ==> t[i].parent == NOBODY)
  }

  ghost predicate DistinctPids(t: Table, nextpid: int)
  {
    && (forall i :: 0 <= i < |t| && !t[i].state.Unused? ==> 0 < t[i].pid < nextpid)
    && (forall i, j :: 0 <= i < j < |t| && !t[i].state.Unused? && !t[j].state.Unused? ==> t[i].pid != t[j].pid)
  }

  /** The zombies are exactly the processes that have exited and not been reaped. */
  ghost predicate Ledger(t: Table, nextpid: int, exited: set<int>, reaped: set<int>)
  {
    && reaped <= exited
    && (forall x :: x in exited ==> 0 < x < nextpid)
    && (forall i :: 0 <= i < |t| && !t[i].state.Unused? ==>
         t[i].pid !in reaped && (t[i].pid in exited <==> t[i].state.Zombie?))
    && (forall x :: x in exited && x !in reaped ==> exists i :: 0 <= i < |t| && t[i].state.Zombie? && t[i].pid == x)
  }

  ghost predicate Inv(s: State, init: nat)
  {
    && Tree(s.table, init) && NoSleepingParent(s.table) && Waiting(s.table) && Forks(s.table, s.forking)
    && DistinctPids(s.table, s.nextpid) && Ledger(s.table, s.nextpid, s.exited, s.reaped)
  }

  lemma InitInv(s: State, init: nat)
    requires Init(s, init)
    ensures Inv(s, init)
  {
  }

  // ---------------------------------------------------------------- scheduling steps

  /** Nothing is born, dies or changes family: states move among the living ones only, and nobody new
      goes to sleep in wait(). */
  predicate SoftAt(q: Proc, q': Proc)
  {
    && q'.parent == q.parent && q'.pid == q.pid
    && (q'.state == q.state || (Alive(q.state) && Alive(q'.state)))
    && (q'.state.Sleeping? && q'.chan.OnProc? ==> q.state.Sleeping? && q.chan == q'.chan && q'.killed == q.killed)
  }

  ghost predicate Soft(t: Table, t': Table)
  {
    |t| == |t'| && forall i :: 0 <= i < |t| ==> SoftAt(t[i], t'[i])
  }

  lemma SoftTree(t: Table, t': Table, init: nat)
    requires Soft(t, t') && Tree(t, init)
    ensures Tree(t', init)
  {
    forall i: nat | i < |t'|
      ensures Placed(t', init, i)
    {
      assert Placed(t, init, i) && SoftAt(t[i], t'[i]);
      if 0 <= t[i].parent < |t| {
        assert SoftAt(t[t[i].parent], t'[t[i].parent]);
      }
    }
    assert SoftAt(t[init], t'[init]);
  }

  lemma SoftQuiet(t: Table, t': Table)
    requires Soft(t, t') && NoSleepingParent(t)
    ensures NoSleepingParent(t')
  {
    forall p: nat, i: nat | p < |t'| && i < |t'|
      ensures Attended(t', p, i)
    {
      assert Attended(t, p, i) && SoftAt(t[p], t'[p]) && SoftAt(t[i], t'[i]);
    }
  }

  lemma SoftWaiting(t: Table, t': Table)
    requires Soft(t, t') && Waiting(t)
    ensures Waiting(t')
  {
    forall p: nat | p < |t'| && t'[p].state.Sleeping? && t'[p].chan == OnProc(p)
      ensures Waits(t', p)
    {
      assert Waits(t, p) && SoftAt(t[p], t'[p]);
      var i: nat :| LivingChild(t, p, i);
      assert SoftAt(t[i], t'[i]) && LivingChild(t', p, i);
    }
  }

  lemma SoftForks(t: Table, t': Table, forking: map<nat, nat>)
    requires Soft(t, t') && Forks(t, forking)
    ensures Forks(t', forking)
  {
    forall p | p in forking
      ensures ForkOk(t', forking, p)
    {
      assert ForkOk(t, forking, p) && SoftAt(t[p], t'[p]) && SoftAt(t[forking[p]], t'[forking[p]]);
    }
    forall i: nat | i < |t'|
      ensures EmbryoOk(t', forking, i)
    {
      assert EmbryoOk(t, forking, i) && SoftAt(t[i], t'[i]);
    }
  }

  lemma SoftLedger(t: Table, t': Table, nextpid: int, exited: set<int>, reaped: set<int>)
    requires Soft(t, t') && DistinctPids(t, nextpid) && Ledger(t, nextpid, exited, reaped)
    ensures DistinctPids(t', nextpid) && Ledger(t', nextpid, exited, reaped)
  {
    forall x | x in exited && x !in reaped
      ensures exists i :: 0 <= i < |t'| && t'[i].state.Zombie? && t'[i].pid == x
    {
      var i :| 0 <= i < |t| && t[i].state.Zombie? && t[i].pid == x;
      assert SoftAt(t[i], t'[i]);
    }
  }

  lemma SoftKeeps(s: State, init: nat, a: Step)
    requires Inv(s, init) && Enabled(s, init, a)
    requires a.Sleep? || a.Wakeup? || a.Kill? || a.Schedule? || a.Yield?
    ensures Inv(Do(s, init, a), init)
  {
    hide Tree, NoSleepingParent, Waiting, Forks, DistinctPids, Ledger;
    var t' := Do(s, init, a).table;
    assert Soft(s.table, t');
    SoftTree(s.table, t', init);
    SoftQuiet(s.table, t');
    SoftWaiting(s.table, t');
    SoftForks(s.table, t', s.forking);
    SoftLedger(s.table, t', s.nextpid, s.exited, s.reaped);
  }

  // ---------------------------------------------------------------- one slot changes

  /** Slot i becomes q: nobody's living parent disappears, and q has a living parent if it needs one. */
  lemma PutTree(t: Table, init: nat, i: nat, q: Proc)
    requires Tree(t, init) && i < |t|
    requires Alive(t[i].state) ==> Alive(q.state)
    requires if i == init then q.parent == t[i].parent
             else Started(q.state) ==> 0 <= q.parent < |t| && q.parent != i && Alive(t[q.parent].state)
    ensures i == init ==> Alive(q.state)
    ensures Tree(t[i := q], init)
  {
    var t' := t[i := q];
    forall j: nat | j < |t|
      ensures Placed(t', init, j)
    {
      assert Placed(t, init, j);
    }
  }

  lemma PutQuiet(t: Table, i: nat, q: Proc)
    requires NoSleepingParent(t) && i < |t| && !q.state.Zombie?
    requires q.state.Sleeping? && q.chan == OnProc(i) ==>
      forall j: nat :: j < |t| && t[j].parent == i ==> !t[j].state.Zombie?
    ensures NoSleepingParent(t[i := q])
  {
    var t' := t[i := q];
    forall p: nat, j: nat | p < |t| && j < |t|
      ensures Attended(t', p, j)
    {
      assert Attended(t, p, j);
    }
  }

  /** Slot i becomes q, which no waiting parent misses and which is not itself asleep in wait(). */
  lemma PutWaiting(t: Table, i: nat, q: Proc)
    requires Waiting(t) && i < |t|
    requires Alive(t[i].state) ==> Alive(q.state) && q.parent == t[i].parent
    requires !(q.state.Sleeping? && q.chan == OnProc(i)) || (!q.killed && exists j: nat :: LivingChild(t, i, j))
    ensures Waiting(t[i := q])
  {
    var t' := t[i := q];
    forall p: nat | p < |t| && t'[p].state.Sleeping? && t'[p].chan == OnProc(p)
      ensures Waits(t', p)
    {
      assert Waits(t, p);
      var j: nat :| LivingChild(t, p, j);
      assert LivingChild(t', p, j);
    }
  }

  lemma ForkKeeps(s: State, init: nat, p: nat)
    requires Inv(s, init) && Enabled(s, init, Fork(p))
    ensures Inv(Do(s, init, Fork(p)), init)
  {
    var i := FirstUnused(s.table, 0);
    var q := s.table[i].(state := Embryo, pid := s.nextpid);
    assert !Alive(s.table[i].state);
    assert i != init;
    PutTree(s.table, init, i, q);
    PutQuiet(s.table, i, q);
    PutWaiting(s.table, i, q);
    NewFork(s.table, s.forking, p, i, q);
    NewPid(s.table, s.nextpid, s.exited, s.reaped, i, q);
  }

  lemma NewFork(t: Table, forking: map<nat, nat>, p: nat, i: nat, q: Proc)
    requires Forks(t, forking) && p < |t| && i < |t| && p !in forking && Alive(t[p].state)
    requires t[i].state.Unused? && q.state.Embryo? && q.parent == t[i].parent
    ensures Forks(t[i := q], forking[p := i])
  {
    var t', forking' := t[i := q], forking[p := i];
    forall r | r in forking'
      ensures ForkOk(t', forking', r)
    {
      if r != p {
        assert ForkOk(t, forking, r);
      }
    }
    forall j: nat | j < |t|
      ensures EmbryoOk(t', forking', j)
    {
      assert EmbryoOk(t, forking, j);
    }
    forall r | r in forking
      ensures forking[r] != i
    {
      assert ForkOk(t, forking, r);
    }
  }

  lemma NewPid(t: Table, nextpid: int, exited: set<int>, reaped: set<int>, i: nat, q: Proc)
    requires DistinctPids(t, nextpid) && Ledger(t, nextpid, exited, reaped) && nextpid > 0
    requires i < |t| && t[i].state.Unused? && q.state.Embryo? && q.pid == nextpid
    ensures DistinctPids(t[i := q], nextpid + 1) && Ledger(t[i := q], nextpid + 1, exited, reaped)
  {
    var t' := t[i := q];
    forall x | x in exited && x !in reaped
      ensures exists j :: 0 <= j < |t'| && t'[j].state.Zombie? && t'[j].pid == x
    {
      var j :| 0 <= j < |t| && t[j].state.Zombie? && t[j].pid == x;
      assert t'[j] == t[j];
    }
  }

  /** Slot i keeps its pid and stays out of the ledger's way. */
  lemma SamePid(t: Table, nextpid: int, exited: set<int>, reaped: set<int>, i: nat, q: Proc)
    requires DistinctPids(t, nextpid) && Ledger(t, nextpid, exited, reaped)
    requires i < |t| && !t[i].state.Zombie? && !q.state.Zombie?
    requires q.state.Unused? || (!t[i].state.Unused? && q.pid == t[i].pid)
    ensures DistinctPids(t[i := q], nextpid) && Ledger(t[i := q], nextpid, exited, reaped)
  {
    var t' := t[i := q];
    forall x | x in exited && x !in reaped
      ensures exists j :: 0 <= j < |t'| && t'[j].state.Zombie? && t'[j].pid == x
    {
      var j :| 0 <= j < |t| && t[j].state.Zombie? && t[j].pid == x;
      assert t'[j] == t[j];
    }
  }

  lemma ForkFailKeeps(s: State, init: nat, p: nat)
    requires Inv(s, init) && Enabled(s, init, ForkFail(p))
    ensures Inv(Do(s, init, ForkFail(p)), init)
  {
    assert ForkOk(s.table, s.forking, p);
    var i := s.forking[p];
    var q := s.table[i].(state := Unused);
    PutTree(s.table, init, i, q);
    PutQuiet(s.table, i, q);
    PutWaiting(s.table, i, q);
    EndFork(s.table, s.forking, p, q);
    SamePid(s.table, s.nextpid, s.exited, s.reaped, i, q);
  }

  lemma EndFork(t: Table, forking: map<nat, nat>, p: nat, q: Proc)
    requires Forks(t, forking) && p in forking && forking[p] < |t|
    requires !q.state.Embryo? && (q.state.Unused? ==> q.parent == NOBODY)
    ensures Forks(t[forking[p] := q], forking - {p})
  {
    assert ForkOk(t, forking, p);
    var t', forking' := t[forking[p] := q], forking - {p};
    forall r | r in forking'
      ensures ForkOk(t', forking', r)
    {
      assert ForkOk(t, forking, r);
    }
    forall j: nat | j < |t|
      ensures EmbryoOk(t', forking', j)
    {
      assert EmbryoOk(t, forking, j);
    }
  }

  lemma ForkParentKeeps(s: State, init: nat, p: nat)
    requires Inv(s, init) && Enabled(s, init, ForkParent(p))
    ensures Inv(Do(s, init, ForkParent(p)), init)
  {
    assert ForkOk(s.table, s.forking, p);
    var i := s.forking[p];
    var q := s.table[i].(parent := p);
    PutTree(s.table, init, i, q);
    PutQuiet(s.table, i, q);
    PutWaiting(s.table, i, q);
    SamePid(s.table, s.nextpid, s.exited, s.reaped, i, q);
    var t' := s.table[i := q];
    forall r | r in s.forking
      ensures ForkOk(t', s.forking, r)
    {
      assert ForkOk(s.table, s.forking, r);
    }
    forall j: nat | j < |t'|
      ensures EmbryoOk(t', s.forking, j)
    {
      assert EmbryoOk(s.table, s.forking, j);
    }
  }

  lemma ForkRunKeeps(s: State, init: nat, p: nat)
    requires Inv(s, init) && Enabled(s, init, ForkRun(p))
    ensures Inv(Do(s, init, ForkRun(p)), init)
  {
    assert ForkOk(s.table, s.forking, p);
    var i := s.forking[p];
    var q := s.table[i].(state := Runnable);
    PutTree(s.table, init, i, q);
    PutQuiet(s.table, i, q);
    PutWaiting(s.table, i, q);
    EndFork(s.table, s.forking, p, q);
    SamePid(s.table, s.nextpid, s.exited, s.reaped, i, q);
  }

  // ---------------------------------------------------------------- wait

  lemma WaitKeeps(s: State, init: nat, p: nat)
    requires Inv(s, init) && Enabled(s, init, Wait(p))
    ensures Inv(Do(s, init, Wait(p)), init)
  {
    match Waited(s.table, p)
    case Reaped(pid, i) => ReapKeeps(s, init, p, i);
    case NoChildren =>
    case MustSleep =>
      var q := s.table[p].(state := Sleeping, chan := OnProc(p));
      assert Placed(s.table, init, p);
      PutTree(s.table, init, p, q);
      PutQuiet(s.table, p, q);
      SleepWaiting(s.table, init, s.forking, p);
      SamePid(s.table, s.nextpid, s.exited, s.reaped, p, q);
      OtherForks(s.table, s.forking, p, q);
  }

  /** wait() goes to sleep beside a child that is alive. */
  lemma SleepWaiting(t: Table, init: nat, forking: map<nat, nat>, p: nat)
    requires Tree(t, init) && Waiting(t) && Forks(t, forking) && p < |t| && p !in forking && t[p].state.Running?
    requires Waited(t, p).MustSleep?
    ensures Waiting(t[p := t[p].(state := Sleeping, chan := OnProc(p))])
  {
    var i: nat :| i < |t| && t[i].parent == p;
    assert EmbryoOk(t, forking, i) && Placed(t, init, i);
    assert LivingChild(t, p, i);
    PutWaiting(t, p, t[p].(state := Sleeping, chan := OnProc(p)));
  }

  /** A process that is not forking changes state among the living. */
  lemma OtherForks(t: Table, forking: map<nat, nat>, i: nat, q: Proc)
    requires Forks(t, forking) && i < |t| && i !in forking && !t[i].state.Embryo?
    requires !q.state.Embryo? && (q.state.Unused? ==> q.parent == NOBODY)
    ensures Forks(t[i := q], forking)
  {
    var t' := t[i := q];
    forall r | r in forking
      ensures ForkOk(t', forking, r)
    {
      assert ForkOk(t, forking, r);
    }
    forall j: nat | j < |t|
      ensures EmbryoOk(t', forking, j)
    {
      assert EmbryoOk(t, forking, j);
    }
  }

  lemma ReapKeeps(s: State, init: nat, p: nat, i: nat)
    requires Inv(s, init) && Enabled(s, init, Wait(p)) && i < |s.table|
    requires Waited(s.table, p) == Reaped(s.table[i].pid, i)
    ensures Inv(Do(s, init, Wait(p)), init)
  {
    var q := Cleared(s.table[i]);
    PutTree(s.table, init, i, q);
    PutQuiet(s.table, i, q);
    PutWaiting(s.table, i, q);
    assert i in s.forking ==> ForkOk(s.table, s.forking, i);
    OtherForks(s.table, s.forking, i, q);
    ReapPids(s.table, s.nextpid, s.exited, s.reaped, i, q);
  }

  lemma ReapPids(t: Table, nextpid: int, exited: set<int>, reaped: set<int>, i: nat, q: Proc)
    requires DistinctPids(t, nextpid) && Ledger(t, nextpid, exited, reaped)
    requires i < |t| && t[i].state.Zombie? && q.state.Unused?
    ensures DistinctPids(t[i := q], nextpid) && Ledger(t[i := q], nextpid, exited, reaped + {t[i].pid})
  {
    var t' := t[i := q];
    forall x | x in exited && x !in reaped + {t[i].pid}
      ensures exists j :: 0 <= j < |t'| && t'[j].state.Zombie? && t'[j].pid == x
    {
      var j :| 0 <= j < |t| && t[j].state.Zombie? && t[j].pid == x;
      assert t'[j] == t[j];
    }
  }

  // ---------------------------------------------------------------- exit

  lemma ExitTree(t: Table, p: nat, init: nat)
    requires Tree(t, init) && p < |t| && p != init && Alive(t[p].state)
    ensures Tree(Exited(t, p, init), init)
  {
    hide Exited;
    var t' := Exited(t, p, init);
    ExitSlot(t, p, init, init);
    forall i: nat | i < |t'|
      ensures Placed(t', init, i)
    {
      assert Placed(t, init, i);
      ExitSlot(t, p, init, i);
      if 0 <= t[i].parent < |t| {
        ExitSlot(t, p, init, t[i].parent);
      }
    }
  }

  lemma ExitQuiet(t: Table, p: nat, init: nat)
    requires Tree(t, init) && NoSleepingParent(t) && p < |t| && p != init && Alive(t[p].state)
    ensures NoSleepingParent(Exited(t, p, init))
  {
    hide Exited, Tree;
    TreeAt(t, init, p);
    var t' := Exited(t, p, init);
    forall r: nat, i: nat | r < |t'| && i < |t'|
      ensures Attended(t', r, i)
    {
      assert Attended(t, r, i);
      ExitSlot(t, p, init, i);
      ExitSlot(t, p, init, r);
    }
  }

  lemma ExitWaiting(t: Table, p: nat, init: nat)
    requires Waiting(t) && p < |t| && init < |t| && p != init
    ensures Waiting(Exited(t, p, init))
  {
    hide Exited;
    var t' := Exited(t, p, init);
    forall r: nat | r < |t'| && t'[r].state.Sleeping? && t'[r].chan == OnProc(r)
      ensures Waits(t', r)
    {
      ExitSlot(t, p, init, r);
      assert Waits(t, r);
      var i: nat :| LivingChild(t, r, i);
      ExitSlot(t, p, init, i);
      assert LivingChild(t', r, i);
    }
  }

  lemma TreeAt(t: Table, init: nat, i: nat)
    requires Tree(t, init) && i < |t|
    ensures init < |t| && Placed(t, init, i)
  {
  }

  lemma ExitForks(t: Table, forking: map<nat, nat>, p: nat, init: nat)
    requires Forks(t, forking) && p < |t| && init < |t| && p !in forking && Alive(t[p].state)
    ensures Forks(Exited(t, p, init), forking)
  {
    hide Exited;
    var t' := Exited(t, p, init);
    forall r | r in forking
      ensures ForkOk(t', forking, r)
    {
      assert ForkOk(t, forking, r);
      ExitSlot(t, p, init, r);
      ExitSlot(t, p, init, forking[r]);
    }
    forall i: nat | i < |t'|
      ensures EmbryoOk(t', forking, i) && (t'[i].state.Unused? ==> t'[i].parent == NOBODY)
    {
      assert EmbryoOk(t, forking, i);
      ExitSlot(t, p, init, i);
    }
  }

  lemma ExitPids(t: Table, nextpid: int, exited: set<int>, reaped: set<int>, p: nat, init: nat)
    requires DistinctPids(t, nextpid) && Ledger(t, nextpid, exited, reaped)
    requires p < |t| && init < |t| && Alive(t[p].state)
    ensures DistinctPids(Exited(t, p, init), nextpid)
    ensures Ledger(Exited(t, p, init), nextpid, exited + {t[p].pid}, reaped)
  {
    hide Exited;
    var t' := Exited(t, p, init);
    forall i: nat | i < |t|
      ensures t'[i].pid == t[i].pid && (t'[i].state.Unused? <==> t[i].state.Unused?)
      ensures t'[i].state.Zombie? <==> i == p || t[i].state.Zombie?
    {
      ExitSlot(t, p, init, i);
    }
    ZombieMade(t, t', nextpid, exited, reaped, p);
  }

  lemma ZombieMade(t: Table, t': Table, nextpid: int, exited: set<int>, reaped: set<int>, p: nat)
    requires DistinctPids(t, nextpid) && Ledger(t, nextpid, exited, reaped)
    requires |t| == |t'| && p < |t| && Alive(t[p].state)
    requires forall i: nat :: i < |t| ==> t'[i].pid == t[i].pid && (t'[i].state.Unused? <==> t[i].state.Unused?)
    requires forall i: nat :: i < |t| ==> (t'[i].state.Zombie? <==> i == p || t[i].state.Zombie?)
    ensures DistinctPids(t', nextpid) && Ledger(t', nextpid, exited + {t[p].pid}, reaped)
  {
    forall x | x in exited + {t[p].pid} && x !in reaped
      ensures exists j :: 0 <= j < |t'| && t'[j].state.Zombie? && t'[j].pid == x
    {
      if x == t[p].pid {
        assert t'[p].state.Zombie?;
      } else {
        var j :| 0 <= j < |t| && t[j].state.Zombie? && t[j].pid == x;
        assert t'[j].state.Zombie?;
      }
    }
  }

  lemma ExitKeeps(s: State, init: nat, p: nat)
    requires Inv(s, init) && Enabled(s, init, Exit(p))
    ensures Inv(Do(s, init, Exit(p)), init)
  {
    hide Exited, Tree, NoSleepingParent, Waiting, Forks, DistinctPids, Ledger;
    ExitTree(s.table, p, init);
    ExitQuiet(s.table, p, init);
    ExitWaiting(s.table, p, init);
    ExitForks(s.table, s.forking, p, init);
    ExitPids(s.table, s.nextpid, s.exited, s.reaped, p, init);
  }

  // ---------------------------------------------------------------- every run

  lemma StepKeeps(s: State, init: nat, a: Step)
    requires Inv(s, init) && Enabled(s, init, a)
    ensures Inv(Do(s, init, a), init)
  {
    hide Inv, Do, Enabled;
    match a
    case Fork(p) => ForkKeeps(s, init, p);
    case ForkFail(p) => ForkFailKeeps(s, init, p);
    case ForkParent(p) => ForkParentKeeps(s, init, p);
    case ForkRun(p) => ForkRunKeeps(s, init, p);
    case Exit(p) => ExitKeeps(s, init, p);
    case Wait(p) => WaitKeeps(s, init, p);
    case _ => SoftKeeps(s, init, a);
  }

  /** In every run, the tree, the sleepers and the zombies are as promised. */
  lemma {:induction false} RunKeeps(s: State, init: nat, run: seq<Step>, t: State)
    requires Inv(s, init) && Run(s, init, run, t)
    ensures Inv(t, init)
    decreases |run|
  {
    hide Inv, Do;
    if run != [] {
      StepKeeps(s, init, run[0]);
      RunKeeps(Do(s, init, run[0]), init, run[1..], t);
    }
  }

  /** From boot on: every process past EMBRYO but init has a living parent; a process asleep in wait()
      has no zombie child; whoever exits is a zombie until it is reaped, and is reaped at most once. */
  lemma TreeHolds(s: State, init: nat, run: seq<Step>, t: State, i: nat)
    requires Init(s, init) && Run(s, init, run, t) && i < |t.table|
    ensures i != init && Started(t.table[i].state) ==>
      0 <= t.table[i].parent < |t.table| && Alive(t.table[t.table[i].parent].state)
    ensures t.table[i].state.Zombie? ==>
      var p := t.table[i].parent; 0 <= p < |t.table| && !(t.table[p].state.Sleeping? && t.table[p].chan == OnProc(p))
    ensures t.table[i].state.Zombie? ==> t.table[i].pid in t.exited && t.table[i].pid !in t.reaped
    ensures t.reaped <= t.exited
    ensures forall x :: x in t.exited && x !in t.reaped ==>
      exists j :: 0 <= j < |t.table| && t.table[j].state.Zombie? && t.table[j].pid == x
  {
    InitInv(s, init);
    RunKeeps(s, init, run, t);
    assert Placed(t.table, init, i);
    if t.table[i].state.Zombie? {
      assert i != init;
      assert Attended(t.table, t.table[i].parent, i);
    }
  }

  /** From boot on: a process goes to sleep in wait(), and stays asleep there, only unkilled and only
      while it has a child that is alive. */
  lemma WaiterHasChild(s: State, init: nat, run: seq<Step>, t: State, p: nat)
    requires Init(s, init) && Run(s, init, run, t) && p < |t.table|
    ensures t.table[p].state.Sleeping? && t.table[p].chan == OnProc(p) ==>
      && !t.table[p].killed
      && exists i: nat :: i < |t.table| && i != p && t.table[i].parent == p && Alive(t.table[i].state)
    ensures Free(t, p) && Waited(t.table, p).MustSleep? ==>
      && !t.table[p].killed
      && exists i: nat :: i < |t.table| && i != p && t.table[i].parent == p && Alive(t.table[i].state)
  {
    InitInv(s, init);
    RunKeeps(s, init, run, t);
    assert Waits(t.table, p);
    if Free(t, p) && Waited(t.table, p).MustSleep? {
      StepKeeps(t, init, Wait(p));
      var t' := AfterWait(t.table, p);
      assert Waits(t', p);
      var i: nat :| LivingChild(t', p, i);
      assert i == p || t'[i] == t.table[i];
      assert Placed(t.table, init, p);
    }
  }

  /** wait() reaps a pid that exited and that nobody has reaped before. */
  lemma ReapedOnce(s: State, init: nat, p: nat)
    requires Inv(s, init) && Enabled(s, init, Wait(p)) && Waited(s.table, p).Reaped?
    ensures var pid := Waited(s.table, p).pid; pid in s.exited && pid !in s.reaped && pid in Do(s, init, Wait(p)).reaped
  {
  }
}
