/** sleep and wakeup of proc.c, for any number of processes sharing a lock `lk`, a channel and a
    condition each: no wakeup is lost. */
module SleepWakeup {

  /** Where a process is in the code that uses the lock. */
  datatype Pc =
    | Out                       // does not hold lk
    | Held                      // between acquire(lk) and release(lk)
    | Sleep1                    // in sleep(), before acquire(&ptable.lock)
    | Sleep2                    // holds both locks, before release(lk)
    | Sleep3                    // holds ptable.lock, before setting SLEEPING
    | Asleep                    // SLEEPING on the channel
    | Woken                     // RUNNABLE, not yet chosen by the scheduler
    | Resumed                   // running again, still holding ptable.lock
    | Relock                    // in sleep(), before acquire(lk)
    | Scan(i: nat, locked: bool) // in wakeup1, before slot i; `locked`: also holds lk

  /** `owes`: it has changed the shared state and not finished the wakeup that must follow. */
  datatype Proc = Proc(pc: Pc, owes: bool)

  datatype State = State(procs: seq<Proc>, x: int, lk: int, pt: int)

  datatype Step =
    | Acquire | Release
    | Change(x: int)
    | BeginSleep | LockTable | ReleaseLk | Suspend
    | Schedule | UnlockTable | Reacquire
    | BeginWakeup | ScanOne | EndWakeup
    | Kill

  const FREE := -1

  /** cond(p, x): what process p waits for. */
  type Cond = (nat, int) -> bool

  function Set(s: State, p: nat, pc: Pc): (t: State)
    requires p < |s.procs|
  {
    s.(procs := s.procs[p := s.procs[p].(pc := pc)])
  }

  predicate Enabled(cond: Cond, s: State, p: nat, a: Step)
  {
    && p < |s.procs|
    && var pc := s.procs[p].pc;
    match a
    case Acquire => pc.Out? && s.lk == FREE
    case Release => pc.Held?
    case Change(_) => pc.Held?
    case BeginSleep => pc.Held? && !cond(p, s.x) && !s.procs[p].owes
    case LockTable => pc.Sleep1? && s.pt == FREE
    case ReleaseLk => pc.Sleep2?
    case Suspend => pc.Sleep3?
    case Schedule => pc.Woken? && s.pt == FREE
    case UnlockTable => pc.Resumed?
    case Reacquire => pc.Relock? && s.lk == FREE
    case BeginWakeup => (pc.Held? || pc.Out?) && s.procs[p].owes && s.pt == FREE
    case ScanOne => pc.Scan? && pc.i < |s.procs|
    case EndWakeup => pc.Scan? && pc.i == |s.procs|
    case Kill => pc.Asleep? && s.pt == FREE
  }

  function Do(cond: Cond, s: State, p: nat, a: Step): (t: State)
    requires Enabled(cond, s, p, a)
  {
    match a
    case Acquire => Set(s, p, Held).(lk := p)
    case Release => Set(s, p, Out).(lk := FREE)
    case Change(x) => s.(x := x, procs := s.procs[p := s.procs[p].(owes := true)])
    case BeginSleep => Set(s, p, Sleep1)
    case LockTable => Set(s, p, Sleep2).(pt := p)
    case ReleaseLk => Set(s, p, Sleep3).(lk := FREE)
    case Suspend => Set(s, p, Asleep).(pt := FREE)
    case Schedule => Set(s, p, Resumed).(pt := p)
    case UnlockTable => Set(s, p, Relock).(pt := FREE)
    case Reacquire => Set(s, p, Held).(lk := p)
    case BeginWakeup => Set(s, p, Scan(0, s.procs[p].pc.Held?)).(pt := p)
    case ScanOne =>
      var i, locked := s.procs[p].pc.i, s.procs[p].pc.locked;
      var s1 := if s.procs[i].pc.Asleep? then Set(s, i, Woken) else s;
      Set(s1, p, Scan(i + 1, locked))
    case EndWakeup =>
      s.(pt := FREE, procs := s.procs[p := Proc(if s.procs[p].pc.locked then Held else Out, false)])
    case Kill => Set(s, p, Woken)
  }

  ghost predicate Init(s: State)
  {
    s.lk == FREE && s.pt == FREE && forall p :: 0 <= p < |s.procs| ==> s.procs[p] == Proc(Out, false)
  }

  /** A run: at each step some process acts. */
  ghost predicate Run(cond: Cond, s: State, run: seq<(nat, Step)>, t: State)
    decreases |run|
  {
    if run == [] then s == t
    else Enabled(cond, s, run[0].0, run[0].1) && Run(cond, Do(cond, s, run[0].0, run[0].1), run[1..], t)
  }

  // ---------------------------------------------------------------- the invariant

  predicate HoldsLk(pc: Pc) { pc.Held? || pc.Sleep1? || pc.Sleep2? || (pc.Scan? && pc.locked) }
  predicate HoldsTable(pc: Pc) { pc.Sleep2? || pc.Sleep3? || pc.Resumed? || pc.Scan? }

  /** w has changed the state and its wakeup has not yet passed slot p. */
  predicate Coming(s: State, w: nat, p: nat)
  {
    w < |s.procs| && s.procs[w].owes && (s.procs[w].pc.Scan? ==> s.procs[w].pc.i <= p)
  }

  ghost predicate Locks(s: State)
  {
    forall p: nat :: p < |s.procs| ==>
      && (HoldsLk(s.procs[p].pc) <==> s.lk == p)
      && (HoldsTable(s.procs[p].pc) <==> s.pt == p)
      && (s.procs[p].pc.Scan? ==> s.procs[p].owes && s.procs[p].pc.i <= |s.procs|)
  }

  /** A process on its way to sleep or asleep, whose condition holds, has a wakeup coming. */
  ghost predicate NoneLost(cond: Cond, s: State)
  {
    forall p: nat :: p < |s.procs| ==>
      && (s.procs[p].pc.Sleep1? || s.procs[p].pc.Sleep2? ==> !cond(p, s.x))
      && (s.procs[p].pc.Sleep3? || s.procs[p].pc.Asleep? ==> cond(p, s.x) ==> exists w: nat :: Coming(s, w, p))
  }

  ghost predicate Inv(cond: Cond, s: State) { Locks(s) && NoneLost(cond, s) }

  lemma StepLocks(cond: Cond, s: State, p: nat, a: Step)
    requires Locks(s) && Enabled(cond, s, p, a)
    ensures Locks(Do(cond, s, p, a))
  {
  }

  lemma StepNoneLost(cond: Cond, s: State, p: nat, a: Step, q: nat)
    requires Inv(cond, s) && Enabled(cond, s, p, a) && q < |s.procs|
    ensures var t := Do(cond, s, p, a);
      && (t.procs[q].pc.Sleep1? || t.procs[q].pc.Sleep2? ==> !cond(q, t.x))
      && (t.procs[q].pc.Sleep3? || t.procs[q].pc.Asleep? ==> cond(q, t.x) ==> exists w: nat :: Coming(t, w, q))
  {
    var t := Do(cond, s, p, a);
    if (t.procs[q].pc.Sleep3? || t.procs[q].pc.Asleep?) && cond(q, t.x) {
      if a.Change? {
        assert Coming(t, p, q);
      } else {
        assert s.procs[q].pc.Sleep2? || s.procs[q].pc.Sleep3? || s.procs[q].pc.Asleep?;
        var w: nat :| Coming(s, w, q);
        assert Coming(t, w, q);
      }
    }
  }

  lemma StepKeeps(cond: Cond, s: State, p: nat, a: Step)
    requires Inv(cond, s) && Enabled(cond, s, p, a)
    ensures Inv(cond, Do(cond, s, p, a))
  {
    StepLocks(cond, s, p, a);
    var t := Do(cond, s, p, a);
    forall q: nat | q < |t.procs|
      ensures t.procs[q].pc.Sleep1? || t.procs[q].pc.Sleep2? ==> !cond(q, t.x)
      ensures t.procs[q].pc.Sleep3? || t.procs[q].pc.Asleep? ==> cond(q, t.x) ==> exists w: nat :: Coming(t, w, q)
    {
      StepNoneLost(cond, s, p, a, q);
    }
  }

  lemma {:induction false} RunKeeps(cond: Cond, s: State, run: seq<(nat, Step)>, t: State)
    requires Inv(cond, s) && Run(cond, s, run, t)
    ensures Inv(cond, t) && |t.procs| == |s.procs|
    decreases |run|
  {
    if run != [] {
      StepKeeps(cond, s, run[0].0, run[0].1);
      RunKeeps(cond, Do(cond, s, run[0].0, run[0].1), run[1..], t);
    }
  }

  /** No lost wakeup: in every run, a process asleep with its condition true has a wakeup coming
      from a process that changed the state; so when no wakeup is owed, nobody sleeps in vain. */
  lemma NoLostWakeup(cond: Cond, s: State, run: seq<(nat, Step)>, t: State, p: nat)
    requires Init(s) && Run(cond, s, run, t) && p < |t.procs| && t.procs[p].pc.Asleep? && cond(p, t.x)
    ensures exists w: nat :: w < |t.procs| && w != p && t.procs[w].owes && Coming(t, w, p)
  {
    RunKeeps(cond, s, run, t);
    var w: nat :| Coming(t, w, p);
    SleepersOweNothing(cond, s, run, t, p);
  }

  /** A process does not go to sleep owing a wakeup. */
  lemma {:induction false} SleepersOweNothing(cond: Cond, s: State, run: seq<(nat, Step)>, t: State, p: nat)
    requires Run(cond, s, run, t) && p < |s.procs| == |t.procs|
    requires s.procs[p].owes ==> s.procs[p].pc.Held? || s.procs[p].pc.Out? || s.procs[p].pc.Scan?
    ensures t.procs[p].owes ==> t.procs[p].pc.Held? || t.procs[p].pc.Out? || t.procs[p].pc.Scan?
    decreases |run|
  {
    if run != [] {
      SleepersOweNothing(cond, Do(cond, s, run[0].0, run[0].1), run[1..], t, p);
    }
  }
}
