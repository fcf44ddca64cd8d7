/** The process table of proc.c: what each routine does to it while it holds ptable.lock. */
module ProcTable {

  datatype PState = Unused | Embryo | Sleeping | Runnable | Running | Zombie

  /** What a sleeping process waits on: a process (only wait() does that) or some other address. */
  datatype Chan = NoChan | OnProc(i: nat) | Other(addr: int)

  const NOBODY := -1

  datatype Proc = Proc(state: PState, pid: int, parent: int, chan: Chan, killed: bool)

  type Table = seq<Proc>

  predicate Alive(st: PState) { st.Sleeping? || st.Runnable? || st.Running? }

  // ---------------------------------------------------------------- wakeup1

  function Wake(p: Proc, c: Chan): (r: Proc)
  {
    if p.state.Sleeping? && p.chan == c then p.(state := Runnable) else p
  }

  function WakeAll(t: Table, c: Chan): (r: Table)
    ensures |r| == |t|
    ensures forall i :: 0 <= i < |t| ==> r[i] == Wake(t[i], c)
  {
    seq(|t|, i requires 0 <= i < |t| => Wake(t[i], c))
  }

  // ---------------------------------------------------------------- exit

  /** p's children, and whether one of them is a zombie. */
  predicate ZombieChild(t: Table, p: int) { exists i :: 0 <= i < |t| && t[i].parent == p && t[i].state.Zombie? }

  function Adopt(t: Table, p: nat, init: nat): (r: Table)
    ensures |r| == |t|
    ensures forall i :: 0 <= i < |t| ==> r[i] == if t[i].parent == p then t[i].(parent := init) else t[i]
  {
    seq(|t|, i requires 0 <= i < |t| => if t[i].parent == p then t[i].(parent := init) else t[i])
  }

  function ParentChan(t: Table, p: nat): Chan
    requires p < |t|
  {
    if t[p].parent >= 0 then OnProc(t[p].parent) else NoChan
  }

  /** exit: wake the parent, give the children to init (waking it for a zombie), become a zombie. */
  function Exited(t: Table, p: nat, init: nat): (r: Table)
    requires p < |t| && init < |t|
    ensures |r| == |t|
  {
    var t1 := WakeAll(t, ParentChan(t, p));
    var t2 := Adopt(t1, p, init);
    var t3 := if ZombieChild(t, p) then WakeAll(t2, OnProc(init)) else t2;
    t3[p := t3[p].(state := Zombie)]
  }

  /** The channels on which exit of p wakes sleepers. */
  predicate WokenByExit(t: Table, p: nat, init: nat, c: Chan)
    requires p < |t|
  {
    || c == (if t[p].parent >= 0 then OnProc(t[p].parent) else NoChan)
    || (c == OnProc(init) && exists i :: 0 <= i < |t| && t[i].parent == p && t[i].state.Zombie?)
  }

  /** What exit leaves in slot i. */
  lemma ExitSlot(t: Table, p: nat, init: nat, i: nat)
    requires p < |t| && init < |t| && i < |t|
    ensures var r := Exited(t, p, init)[i];
      && r == t[i].(state := r.state, parent := if t[i].parent == p then init else t[i].parent)
      && r.state ==
           if i == p then Zombie
           else if t[i].state.Sleeping? && WokenByExit(t, p, init, t[i].chan) then Runnable
           else t[i].state
  {
  }

  lemma ExitSlots(t: Table, p: nat, init: nat)
    requires p < |t| && init < |t|
    ensures var r := Exited(t, p, init);
      forall i :: 0 <= i < |t| ==>
        && r[i] == t[i].(state := r[i].state, parent := if t[i].parent == p then init else t[i].parent)
        && r[i].state ==
             if i == p then Zombie
             else if t[i].state.Sleeping? && WokenByExit(t, p, init, t[i].chan) then Runnable
             else t[i].state
  {
    hide Exited;
    forall i | 0 <= i < |t|
      ensures var r := Exited(t, p, init);
        && r[i] == t[i].(state := r[i].state, parent := if t[i].parent == p then init else t[i].parent)
        && r[i].state ==
             if i == p then Zombie
             else if t[i].state.Sleeping? && WokenByExit(t, p, init, t[i].chan) then Runnable
             else t[i].state
    {
      ExitSlot(t, p, init, i);
    }
  }

  // ---------------------------------------------------------------- wait

  datatype WaitResult = Reaped(pid: int, slot: nat) | NoChildren | MustSleep

  function FirstZombie(t: Table, p: int, from: nat): (i: nat)
    requires from <= |t|
    ensures from <= i <= |t|
    ensures i < |t| ==> t[i].parent == p && t[i].state.Zombie?
    ensures forall j :: from <= j < i ==> !(t[j].parent == p && t[j].state.Zombie?)
    decreases |t| - from
  {
    if from == |t| || (t[from].parent == p && t[from].state.Zombie?) then from else FirstZombie(t, p, from + 1)
  }

  predicate HasKids(t: Table, p: int) { exists i :: 0 <= i < |t| && t[i].parent == p }

  function Waited(t: Table, p: nat): (r: WaitResult)
    requires p < |t|
  {
    var i := FirstZombie(t, p, 0);
    if i < |t| then Reaped(t[i].pid, i)
    else if !HasKids(t, p) || t[p].killed then NoChildren
    else MustSleep
  }

  function Cleared(p: Proc): (r: Proc)
  {
    Proc(Unused, 0, NOBODY, p.chan, false)
  }

  function AfterWait(t: Table, p: nat): (r: Table)
    requires p < |t|
    ensures |r| == |t|
  {
    match Waited(t, p)
    case Reaped(_, i) => t[i := Cleared(t[i])]
    case NoChildren => t
    case MustSleep => t[p := t[p].(state := Sleeping, chan := OnProc(p))]
  }

  // ---------------------------------------------------------------- allocproc, fork, kill

  function FirstUnused(t: Table, from: nat): (i: nat)
    requires from <= |t|
    ensures from <= i <= |t| && (i < |t| ==> t[i].state.Unused?)
    ensures forall j :: from <= j < i ==> !t[j].state.Unused?
    decreases |t| - from
  {
    if from == |t| || t[from].state.Unused? then from else FirstUnused(t, from + 1)
  }

  /** kill: the first slot with this pid is marked, and woken if it sleeps. */
  function FirstPid(t: Table, pid: int, from: nat): (i: nat)
    requires from <= |t|
    ensures from <= i <= |t| && (i < |t| ==> t[i].pid == pid)
    ensures forall j :: from <= j < i ==> t[j].pid != pid
    decreases |t| - from
  {
    if from == |t| || t[from].pid == pid then from else FirstPid(t, pid, from + 1)
  }

  function Killed(t: Table, pid: int): (r: Table)
    ensures |r| == |t|
  {
    var i := FirstPid(t, pid, 0);
    if i == |t| then t
    else t[i := t[i].(killed := true, state := if t[i].state.Sleeping? then Runnable else t[i].state)]
  }
}
