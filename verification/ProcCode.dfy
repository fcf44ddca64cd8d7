/** The table scans of proc.c as code over the table in memory. */
module ProcCode {
  import opened ProcTable

  class ProcessTable {
    const slots: array<Proc>
    var nextpid: int

    constructor (n: nat)
      ensures fresh(slots) && slots.Length == n && nextpid == 1
      ensures forall i :: 0 <= i < n ==> slots[i] == Proc(Unused, 0, NOBODY, NoChan, false)
    {
      slots := new Proc[n](_ => Proc(Unused, 0, NOBODY, NoChan, false));
      nextpid := 1;
    }

    /** wakeup1. */
    method Wakeup1(c: Chan)
      modifies slots
      ensures slots[..] == WakeAll(old(slots[..]), c)
      ensures forall j :: 0 <= j < slots.Length ==>
        slots[j] == if old(slots[j]).state.Sleeping? && old(slots[j]).chan == c then old(slots[j]).(state := Runnable)
                    else old(slots[j])
    {
      var i := 0;
      while i < slots.Length
        invariant 0 <= i <= slots.Length
        invariant forall j :: 0 <= j < i ==> slots[j] == Wake(old(slots[j]), c)
        invariant forall j :: i <= j < slots.Length ==> slots[j] == old(slots[j])
      {
        if slots[i].state.Sleeping? && slots[i].chan == c {
          slots[i] := slots[i].(state := Runnable);
        }
        i := i + 1;
      }
    }

    /** allocproc's search: the first UNUSED slot becomes an EMBRYO with a new pid. */
    method AllocProc() returns (i: nat)
      modifies slots, this`nextpid
      ensures i == FirstUnused(old(slots[..]), 0) <= slots.Length
      ensures forall j :: 0 <= j < i ==> !old(slots[j]).state.Unused?
      ensures i < slots.Length ==> old(slots[i]).state.Unused?
      ensures i == slots.Length ==> slots[..] == old(slots[..]) && nextpid == old(nextpid)
      ensures i < slots.Length ==>
        && slots[..] == old(slots[..])[i := old(slots[i]).(state := Embryo, pid := old(nextpid))]
        && nextpid == old(nextpid) + 1
    {
      i := 0;
      while i < slots.Length && !slots[i].state.Unused?
        invariant 0 <= i <= slots.Length
        invariant FirstUnused(slots[..], 0) == FirstUnused(slots[..], i)
      {
        i := i + 1;
      }
      if i < slots.Length {
        slots[i] := slots[i].(state := Embryo, pid := nextpid);
        nextpid := nextpid + 1;
      }
    }

    /** exit, from acquire(&ptable.lock) to sched(). */
    method Exit(p: nat, init: nat)
      requires p < slots.Length && init < slots.Length && p != init
      modifies slots
      ensures slots[..] == Exited(old(slots[..]), p, init)
      ensures forall j :: 0 <= j < slots.Length ==>
        var q := old(slots[j]);
        && slots[j] == q.(state := slots[j].state, parent := if q.parent == p then init else q.parent)
        && slots[j].state ==
             if j == p then Zombie
             else if q.state.Sleeping? && WokenByExit(old(slots[..]), p, init, q.chan) then Runnable
             else q.state
    {
      ghost var t0 := slots[..];
      var c := if slots[p].parent >= 0 then OnProc(slots[p].parent) else NoChan;
      Wakeup1(c);
      ghost var t1 := slots[..];
      var i := 0;
      ghost var woken := false;
      while i < slots.Length
        invariant 0 <= i <= slots.Length
        invariant woken <==> exists j :: 0 <= j < i && t1[j].parent == p && t1[j].state.Zombie?
        invariant forall j :: 0 <= j < slots.Length ==>
          slots[j] == Settle(t1[j], p, init, j < i, woken)
      {
        if slots[i].parent == p {
          slots[i] := slots[i].(parent := init);
          if slots[i].state.Zombie? {
            Wakeup1(OnProc(init));
            woken := true;
          }
        }
        i := i + 1;
      }
      assert woken <==> ZombieChild(t0, p);
      slots[p] := slots[p].(state := Zombie);
      assert slots[..] == Exited(t0, p, init);
      ExitSlots(t0, p, init);
    }

    /** wait: one pass over the table, ending in a reaped child, an error, or sleep. */
    method Wait(p: nat) returns (r: WaitResult)
      requires p < slots.Length
      modifies slots
      ensures r == Waited(old(slots[..]), p)
      ensures slots[..] == AfterWait(old(slots[..]), p)
      ensures
        var child := exists i :: 0 <= i < slots.Length && old(slots[i]).parent == p;
        var zombie := exists i :: 0 <= i < slots.Length && old(slots[i]).parent == p && old(slots[i]).state.Zombie?;
        && (r.Reaped? <==> zombie)
        && (r.NoChildren? <==> !zombie && (!child || old(slots[p]).killed))
        && (r.MustSleep? <==> !zombie && child && !old(slots[p]).killed)
      ensures r.Reaped? ==>
        && r.slot < slots.Length && old(slots[r.slot]).parent == p && old(slots[r.slot]).state.Zombie?
        && r.pid == old(slots[r.slot]).pid
        && slots[r.slot] == Proc(Unused, 0, NOBODY, old(slots[r.slot]).chan, false)
        && (forall j :: 0 <= j < r.slot ==> !(old(slots[j]).parent == p && old(slots[j]).state.Zombie?))
      ensures r.MustSleep? ==> slots[p] == old(slots[p]).(state := Sleeping, chan := OnProc(p))
      ensures forall j :: 0 <= j < slots.Length ==>
        (r.Reaped? && j == r.slot) || (r.MustSleep? && j == p) || slots[j] == old(slots[j])
    {
      ghost var t := slots[..];
      var havekids := false;
      var i := 0;
      while i < slots.Length
        invariant 0 <= i <= slots.Length && slots[..] == t
        invariant FirstZombie(t, p, 0) == FirstZombie(t, p, i)
        invariant havekids <==> exists j :: 0 <= j < i && t[j].parent == p
      {
        assert slots[i] == t[i];
        if slots[i].parent == p {
          havekids := true;
          if slots[i].state.Zombie? {
            r := Reaped(slots[i].pid, i);
            slots[i] := Proc(Unused, 0, NOBODY, slots[i].chan, false);
            return;
          }
        }
        i := i + 1;
      }
      assert slots[p] == t[p];
      if !havekids || slots[p].killed {
        return NoChildren;
      }
      slots[p] := slots[p].(state := Sleeping, chan := OnProc(p));
      return MustSleep;
    }

    /** kill: returns whether a slot had that pid. */
    method Kill(pid: int) returns (found: bool)
      modifies slots
      ensures slots[..] == Killed(old(slots[..]), pid)
      ensures found <==> exists i :: 0 <= i < slots.Length && old(slots[i]).pid == pid
      ensures forall j :: 0 <= j < slots.Length ==>
        var q := old(slots[j]);
        if q.pid == pid && (forall k :: 0 <= k < j ==> old(slots[k]).pid != pid)
        then slots[j] == q.(killed := true, state := if q.state.Sleeping? then Runnable else q.state)
        else slots[j] == q
    {
      ghost var t := slots[..];
      var i := 0;
      while i < slots.Length
        invariant 0 <= i <= slots.Length && slots[..] == t
        invariant FirstPid(t, pid, 0) == FirstPid(t, pid, i)
      {
        assert slots[i] == t[i];
        if slots[i].pid == pid {
          slots[i] := slots[i].(killed := true);
          if slots[i].state.Sleeping? {
            slots[i] := slots[i].(state := Runnable);
          }
          return true;
        }
        i := i + 1;
      }
      return false;
    }
  }

  /** A slot part-way through exit's loop. */
  function Settle(q: Proc, p: nat, init: nat, passed: bool, woken: bool): Proc
  {
    var q1 := if passed && q.parent == p then q.(parent := init) else q;
    if woken then Wake(q1, OnProc(init)) else q1
  }
}
