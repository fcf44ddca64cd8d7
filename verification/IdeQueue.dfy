/** ide.c's interrupt-driven request queue, and the synchronous iderw of memide.c that it refines. */
module IdeQueue {
  import opened Blocks
  import opened MemIde

  // ---------------------------------------------------------------- the interrupt-driven driver

  /** The disk: idle, working on the command idestart gave it, or finished with an interrupt pending. */
  datatype Device =
    | Free
    | Working(key: Key, write: bool, out: Block)
    | Finished(reply: Block)

  datatype State = State(
    bufs: seq<Buf>, queue: seq<nat>, device: Device, disk: Disk,
    waiting: set<nat>,                       // buffers whose holder is inside iderw
    submitted: seq<nat>, completed: seq<nat>)

  datatype Step =
    | Submit(b: nat)            // iderw: append, start the disk if the queue was empty
    | Operate                   // the disk carries out its command
    | Interrupt                 // ideintr
    | Return(b: nat)            // iderw's holder wakes up and returns
    | Holder(b: nat, x: Buf)    // a holder outside iderw changes, releases or takes a buffer

  /** idestart. */
  function Start(x: Buf): (r: Device) { Working(x.key, x.dirty, x.data) }

  predicate Enabled(s: State, a: Step)
  {
    match a
    case Submit(b) => b < |s.bufs| && b !in s.waiting && Ready(s.disk, s.bufs[b])
    case Operate => s.device.Working? && s.device.key in s.disk
    case Interrupt => s.device.Finished? || s.queue == []
    case Return(b) => b < |s.bufs| && b in s.waiting && s.bufs[b].valid && !s.bufs[b].dirty
    case Holder(b, x) => b < |s.bufs| && b !in s.waiting
  }

  function DoInterrupt(s: State): (r: State)
    requires Enabled(s, Interrupt)
  {
    if s.queue == [] || s.queue[0] >= |s.bufs| || !s.device.Finished? then s
    else
      var b := s.queue[0];
      var x := if s.bufs[b].dirty then s.bufs[b] else s.bufs[b].(data := s.device.reply);
      var bufs := s.bufs[b := x.(valid := true, dirty := false)];
      var queue := s.queue[1..];
      s.(bufs := bufs, queue := queue, completed := s.completed + [b],
         device := if queue != [] && queue[0] < |bufs| then Start(bufs[queue[0]]) else Free)
  }

  function Do(s: State, a: Step): (r: State)
    requires Enabled(s, a)
  {
    match a
    case Submit(b) =>
      s.(queue := s.queue + [b], waiting := s.waiting + {b}, submitted := s.submitted + [b],
         device := if s.queue == [] then Start(s.bufs[b]) else s.device)
    case Operate =>
      s.(disk := if s.device.write then s.disk[s.device.key := s.device.out] else s.disk,
         device := Finished(s.disk[s.device.key]))
    case Interrupt => DoInterrupt(s)
    case Return(b) => s.(waiting := s.waiting - {b})
    case Holder(b, x) => s.(bufs := s.bufs[b := x])
  }

  ghost predicate Init(s: State)
  {
    s.queue == [] && s.device.Free? && s.waiting == {} && s.submitted == [] && s.completed == []
  }

  ghost predicate Run(s: State, run: seq<Step>, t: State)
    decreases |run|
  {
    if run == [] then s == t else Enabled(s, run[0]) && Run(Do(s, run[0]), run[1..], t)
  }

  // ---------------------------------------------------------------- invariant

  /** Each buffer is queued at most once, by a holder who waits for it. */
  ghost predicate Queued(s: State)
  {
    && (forall i :: 0 <= i < |s.queue| ==>
         s.queue[i] < |s.bufs| && s.queue[i] in s.waiting && Ready(s.disk, s.bufs[s.queue[i]]))
    && (forall i, j :: 0 <= i < j < |s.queue| ==> s.queue[i] != s.queue[j])
    && (forall b :: b in s.waiting && b !in s.queue ==> b < |s.bufs| && s.bufs[b].valid && !s.bufs[b].dirty)
  }

  /** The disk works on the head of the queue, with that buffer's own contents, or on nothing. */
  ghost predicate Active(s: State)
  {
    && (s.device.Free? <==> s.queue == [])
    && (s.queue != [] && s.queue[0] < |s.bufs| ==>
         var x := s.bufs[s.queue[0]];
         && x.key in s.disk
         && (s.device.Working? ==> s.device == Start(x))
         && (s.device.Finished? ==> if x.dirty then s.disk[x.key] == x.data else s.device.reply == s.disk[x.key]))
  }

  ghost predicate Inv(s: State) { Queued(s) && Active(s) && s.submitted == s.completed + s.queue }

  lemma StepQueued(s: State, a: Step)
    requires Inv(s) && Enabled(s, a)
    ensures Queued(Do(s, a))
  {
    hide Active;
    if a.Interrupt? && s.queue != [] {
      var t := Do(s, a);
      forall b | b in t.waiting && b !in t.queue
        ensures b < |t.bufs| && t.bufs[b].valid && !t.bufs[b].dirty
      {
        if b != s.queue[0] {
          assert b !in s.queue;
        }
      }
    }
  }

  lemma StepActive(s: State, a: Step)
    requires Inv(s) && Enabled(s, a)
    ensures Active(Do(s, a))
  {
    if a.Holder? && s.queue != [] {
      assert s.queue[0] in s.waiting;
    }
  }

  lemma StepFifo(s: State, a: Step)
    requires s.submitted == s.completed + s.queue && Enabled(s, a)
    ensures Do(s, a).submitted == Do(s, a).completed + Do(s, a).queue
  {
    if a.Submit? {
      assert s.completed + (s.queue + [a.b]) == (s.completed + s.queue) + [a.b];
    } else if a.Interrupt? && s.queue != [] {
      assert s.queue == [s.queue[0]] + s.queue[1..];
      assert (s.completed + [s.queue[0]]) + s.queue[1..] == s.completed + s.queue;
    }
  }

  lemma StepKeeps(s: State, a: Step)
    requires Inv(s) && Enabled(s, a)
    ensures Inv(Do(s, a))
  {
    StepQueued(s, a);
    StepActive(s, a);
    StepFifo(s, a);
    hide Do, Queued, Active, Enabled;
  }

  // ---------------------------------------------------------------- refinement

  /** The buffers as the synchronous driver has them: a finished command already shows in its buffer. */
  function Seen(s: State): (bufs: seq<Buf>)
  {
    if s.device.Finished? && s.queue != [] && s.queue[0] < |s.bufs| then
      var x := s.bufs[s.queue[0]];
      s.bufs[s.queue[0] :=
        if x.dirty then x.(dirty := false, valid := true) else x.(data := s.device.reply, valid := true)]
    else s.bufs
  }

  /** The disk carrying out a command is one synchronous iderw of the head of the queue. */
  lemma OperateIsSync(s: State)
    requires Inv(s) && Enabled(s, Operate)
    ensures s.queue != [] && s.queue[0] < |s.bufs| && Ready(s.disk, s.bufs[s.queue[0]])
    ensures var b, t := s.queue[0], Do(s, Operate);
      && Seen(t) == Seen(s)[b := SyncBuf(s.disk, s.bufs[b])]
      && t.disk == SyncDisk(s.disk, s.bufs[b])
  {
  }

  /** Every other step of the driver leaves the buffers and the disk, as the synchronous driver has them, alone. */
  lemma OtherStepsStutter(s: State, a: Step)
    requires Inv(s) && Enabled(s, a) && !a.Operate? && !a.Holder?
    ensures Seen(Do(s, a)) == Seen(s) && Do(s, a).disk == s.disk
  {
  }

  /** A holder's change shows unaltered. */
  lemma HolderStepShows(s: State, b: nat, x: Buf)
    requires Inv(s) && Enabled(s, Holder(b, x))
    ensures Seen(Do(s, Holder(b, x))) == Seen(s)[b := x] && Do(s, Holder(b, x)).disk == s.disk
  {
  }

  /** What a step is for the synchronous driver: one iderw, the holder's change, or nothing. */
  datatype SyncOp = Rw(b: nat) | Change(b: nat, x: Buf) | Nothing

  predicate SyncEnabled(bufs: seq<Buf>, disk: Disk, op: SyncOp)
  {
    match op
    case Rw(b) => b < |bufs| && Ready(disk, bufs[b])
    case Change(b, _) => b < |bufs|
    case Nothing => true
  }

  function SyncDo(bufs: seq<Buf>, disk: Disk, op: SyncOp): (r: (seq<Buf>, Disk))
    requires SyncEnabled(bufs, disk, op)
  {
    match op
    case Rw(b) => (bufs[b := SyncBuf(disk, bufs[b])], SyncDisk(disk, bufs[b]))
    case Change(b, x) => (bufs[b := x], disk)
    case Nothing => (bufs, disk)
  }

  ghost predicate SyncRun(bufs: seq<Buf>, disk: Disk, ops: seq<SyncOp>, bufs': seq<Buf>, disk': Disk)
    decreases |ops|
  {
    if ops == [] then bufs == bufs' && disk == disk'
    else
      && SyncEnabled(bufs, disk, ops[0])
      && var r := SyncDo(bufs, disk, ops[0]); SyncRun(r.0, r.1, ops[1..], bufs', disk')
  }

  function OpOf(s: State, a: Step): (op: SyncOp)
  {
    match a
    case Operate => if s.queue == [] then Nothing else Rw(s.queue[0])
    case Holder(b, x) => Change(b, x)
    case _ => Nothing
  }

  /** The synchronous operations of a run: an iderw of the head of the queue each time the disk operates,
      and the holders' own changes. */
  ghost function OpsOf(s: State, run: seq<Step>): (ops: seq<SyncOp>)
    requires Steps(s, run)
    ensures |ops| == |run|
    decreases |run|
  {
    if run == [] then [] else [OpOf(s, run[0])] + OpsOf(Do(s, run[0]), run[1..])
  }

  ghost predicate Steps(s: State, run: seq<Step>)
    decreases |run|
  {
    run == [] || (Enabled(s, run[0]) && Steps(Do(s, run[0]), run[1..]))
  }

  lemma StepRefines(s: State, a: Step)
    requires Inv(s) && Enabled(s, a)
    ensures SyncEnabled(Seen(s), s.disk, OpOf(s, a))
    ensures SyncDo(Seen(s), s.disk, OpOf(s, a)) == (Seen(Do(s, a)), Do(s, a).disk)
  {
    hide Seen, Inv, Do, Enabled;
    match a
    case Operate =>
      OperateIsSync(s);
      WorkingSeen(s);
    case Holder(b, x) =>
      HolderStepShows(s, b, x);
      HolderBound(s, b, x);
    case _ => OtherStepsStutter(s, a);
  }

  lemma WorkingSeen(s: State)
    requires Enabled(s, Operate)
    ensures Seen(s) == s.bufs
  {
  }

  lemma HolderBound(s: State, b: nat, x: Buf)
    requires Enabled(s, Holder(b, x))
    ensures b < |Seen(s)|
  {
  }

  /** Refinement over whole runs: running the synchronous driver once for each command the disk carries
      out gives the same buffers and the same disk; and requests complete in the order of submission. */
  lemma {:induction false} QueueRefinesSync(s: State, run: seq<Step>, t: State)
    requires Inv(s) && Run(s, run, t)
    ensures Steps(s, run) && SyncRun(Seen(s), s.disk, OpsOf(s, run), Seen(t), t.disk)
    ensures Inv(t) && t.completed <= t.submitted
    decreases |run|
  {
    hide Seen, Do, Enabled, OpOf;
    if run != [] {
      StepKeeps(s, run[0]);
      StepRefines(s, run[0]);
      QueueRefinesSync(Do(s, run[0]), run[1..], t);
      assert OpsOf(s, run)[1..] == OpsOf(Do(s, run[0]), run[1..]);
    }
  }

  lemma InitInv(s: State)
    requires Init(s)
    ensures Inv(s) && Seen(s) == s.bufs
  {
  }

  lemma IdleSeen(s: State)
    requires s.queue == []
    ensures Seen(s) == s.bufs
  {
  }

  /** From boot on: every run of the driver has the effect of the synchronous driver run once for each command
      the disk carried out; when the queue is empty every request has completed, in the order of submission, and
      the buffers and the disk are the synchronous driver's. */
  lemma DriverRefinesSync(s: State, run: seq<Step>, t: State)
    requires Init(s) && Run(s, run, t)
    ensures Steps(s, run) && SyncRun(s.bufs, s.disk, OpsOf(s, run), Seen(t), t.disk)
    ensures t.submitted == t.completed + t.queue
    ensures t.queue == [] ==> t.completed == t.submitted && SyncRun(s.bufs, s.disk, OpsOf(s, run), t.bufs, t.disk)
  {
    hide Seen, Run, Queued, Active;
    InitInv(s);
    QueueRefinesSync(s, run, t);
    if t.queue == [] {
      IdleSeen(t);
    }
  }

  /** iderw returns only when every submission of its buffer has been completed, once each. */
  lemma ReturnedOnce(s: State, b: nat)
    requires Inv(s) && Enabled(s, Return(b))
    ensures b !in s.queue && multiset(s.submitted)[b] == multiset(s.completed)[b]
  {
    assert b !in s.queue;
    assert multiset(s.completed + s.queue) == multiset(s.completed) + multiset(s.queue);
    assert multiset(s.queue)[b] == 0;
  }

  // ---------------------------------------------------------------- the list in memory

  const NIL := -1

  /** Element i of the queue points to the next one, or is the last. */
  ghost predicate LinkAt(qnext: seq<int>, queue: seq<nat>, i: nat)
    requires i < |queue|
  {
    queue[i] < |qnext| && qnext[queue[i]] == if i + 1 < |queue| then queue[i + 1] else NIL
  }

  /** `head` and the qnext fields spell out the queue. */
  ghost predicate Chained(head: int, qnext: seq<int>, queue: seq<nat>)
  {
    && head == (if queue == [] then NIL else queue[0])
    && (forall i, j :: 0 <= i < j < |queue| ==> queue[i] != queue[j])
    && (forall i: nat :: i < |queue| ==> LinkAt(qnext, queue, i))
  }

  lemma ChainedAppend(head: int, qnext: seq<int>, queue: seq<nat>, b: nat)
    requires Chained(head, qnext, queue) && b < |qnext| && b !in queue
    ensures queue != [] ==> queue[|queue| - 1] < |qnext|
    ensures var q1 := qnext[b := NIL];
      if queue == [] then Chained(b, q1, [b])
      else Chained(head, q1[queue[|queue| - 1] := b], queue + [b])
  {
    if queue == [] {
      assert LinkAt(qnext[b := NIL], [b], 0);
    } else {
      var last := queue[|queue| - 1];
      assert LinkAt(qnext, queue, |queue| - 1);
      var q2, queue' := qnext[b := NIL][last := b], queue + [b];
      forall i: nat | i < |queue'|
        ensures LinkAt(q2, queue', i)
      {
        if i < |queue| {
          assert LinkAt(qnext, queue, i);
        }
      }
    }
  }

  lemma ChainedTail(head: int, qnext: seq<int>, queue: seq<nat>)
    requires Chained(head, qnext, queue) && queue != []
    ensures queue[0] < |qnext| && Chained(qnext[queue[0]], qnext, queue[1..])
  {
    assert LinkAt(qnext, queue, 0);
    var rest := queue[1..];
    forall i: nat | i < |rest|
      ensures LinkAt(qnext, rest, i)
    {
      assert LinkAt(qnext, queue, i + 1);
    }
  }

  class Queue {
    var idequeue: int
    const qnext: array<int>
    ghost var queue: seq<nat>

    ghost predicate Valid()
      reads this, qnext
    {
      Chained(idequeue, qnext[..], queue)
    }

    constructor (n: nat)
      ensures Valid() && queue == [] && qnext.Length == n && fresh(qnext)
    {
      idequeue := NIL;
      qnext := new int[n](_ => NIL);
      queue := [];
    }

    /** iderw's walk to the end of the queue. */
    method Append(b: nat)
      requires Valid() && b < qnext.Length && b !in queue
      modifies this`idequeue, this`queue, qnext
      ensures Valid() && queue == old(queue) + [b]
    {
      ChainedAppend(idequeue, qnext[..], queue, b);
      qnext[b] := NIL;
      if idequeue == NIL {
        idequeue := b;
      } else {
        var p := idequeue;
        ghost var i: nat := 0;
        assert LinkAt(old(qnext[..]), queue, i);
        while qnext[p] != NIL
          invariant 0 <= i < |queue| && p == queue[i] && 0 <= p < qnext.Length
          invariant qnext[..] == old(qnext[..])[b := NIL] && LinkAt(old(qnext[..]), queue, i)
          decreases |queue| - i
        {
          p := qnext[p];
          i := i + 1;
          assert LinkAt(old(qnext[..]), queue, i);
        }
        qnext[p] := b;
      }
      queue := queue + [b];
    }

    /** ideintr's removal of the head; NIL when the interrupt is spurious. */
    method Pop() returns (b: int)
      requires Valid()
      modifies this`idequeue, this`queue
      ensures Valid()
      ensures b == NIL <==> old(queue) == []
      ensures b == NIL ==> queue == []
      ensures b != NIL ==> old(queue) == [b] + queue
    {
      b := idequeue;
      if b != NIL {
        ChainedTail(idequeue, qnext[..], queue);
        idequeue := qnext[b];
        queue := queue[1..];
      }
    }
  }
}
