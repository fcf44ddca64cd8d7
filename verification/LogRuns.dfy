/** Every run of the logging system: any number of file-system operations interleaving
    begin_op, log_write and end_op, the commits they trigger, the buffer cache loading and
    recycling blocks meanwhile, and crashes between any two block writes, those of a
    recovery included. */
module LogRuns {
  import opened Blocks
  import opened RedoLog
  import opened CrashAtomicity

  /** One execution of a file-system system call. */
  type Op = nat

  /** A completed log_write. */
  datatype Entry = Entry(op: Op, w: Write)

  /** A cached block: the buffer that holds it, as far as the log can tell. */
  datatype Cached = Cached(data: Block, dirty: bool)

  datatype Phase =
    | Idle
    /** commit() after `done` of the writes `plan`, begun on disk `base` with cache contents `view`. */
    | Commit(base: Disk, view: Disk, plan: seq<Write>, done: nat)
    /** recover_from_log() after `done` of the writes `plan`, begun on disk `base`. */
    | Recovery(base: Disk, plan: seq<Write>, done: nat)

  datatype Panic = NoPanic | TooBig | OutsideTrans | Committing

  datatype State = State(
    disk: Disk, cache: map<nat, Cached>, lh: seq<nat>, outstanding: int, committing: bool, phase: Phase, panic: Panic,
    // History: operations begun and not ended, all operations ever begun, the new log slots each
    // running operation has taken, the log_writes that count, and how many of those are committed.
    ops: set<Op>, seen: set<Op>, slots: map<Op, nat>, hist: seq<Entry>, durable: nat)

  datatype Step =
    | Begin(op: Op)
    | Log(op: Op, b: nat, data: Block)
    | End(op: Op)
    | WriteNext
    | CommitDone
    | Load(b: nat)
    | Recycle(b: nat)
    | Crash
    | RecoveryDone

  // ---------------------------------------------------------------- the system

  /** begin_op's test, under the log lock. */
  predicate CanBegin(n: nat, outstanding: int, committing: bool)
  {
    !committing && n + (outstanding + 1) * MAXOPBLOCKS <= LOGSIZE
  }

  /** log_write's guard. */
  predicate LogFull(g: Region, n: nat) { n >= LOGSIZE || n >= g.size - 1 }

  /** log_write's absorption. */
  function Absorb(lh: seq<nat>, b: nat): (r: seq<nat>) { if b in lh then lh else lh + [b] }

  /** What bread returns for block `b`: the cached copy if there is one, else the disk's. */
  function Lookup(disk: Disk, cache: map<nat, Cached>, b: nat): (r: Block)
    requires b < |disk|
  {
    if b in cache then cache[b].data else disk[b]
  }

  function Overlay(disk: Disk, cache: map<nat, Cached>): (v: Disk)
    ensures |v| == |disk|
    ensures forall b: nat :: b < |v| ==> v[b] == Lookup(disk, cache, b)
  {
    seq(|disk|, b requires 0 <= b < |disk| => Lookup(disk, cache, b))
  }

  function Contents(s: State, b: nat): (r: Block)
    requires b < |s.disk|
  {
    Lookup(s.disk, s.cache, b)
  }

  function View(s: State): (v: Disk)
    ensures |v| == |s.disk|
    ensures forall b: nat :: b < |v| ==> v[b] == Contents(s, b)
  {
    Overlay(s.disk, s.cache)
  }

  predicate Enabled(g: Region, s: State, a: Step)
  {
    && (!a.Crash? ==> s.panic.NoPanic?)
    && match a
       case Begin(op) =>
         op !in s.seen && !s.phase.Recovery? && CanBegin(|s.lh|, s.outstanding, s.committing)
       case Log(op, b, data) => op in s.ops && g.Home(s.disk, b) && b in s.cache
       case End(op) => op in s.ops && TransOk(g, s.disk, s.lh)
       case WriteNext => !s.phase.Idle? && s.phase.done < |s.phase.plan|
       case CommitDone => s.committing && (s.phase.Commit? ==> s.phase.done == |s.phase.plan|)
       case Load(b) => b < |s.disk| && b !in s.cache
       case Recycle(b) => b in s.cache && !s.cache[b].dirty
       case Crash => LogOk(g, s.disk)
       case RecoveryDone => s.phase.Recovery? && s.phase.done == |s.phase.plan|
  }

  function DoLog(g: Region, s: State, op: Op, b: nat, data: Block): (r: State)
  {
    if LogFull(g, |s.lh|) then s.(panic := TooBig)
    else if s.outstanding < 1 then s.(panic := OutsideTrans)
    else
      var took := (if op in s.slots then s.slots[op] else 0) + (if b in s.lh then 0 else 1);
      s.(cache := s.cache[b := Cached(data, true)], lh := Absorb(s.lh, b),
         slots := s.slots[op := took], hist := s.hist + [Entry(op, Write(b, data))])
  }

  function DoEnd(g: Region, s: State, op: Op): (r: State)
    requires TransOk(g, s.disk, s.lh)
  {
    var s1 := s.(outstanding := s.outstanding - 1, ops := s.ops - {op}, slots := s.slots - {op});
    if s.committing then s1.(panic := Committing)
    else if s1.outstanding == 0 then
      s1.(committing := true,
          phase := if s.lh == [] then Idle
                   else Commit(s.disk, View(s), CommitWrites(g, s.disk, View(s), s.lh), 0))
    else s1
  }

  /** bwrite of the next planned block: the disk and the buffer agree and the buffer is clean.
      The write after the log slots is the header write that commits. */
  function DoWrite(s: State): (r: State)
    requires !s.phase.Idle? && s.phase.done < |s.phase.plan|
  {
    var w := s.phase.plan[s.phase.done];
    var s1 := s.(disk := Put(s.disk, w), cache := s.cache[w.b := Cached(w.data, false)],
                 phase := s.phase.(done := s.phase.done + 1));
    if s.phase.Commit? && s.phase.done == |s.lh| then s1.(durable := |s.hist|) else s1
  }

  function Do(g: Region, s: State, a: Step): (r: State)
    requires Enabled(g, s, a)
  {
    match a
    case Begin(op) =>
      s.(outstanding := s.outstanding + 1, ops := s.ops + {op}, seen := s.seen + {op}, slots := s.slots[op := 0])
    case Log(op, b, data) => DoLog(g, s, op, b, data)
    case End(op) => DoEnd(g, s, op)
    case WriteNext => DoWrite(s)
    case CommitDone => s.(committing := false, lh := [], phase := Idle)
    case Load(b) => s.(cache := s.cache[b := Cached(s.disk[b], false)])
    case Recycle(b) => s.(cache := s.cache - {b})
    case Crash =>
      State(s.disk, map[], [], 0, false, Recovery(s.disk, RecoverWrites(g, s.disk), 0), NoPanic,
            {}, s.seen, map[], if s.durable <= |s.hist| then s.hist[..s.durable] else s.hist, s.durable)
    case RecoveryDone => s.(phase := Idle)
  }

  /** Boot from an image: recovery starts on it with nothing cached. */
  ghost predicate Init(g: Region, img: Disk, s: State)
  {
    && LogOk(g, img)
    && s == State(img, map[], [], 0, false, Recovery(img, RecoverWrites(g, img), 0), NoPanic, {}, {}, map[], [], 0)
  }

  /** `run` is a run of enabled steps from `s` to `t`. */
  ghost predicate Run(g: Region, s: State, run: seq<Step>, t: State)
    decreases |run|
  {
    if run == [] then s == t
    else Enabled(g, s, run[0]) && Run(g, Do(g, s, run[0]), run[1..], t)
  }

  // ---------------------------------------------------------------- what every run keeps

  /** The home blocks after the given log_writes, in order, on top of the recovered image. */
  function Replay(img: Disk, hist: seq<Entry>): (r: Disk)
    ensures |r| == |img|
  {
    if hist == [] then img else Put(Replay(img, hist[..|hist| - 1]), hist[|hist| - 1].w)
  }

  ghost predicate SameHome(g: Region, d: Disk, e: Disk)
    requires |d| == |e|
  {
    forall b: nat :: b < |d| && !g.Has(b) ==> d[b] == e[b]
  }

  ghost predicate Shape(g: Region, img: Disk, s: State)
  {
    && |s.disk| == |img|
    && TransOk(g, s.disk, s.lh)
    && LogOk(g, s.disk)
    && s.durable <= |s.hist|
    && s.outstanding == |s.ops|
    && (s.committing || s.phase.Recovery? ==> s.ops == {})
    && (s.phase.Commit? ==> s.committing)
    && (s.phase.Recovery? ==> !s.committing && s.lh == [])
    && (s.phase.Idle? && s.committing ==> s.lh == [])
    && s.panic != Committing && s.panic != OutsideTrans
  }

  /** Clean buffers hold the disk contents; a dirty buffer is a logged block. */
  ghost predicate Coherent(disk: Disk, cache: map<nat, Cached>, lh: seq<nat>)
  {
    forall b: nat :: b in cache ==>
      b < |disk| && if cache[b].dirty then b in lh else cache[b].data == disk[b]
  }

  ghost predicate CacheOk(s: State) { Coherent(s.disk, s.cache, s.lh) }

  /** No operation straddles the committed prefix of the history. */
  ghost predicate Whole(s: State)
    requires s.durable <= |s.hist|
  {
    && s.ops <= s.seen
    && (forall i :: 0 <= i < |s.hist| ==> s.hist[i].op in s.seen)
    && (forall i :: 0 <= i < s.durable ==> s.hist[i].op !in s.ops)
    && (forall i, j :: 0 <= i < s.durable <= j < |s.hist| ==> s.hist[i].op != s.hist[j].op)
    && ((s.phase.Idle? && s.lh == []) || s.phase.Recovery? ==> s.durable == |s.hist|)
  }

  ghost predicate IdleOk(g: Region, img: Disk, s: State)
    requires Shape(g, img, s)
  {
    && Word(s.disk[g.start], 0) == 0
    && SameHome(g, s.disk, Replay(img, s.hist[..s.durable]))
    && SameHome(g, View(s), Replay(img, s.hist))
  }

  ghost predicate CommitOk(g: Region, img: Disk, s: State)
    requires Shape(g, img, s) && s.phase.Commit?
  {
    var Commit(base, view, plan, done) := s.phase;
    && |base| == |img|
    && s.lh != []
    && CommitReady(g, base, view, s.lh)
    && plan == CommitWrites(g, base, view, s.lh)
    && done <= |plan|
    && s.disk == CommitCut(g, base, view, s.lh, done)
    && SameHome(g, view, Replay(img, s.hist))
    && SameHome(g, View(s), view)
    && (done <= |s.lh| ==> SameHome(g, base, Replay(img, s.hist[..s.durable])))
    && (done > |s.lh| ==> s.durable == |s.hist|)
    && (forall b :: b in s.cache && s.cache[b].dirty ==>
         exists i :: Pending(i, done, |s.lh|) && i < |s.lh| && s.lh[i] == b)
  }

  /** Log slot i has not been installed after `done` writes of a commit of n blocks. */
  predicate Pending(i: int, done: nat, n: nat) { 0 <= i && done <= n + 1 + i }

  ghost predicate RecoveryOk(g: Region, img: Disk, s: State)
    requires Shape(g, img, s) && s.phase.Recovery?
  {
    var Recovery(base, plan, done) := s.phase;
    && |base| == |img|
    && LogOk(g, base)
    && plan == RecoverWrites(g, base)
    && done <= |plan|
    && s.disk == Apply(base, plan[..done])
    && SameHome(g, Recover(g, base), Replay(img, s.hist))
  }

  ghost predicate Inv(g: Region, img: Disk, s: State)
  {
    && Shape(g, img, s)
    && CacheOk(s)
    && Whole(s)
    && match s.phase
       case Idle => IdleOk(g, img, s)
       case Commit(_, _, _, _) => CommitOk(g, img, s)
       case Recovery(_, _, _) => RecoveryOk(g, img, s)
  }
}
