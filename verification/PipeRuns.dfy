/** Any number of readers and writers on one pipe: bytes come out in the order they went in, end of
    file comes after the last byte written, and sleepers have a reason to sleep. */
module PipeRuns {
  import opened Machine
  import opened PipeRing

  /** What the last call of a process returned: the bytes it read, the count it wrote, or -1. */
  datatype Answer = Nothing | Got(bytes: seq<Byte>) | Put(n: nat) | Failed

  /** A process using the pipe. Between passes it is asleep, or woken and about to take the lock again. */
  datatype User =
    | Idle(last: Answer)
    | Writer(total: nat, rest: seq<Byte>, asleep: bool)
    | Reader(n: nat, asleep: bool)

  datatype State = State(
    q: seq<Byte>, readopen: bool, writeopen: bool, users: seq<User>, killed: set<nat>,
    written: seq<Byte>, read: seq<Byte>)

  datatype Step =
    | StartWrite(p: nat, bytes: seq<Byte>)
    | StartRead(p: nat, n: nat)
    | Write(p: nat)   // one pass of pipewrite under the lock
    | Read(p: nat)    // one pass of piperead under the lock
    | CloseWrite
    | CloseRead
    | Kill(p: nat)

  function WakeReader(u: User): User { if u.Reader? then Reader(u.n, false) else u }
  function WakeWriter(u: User): User { if u.Writer? then Writer(u.total, u.rest, false) else u }

  function WakeReaders(us: seq<User>): (r: seq<User>)
    ensures |r| == |us| && forall i :: 0 <= i < |us| ==> r[i] == WakeReader(us[i])
  {
    seq(|us|, i requires 0 <= i < |us| => WakeReader(us[i]))
  }

  function WakeWriters(us: seq<User>): (r: seq<User>)
    ensures |r| == |us| && forall i :: 0 <= i < |us| ==> r[i] == WakeWriter(us[i])
  {
    seq(|us|, i requires 0 <= i < |us| => WakeWriter(us[i]))
  }

  predicate Enabled(s: State, a: Step)
  {
    match a
    case StartWrite(p, _) => p < |s.users| && s.users[p].Idle? && s.writeopen
    case StartRead(p, _) => p < |s.users| && s.users[p].Idle? && s.readopen
    case Write(p) => p < |s.users| && s.users[p].Writer? && !s.users[p].asleep && |s.q| <= PIPESIZE
    case Read(p) => p < |s.users| && s.users[p].Reader? && !s.users[p].asleep
    // A process inside pipewrite or piperead keeps that end open.
    case CloseWrite => s.writeopen && forall i :: 0 <= i < |s.users| ==> !s.users[i].Writer?
    case CloseRead => s.readopen && forall i :: 0 <= i < |s.users| ==> !s.users[i].Reader?
    case Kill(p) => p < |s.users|
  }

  /** One pass of pipewrite: it wakes readers when it returns normally and before it sleeps, but not
      when it gives up. */
  function DoWrite(s: State, p: nat): (t: State)
    requires Enabled(s, Write(p))
  {
    var rest := s.users[p].rest;
    var k := Room(|s.q|, |rest|);
    var s1 := s.(q := s.q + rest[..k], written := s.written + rest[..k]);
    match WriteOutcome(|s.q|, |rest|, s.readopen, p in s.killed)
    case Returned => s1.(users := WakeReaders(s.users)[p := Idle(Put(s.users[p].total))])
    case Error => s1.(users := s.users[p := Idle(Failed)])
    case Asleep => s1.(users := WakeReaders(s.users)[p := Writer(s.users[p].total, rest[k..], true)])
  }

  function DoRead(s: State, p: nat): (t: State)
    requires Enabled(s, Read(p))
  {
    var n := s.users[p].n;
    match ReadOutcome(|s.q|, s.writeopen, p in s.killed)
    case Returned =>
      var k := Min(n, |s.q|);
      s.(q := s.q[k..], read := s.read + s.q[..k], users := WakeWriters(s.users)[p := Idle(Got(s.q[..k]))])
    case Error => s.(users := s.users[p := Idle(Failed)])
    case Asleep => s.(users := s.users[p := Reader(n, true)])
  }

  function Do(s: State, a: Step): (t: State)
    requires Enabled(s, a)
  {
    match a
    case StartWrite(p, bytes) => s.(users := s.users[p := Writer(|bytes|, bytes, false)])
    case StartRead(p, n) => s.(users := s.users[p := Reader(n, false)])
    case Write(p) => DoWrite(s, p)
    case Read(p) => DoRead(s, p)
    case CloseWrite => s.(writeopen := false, users := WakeReaders(s.users))
    case CloseRead => s.(readopen := false, users := WakeWriters(s.users))
    case Kill(p) =>
      s.(killed := s.killed + {p},
         users := s.users[p := WakeReader(WakeWriter(s.users[p]))])
  }

  ghost predicate Init(s: State)
  {
    && s.q == [] && s.written == [] && s.read == [] && s.readopen && s.writeopen && s.killed == {}
    && forall i :: 0 <= i < |s.users| ==> s.users[i] == Idle(Nothing)
  }

  ghost predicate Run(s: State, run: seq<Step>, t: State)
    decreases |run|
  {
    if run == [] then s == t else Enabled(s, run[0]) && Run(Do(s, run[0]), run[1..], t)
  }

  // ---------------------------------------------------------------- order

  ghost predicate Fifo(s: State) { s.read + s.q == s.written && |s.q| <= PIPESIZE }

  lemma WriteFifo(s: State, p: nat)
    requires Fifo(s) && Enabled(s, Write(p))
    ensures Fifo(DoWrite(s, p))
  {
    hide WakeReaders, WriteOutcome;
    var rest := s.users[p].rest;
    var k := Room(|s.q|, |rest|);
    assert s.read + (s.q + rest[..k]) == (s.read + s.q) + rest[..k];
  }

  lemma ReadFifo(s: State, p: nat)
    requires Fifo(s) && Enabled(s, Read(p))
    ensures Fifo(DoRead(s, p))
  {
    hide WakeWriters, ReadOutcome;
    var k := Min(s.users[p].n, |s.q|);
    assert s.q == s.q[..k] + s.q[k..];
    assert (s.read + s.q[..k]) + s.q[k..] == s.read + s.q;
  }

  lemma StepFifo(s: State, a: Step)
    requires Fifo(s) && Enabled(s, a)
    ensures Fifo(Do(s, a))
  {
    hide DoWrite, DoRead, WakeReaders, WakeWriters, WakeReader, WakeWriter;
    match a
    case Write(p) => WriteFifo(s, p);
    case Read(p) => ReadFifo(s, p);
    case _ =>
  }

  /** In every run, kills and closes included, what has been read followed by what is buffered is what
      has been written, and the buffer never exceeds PIPESIZE. */
  lemma {:induction false} RunFifo(s: State, run: seq<Step>, t: State)
    requires Fifo(s) && Run(s, run, t)
    ensures Fifo(t)
    decreases |run|
  {
    hide Do, Enabled;
    if run != [] {
      StepFifo(s, run[0]);
      RunFifo(Do(s, run[0]), run[1..], t);
    }
  }

  // ---------------------------------------------------------------- answers

  /** A pass of pipewrite returns the count exactly when all that is left fits, and then all of it is
      in the pipe; otherwise the pipe is full, and it fails exactly when nobody reads or it is killed. */
  lemma WriteAnswers(s: State, p: nat)
    requires Enabled(s, Write(p))
    ensures var t, w := Do(s, Write(p)), s.users[p];
      && (|s.q| + |w.rest| <= PIPESIZE ==> t.users[p] == Idle(Put(w.total)) && t.written == s.written + w.rest)
      && (|s.q| + |w.rest| > PIPESIZE ==>
            && |t.q| == PIPESIZE
            && if !s.readopen || p in s.killed then t.users[p] == Idle(Failed)
               else t.users[p].Writer? && t.users[p].asleep && t.written + t.users[p].rest == s.written + w.rest)
  {
    var rest := s.users[p].rest;
    var k := Room(|s.q|, |rest|);
    assert rest[..k] + rest[k..] == rest;
    assert (s.written + rest[..k]) + rest[k..] == s.written + (rest[..k] + rest[k..]);
  }

  /** A pass of piperead returns exactly when there are bytes or nobody will write any. */
  lemma ReadAnswers(s: State, p: nat)
    requires Enabled(s, Read(p))
    ensures var t, n := Do(s, Read(p)), s.users[p].n;
      && (t.users[p].Idle? && t.users[p].last.Got? <==> s.q != [] || !s.writeopen)
      && (t.users[p] == Idle(Failed) <==> s.q == [] && s.writeopen && p in s.killed)
      && (t.users[p] == Reader(n, true) <==> s.q == [] && s.writeopen && p !in s.killed)
      && (t.users[p].Idle? && t.users[p].last.Got? ==>
            var bytes := t.users[p].last.bytes;
            bytes + t.q == s.q && |bytes| <= n && (|bytes| == n || t.q == []) && t.read == s.read + bytes)
      && (t.users[p].Idle? || (t.q == s.q && t.read == s.read))
  {
    var k := Min(s.users[p].n, |s.q|);
    assert s.q == s.q[..k] + s.q[k..];
  }

  // ---------------------------------------------------------------- closed ends

  /** Process i does not sleep once it is killed, nor on an end whose other end is closed; and nobody
      is inside a call on an end that is closed. */
  predicate AwakeAt(s: State, i: nat)
    requires i < |s.users|
  {
    var u := s.users[i];
    && (i in s.killed && !u.Idle? ==> !u.asleep)
    && (u.Reader? ==> s.readopen && (!s.writeopen ==> !u.asleep))
    && (u.Writer? ==> s.writeopen && (!s.readopen ==> !u.asleep))
  }

  ghost predicate Awake(s: State) { forall i: nat :: i < |s.users| ==> AwakeAt(s, i) }

  lemma StepAwake(s: State, a: Step)
    requires Awake(s) && Enabled(s, a)
    ensures Awake(Do(s, a))
  {
    var t := Do(s, a);
    forall i: nat | i < |t.users|
      ensures AwakeAt(t, i)
    {
      assert AwakeAt(s, i);
    }
  }

  lemma {:induction false} RunAwake(s: State, run: seq<Step>, t: State)
    requires Awake(s) && Run(s, run, t)
    ensures Awake(t)
    decreases |run|
  {
    hide Do, Enabled;
    if run != [] {
      StepAwake(s, run[0]);
      RunAwake(Do(s, run[0]), run[1..], t);
    }
  }

  /** In every run, kills included: a killed process never stays asleep in the pipe, no reader sleeps
      once the write end is closed, and no writer once the read end is. */
  lemma NobodySleepsOnClosed(s: State, run: seq<Step>, t: State, i: nat)
    requires Init(s) && Run(s, run, t) && i < |t.users| && !t.users[i].Idle? && t.users[i].asleep
    ensures i !in t.killed && t.readopen && t.writeopen
  {
    RunAwake(s, run, t);
    assert AwakeAt(t, i);
  }

  lemma {:induction false} WrittenStays(s: State, run: seq<Step>, t: State)
    requires Awake(s) && !s.writeopen && Run(s, run, t)
    ensures t.written == s.written && !t.writeopen
    decreases |run|
  {
    if run != [] {
      var s' := Do(s, run[0]);
      StepAwake(s, run[0]);
      NothingWritten(s, run[0]);
      WrittenStays(s', run[1..], t);
    }
  }

  lemma NothingWritten(s: State, a: Step)
    requires Awake(s) && !s.writeopen && Enabled(s, a)
    ensures Do(s, a).written == s.written && !Do(s, a).writeopen
  {
    forall i: nat | i < |s.users|
      ensures !s.users[i].Writer?
    {
      assert AwakeAt(s, i);
    }
  }

  /** End of file: after the write end is closed nothing more is written, every read returns at once
      with the next bytes written and not yet read, as many as it asks for or all there are, and with
      none exactly when it asks for none or everything written has been read. */
  lemma EndOfFile(s: State, run: seq<Step>, m: State, more: seq<Step>, t: State, p: nat)
    requires Init(s) && Run(s, run, m) && !m.writeopen && Run(m, more, t) && Enabled(t, Read(p))
    ensures t.written == m.written
    ensures var t', n := Do(t, Read(p)), t.users[p].n;
      && t'.users[p].Idle? && t'.users[p].last.Got?
      && var bytes := t'.users[p].last.bytes;
      && t.read + bytes <= m.written
      && |bytes| <= n && (|bytes| == n || t.read + bytes == m.written)
      && t'.read == t.read + bytes
      && (bytes == [] <==> n == 0 || t.read == m.written)
  {
    RunFifo(s, run, m);
    RunFifo(m, more, t);
    RunAwake(s, run, m);
    WrittenStays(m, more, t);
    ReadFifo(t, p);
  }

  // ---------------------------------------------------------------- progress

  /** A reader sleeps only on an empty pipe with a writer end, a writer only on a full one with a reader end. */
  predicate Justified(s: State, u: User)
  {
    && (u.Reader? && u.asleep ==> s.q == [] && s.writeopen)
    && (u.Writer? && u.asleep ==> |s.q| == PIPESIZE && s.readopen)
  }

  ghost predicate Live(s: State)
  {
    && |s.q| <= PIPESIZE
    && (forall i :: 0 <= i < |s.users| ==> Justified(s, s.users[i]))
    && (!s.writeopen ==> forall i :: 0 <= i < |s.users| ==> !s.users[i].Writer?)
    && (!s.readopen ==> forall i :: 0 <= i < |s.users| ==> !s.users[i].Reader?)
  }

  ghost predicate ReaderAsleep(s: State)
  {
    exists i :: 0 <= i < |s.users| && s.users[i].Reader? && s.users[i].asleep
  }

  /** The one step that can strand a sleeping reader: a killed writer fills the pipe and gives up. */
  ghost predicate Strands(s: State, a: Step)
  {
    && a.Write? && a.p < |s.users| && s.users[a.p].Writer? && a.p in s.killed
    && |s.users[a.p].rest| > PIPESIZE && ReaderAsleep(s)
  }

  lemma WriteLive(s: State, p: nat)
    requires Live(s) && Enabled(s, Write(p)) && !Strands(s, Write(p))
    ensures Live(Do(s, Write(p)))
  {
    var t := DoWrite(s, p);
    var rest := s.users[p].rest;
    forall i | 0 <= i < |t.users|
      ensures Justified(t, t.users[i])
    {
      assert Justified(s, s.users[i]);
    }
  }

  lemma ReadLive(s: State, p: nat)
    requires Live(s) && Enabled(s, Read(p))
    ensures Live(Do(s, Read(p)))
  {
    var t := DoRead(s, p);
    forall i | 0 <= i < |t.users|
      ensures Justified(t, t.users[i])
    {
      assert Justified(s, s.users[i]);
    }
  }

  lemma OtherLive(s: State, a: Step)
    requires Live(s) && Enabled(s, a) && !a.Write? && !a.Read?
    ensures Live(Do(s, a))
  {
    var t := Do(s, a);
    forall i | 0 <= i < |t.users|
      ensures Justified(t, t.users[i])
    {
      assert Justified(s, s.users[i]);
    }
  }

  /** The stranding step does break the promise: it leaves a reader asleep on a full pipe. */
  lemma StrandsBreaks(s: State, a: Step)
    requires Live(s) && Enabled(s, a) && Strands(s, a)
    ensures !Live(Do(s, a))
  {
    var i :| 0 <= i < |s.users| && s.users[i].Reader? && s.users[i].asleep;
    assert Justified(s, s.users[i]);
    var t := Do(s, a);
    assert t.users[i] == s.users[i] && !Justified(t, t.users[i]);
  }

  /** A step keeps every sleeper justified exactly when it is not the stranding one. */
  lemma LiveIffNotStranding(s: State, a: Step)
    requires Live(s) && Enabled(s, a)
    ensures Live(Do(s, a)) <==> !Strands(s, a)
  {
    hide Live, Do;
    if Strands(s, a) {
      StrandsBreaks(s, a);
    } else {
      match a
      case Write(p) => WriteLive(s, p);
      case Read(p) => ReadLive(s, p);
      case _ => OtherLive(s, a);
    }
  }

  ghost predicate KillFree(run: seq<Step>) { forall i :: 0 <= i < |run| ==> !run[i].Kill? }

  lemma {:induction false} RunLive(s: State, run: seq<Step>, t: State)
    requires Live(s) && s.killed == {} && Run(s, run, t) && KillFree(run)
    ensures Live(t) && t.killed == {}
    decreases |run|
  {
    hide Live;
    if run != [] {
      LiveIffNotStranding(s, run[0]);
      RunLive(Do(s, run[0]), run[1..], t);
    }
  }

  /** Without kills: no reader sleeps beside buffered bytes, no writer beside free space, and a reader
      and a writer are never both asleep. */
  lemma SleepersJustified(s: State, run: seq<Step>, t: State, i: nat, j: nat)
    requires Init(s) && Run(s, run, t) && KillFree(run) && i < |t.users| && j < |t.users|
    ensures t.users[i].Reader? && t.users[i].asleep ==> t.q == [] && t.writeopen
    ensures t.users[j].Writer? && t.users[j].asleep ==> |t.q| == PIPESIZE && t.readopen
    ensures !(t.users[i].Reader? && t.users[i].asleep && t.users[j].Writer? && t.users[j].asleep)
  {
    RunLive(s, run, t);
    assert Justified(t, t.users[i]) && Justified(t, t.users[j]);
  }

  /** With a kill: a reader can be left asleep on a full pipe. */
  lemma KilledWriterStrands(bytes: seq<Byte>)
    requires |bytes| == PIPESIZE + 1
    ensures exists s, run, t ::
      Init(s) && Run(s, run, t) && |t.q| == PIPESIZE && |t.users| == 2 && t.users[0] == Reader(1, true)
  {
    var s := State([], true, true, [Idle(Nothing), Idle(Nothing)], {}, [], []);
    var run := [StartRead(0, 1), Read(0), StartWrite(1, bytes), Kill(1), Write(1)];
    var s1 := Do(s, run[0]);
    var s2 := Do(s1, run[1]);
    var s3 := Do(s2, run[2]);
    var s4 := Do(s3, run[3]);
    assert s4.users == [Reader(1, true), Writer(|bytes|, bytes, false)];
    var t := Do(s4, run[4]);
    assert run[1..] == [run[1], run[2], run[3], run[4]] && run[1..][1..] == [run[2], run[3], run[4]];
    assert run[1..][1..][1..] == [run[3], run[4]] && run[1..][1..][1..][1..] == [run[4]];
    assert Run(t, [], t) && [run[4]][1..] == [];
    assert Run(s4, [run[4]], t);
    assert Run(s3, [run[3], run[4]], t);
    assert Run(s2, [run[2], run[3], run[4]], t);
    assert Run(s1, run[1..], t);
    assert Run(s, run, t);
  }
}
