/** The buffer cache over every run of bget, bread, bwrite and brelse by any number of processes: a buffer has
    one holder from its bget to its brelse, nobody sleeps for a buffer that is free, and a holder reads the
    last contents anyone stored. */
module BufRuns {
  import opened Blocks
  import opened MemIde
  import opened BufRing
  import opened BufCache
  import opened BufCode

  /** A process outside bget, inside it and about to scan, or asleep in it on a buffer. */
  datatype User = Idle | Wants(key: Key) | Sleeps(key: Key, b: nat)

  /** `held[b]`: the process whose bget returned buffer b and who has not released it.
      `blocks`: the contents last stored in each block by a holder. */
  datatype State = State(
    bufs: seq<Buf>, ring: seq<nat>, disk: Disk, users: seq<User>, held: map<nat, nat>, blocks: Disk)

  datatype Step =
    | Start(p: nat, key: Key)                             // bread is called
    | Scan(p: nat)                                        // one pass of bget under bcache.lock
    | Fill(p: nat, b: nat)                                // bread's iderw
    | Change(p: nat, b: nat, data: Block, pin: bool)      // the holder stores into b->data, log_write pins it
    | Write(p: nat, b: nat)                               // bwrite
    | Release(p: nat, b: nat)                             // brelse

  predicate Holds(s: State, p: nat, b: nat)
  {
    p < |s.users| && b in s.held && s.held[b] == p && b < |s.bufs| && s.bufs[b].key in s.disk
  }

  ghost predicate Enabled(s: State, a: Step)
  {
    match a
    case Start(p, key) => p < |s.users| && s.users[p].Idle? && key.dev != NODEV && key in s.disk
    // With every buffer busy or dirty bget panics and nothing follows.
    case Scan(p) =>
      && p < |s.users| && s.users[p].Wants? && |s.ring| >= 1
      && var g := Choose(s.bufs, s.ring, s.users[p].key);
         !g.NoBuffers? && (g.Hit? || g.Recycled? ==> g.b < |s.bufs|)
    case Fill(p, b) => Holds(s, p, b) && !s.bufs[b].valid
    case Change(p, b, _, _) => Holds(s, p, b) && s.bufs[b].valid
    case Write(p, b) => Holds(s, p, b)
    // The caller has written or pinned what it changed.
    case Release(p, b) =>
      && Holds(s, p, b) && (exists k :: 0 < k < |s.ring| && s.ring[k] == b)
      && (s.bufs[b].valid && !s.bufs[b].dirty ==> s.bufs[b].data == s.disk[s.bufs[b].key])
  }

  /** b moved right after the head. */
  ghost function Front(ring: seq<nat>, b: nat): (r: seq<nat>)
    requires exists k :: 0 < k < |ring| && ring[k] == b
  {
    var k: nat :| 0 < k < |ring| && ring[k] == b;
    InFront(Without(ring, k), b)
  }

  function Woken(u: User, b: nat): User { if u.Sleeps? && u.b == b then Wants(u.key) else u }

  function WakeAll(us: seq<User>, b: nat): (r: seq<User>)
    ensures |r| == |us| && forall i :: 0 <= i < |us| ==> r[i] == Woken(us[i], b)
  {
    seq(|us|, i requires 0 <= i < |us| => Woken(us[i], b))
  }

  ghost function DoScan(s: State, p: nat): (t: State)
    requires Enabled(s, Scan(p))
  {
    var key := s.users[p].key;
    var g := Choose(s.bufs, s.ring, key);
    if g.MustWait? then s.(users := s.users[p := Sleeps(key, g.b)])
    else s.(bufs := AfterGet(s.bufs, g, key), users := s.users[p := Idle], held := s.held[g.b := p])
  }

  ghost function Do(s: State, a: Step): (t: State)
    requires Enabled(s, a)
  {
    match a
    case Start(p, key) => s.(users := s.users[p := Wants(key)])
    case Scan(p) => DoScan(s, p)
    case Fill(p, b) =>
      var x := s.bufs[b];
      s.(bufs := s.bufs[b := x.(data := s.disk[x.key], valid := true, dirty := false)])
    case Change(p, b, data, pin) =>
      var x := s.bufs[b];
      s.(bufs := s.bufs[b := x.(data := data, dirty := pin || x.dirty)], blocks := s.blocks[x.key := data])
    case Write(p, b) =>
      var x := s.bufs[b];
      s.(bufs := s.bufs[b := x.(dirty := false, valid := true)],
         disk := s.disk[x.key := x.data], blocks := s.blocks[x.key := x.data])
    case Release(p, b) =>
      s.(bufs := s.bufs[b := s.bufs[b].(busy := false)], ring := Front(s.ring, b),
         users := WakeAll(s.users, b), held := s.held - {b})
  }

  /** binit has run and nobody has called bread. */
  ghost predicate Init(s: State)
  {
    && RingOf(s.ring, |s.bufs|) && s.held == map[] && s.blocks == s.disk
    && (forall b :: 0 <= b < |s.bufs| ==>
         s.bufs[b].key == Key(NODEV, 0) && !s.bufs[b].busy && !s.bufs[b].valid && !s.bufs[b].dirty)
    && (forall p :: 0 <= p < |s.users| ==> s.users[p].Idle?)
  }

  ghost predicate Run(s: State, run: seq<Step>, t: State)
    decreases |run|
  {
    if run == [] then s == t else Enabled(s, run[0]) && Run(Do(s, run[0]), run[1..], t)
  }

  // ---------------------------------------------------------------- the invariant

  ghost predicate Cache(bufs: seq<Buf>, disk: Disk) { Unique(bufs) && Clean(bufs, disk) && FreshEmpty(bufs) }

  /** The busy buffers are exactly those somebody holds. */
  ghost predicate Held(bufs: seq<Buf>, disk: Disk, held: map<nat, nat>)
  {
    && (forall b :: b in held ==> b < |bufs|)
    && (forall b: nat :: b < |bufs| ==> (bufs[b].busy <==> b in held))
    && (forall b: nat :: b < |bufs| && bufs[b].busy ==> bufs[b].key in disk)
  }

  /** Whoever is in bget wants a real block; whoever sleeps there sleeps on the busy buffer of that block. */
  predicate Patient(bufs: seq<Buf>, disk: Disk, u: User)
  {
    && (!u.Idle? ==> u.key.dev != NODEV && u.key in disk)
    && (u.Sleeps? ==> u.b < |bufs| && bufs[u.b].busy && bufs[u.b].key == u.key)
  }

  ghost predicate Queue(bufs: seq<Buf>, disk: Disk, users: seq<User>)
  {
    forall p :: 0 <= p < |users| ==> Patient(bufs, disk, users[p])
  }

  ghost predicate Coherent(bufs: seq<Buf>, disk: Disk, blocks: Disk)
  {
    blocks.Keys == disk.Keys && forall k :: k in disk && k.dev != NODEV ==> View(bufs, disk, k) == blocks[k]
  }

  ghost predicate Inv(s: State)
  {
    && RingOf(s.ring, |s.bufs|) && Cache(s.bufs, s.disk) && Held(s.bufs, s.disk, s.held)
    && Queue(s.bufs, s.disk, s.users) && Coherent(s.bufs, s.disk, s.blocks)
  }

  lemma InitInv(s: State)
    requires Init(s)
    ensures Inv(s)
  {
    forall k | k in s.disk && k.dev != NODEV
      ensures View(s.bufs, s.disk, k) == s.blocks[k]
    {
      NoHolder(s.bufs, k);
    }
  }

  // ---------------------------------------------------------------- every step

  lemma ScanKeeps(s: State, p: nat)
    requires Inv(s) && Enabled(s, Scan(p))
    ensures Inv(Do(s, Scan(p)))
  {
    hide Choose, RingOf, Unique, Clean, FreshEmpty, View, LongestAgo;
    var key := s.users[p].key;
    var g := Choose(s.bufs, s.ring, key);
    assert Patient(s.bufs, s.disk, s.users[p]);
    Chosen(s.bufs, s.ring, key);
    if g.Hit? {
      HitKeeps(s.bufs, s.disk, g.b);
      Granted(s, p, g.b, s.bufs[g.b].(busy := true));
    } else if g.Recycled? {
      RecycleKeeps(s.bufs, s.disk, g.b, key);
      Granted(s, p, g.b, Buf(key, true, false, false, s.bufs[g.b].data));
    }
  }

  /** An idle buffer becomes busy and p's. */
  lemma Granted(s: State, p: nat, b: nat, x: Buf)
    requires Held(s.bufs, s.disk, s.held) && Queue(s.bufs, s.disk, s.users)
    requires p < |s.users| && b < |s.bufs| && !s.bufs[b].busy && x.busy && x.key in s.disk
    ensures var bufs := s.bufs[b := x];
      Held(bufs, s.disk, s.held[b := p]) && Queue(bufs, s.disk, s.users[p := Idle])
  {
    var bufs, users := s.bufs[b := x], s.users[p := Idle];
    forall q | 0 <= q < |users|
      ensures Patient(bufs, s.disk, users[q])
    {
      assert Patient(s.bufs, s.disk, s.users[q]);
    }
  }

  /** The holder changes its buffer, the block it is for aside. */
  lemma HolderKeeps(s: State, b: nat, x: Buf, disk: Disk)
    requires Held(s.bufs, s.disk, s.held) && Queue(s.bufs, s.disk, s.users) && disk.Keys == s.disk.Keys
    requires b < |s.bufs| && s.bufs[b].busy && x.busy && x.key == s.bufs[b].key
    ensures Held(s.bufs[b := x], disk, s.held) && Queue(s.bufs[b := x], disk, s.users)
  {
    var bufs := s.bufs[b := x];
    forall k
      ensures k in disk <==> k in s.disk
    {
      assert k in disk.Keys <==> k in s.disk.Keys;
    }
    forall q | 0 <= q < |s.users|
      ensures Patient(bufs, disk, s.users[q])
    {
      assert Patient(s.bufs, s.disk, s.users[q]);
    }
  }

  lemma FillKeeps(s: State, p: nat, b: nat)
    requires Inv(s) && Enabled(s, Fill(p, b))
    ensures Inv(Do(s, Fill(p, b)))
  {
    hide RingOf, Unique, Clean, FreshEmpty, View;
    var x := s.bufs[b].(data := s.disk[s.bufs[b].key], valid := true, dirty := false);
    FilledKeeps(s.bufs, s.disk, b);
    HolderKeeps(s, b, x, s.disk);
  }

  lemma ChangeKeeps(s: State, p: nat, b: nat, data: Block, pin: bool)
    requires Inv(s) && Enabled(s, Change(p, b, data, pin))
    ensures Inv(Do(s, Change(p, b, data, pin)))
  {
    hide RingOf, Unique, Clean, FreshEmpty, View;
    var x := s.bufs[b].(data := data, dirty := pin || s.bufs[b].dirty);
    ModifiedKeeps(s.bufs, s.disk, b, data, pin);
    HolderKeeps(s, b, x, s.disk);
    assert s.blocks[x.key := data].Keys == s.disk.Keys by { assert x.key in s.disk.Keys; }
  }

  lemma WriteKeeps(s: State, p: nat, b: nat)
    requires Inv(s) && Enabled(s, Write(p, b))
    ensures Inv(Do(s, Write(p, b)))
  {
    hide RingOf, Unique, Clean, FreshEmpty, View;
    var x := s.bufs[b].(dirty := false, valid := true);
    var disk := s.disk[x.key := x.data];
    assert disk.Keys == s.disk.Keys by { assert x.key in s.disk.Keys; }
    assert s.blocks[x.key := x.data].Keys == disk.Keys;
    WrittenKeeps(s.bufs, s.disk, b);
    HolderKeeps(s, b, x, disk);
  }

  lemma ReleaseKeeps(s: State, p: nat, b: nat)
    requires Inv(s) && Enabled(s, Release(p, b))
    ensures Inv(Do(s, Release(p, b)))
  {
    hide RingOf, Unique, Clean, FreshEmpty, View, Front;
    var t := Do(s, Release(p, b));
    ReleasedKeeps(s.bufs, s.disk, b);
    FrontRing(s.ring, |s.bufs|, b);
    forall q | 0 <= q < |t.users|
      ensures Patient(t.bufs, t.disk, t.users[q])
    {
      assert Patient(s.bufs, s.disk, s.users[q]);
    }
  }

  lemma FrontRing(ring: seq<nat>, n: nat, b: nat)
    requires RingOf(ring, n) && exists k :: 0 < k < |ring| && ring[k] == b
    ensures RingOf(Front(ring, b), n)
  {
    var r := Front(ring, b);
    var k: nat :| 0 < k < |ring| && ring[k] == b && r == InFront(Without(ring, k), b);
    RingMinus(ring, k);
    FrontHas(ring, k, b, n);
    var mid := Without(ring, k);
    assert forall i :: 1 < i < |r| ==> r[i] == mid[i - 1];
  }

  lemma StepKeeps(s: State, a: Step)
    requires Inv(s) && Enabled(s, a)
    ensures Inv(Do(s, a))
  {
    match a
    case Start(p, key) => StartKeeps(s, p, key);
    case Scan(p) => ScanKeeps(s, p);
    case Fill(p, b) => FillKeeps(s, p, b);
    case Change(p, b, data, pin) => ChangeKeeps(s, p, b, data, pin);
    case Write(p, b) => WriteKeeps(s, p, b);
    case Release(p, b) => ReleaseKeeps(s, p, b);
  }

  lemma StartKeeps(s: State, p: nat, key: Key)
    requires Inv(s) && Enabled(s, Start(p, key))
    ensures Inv(Do(s, Start(p, key)))
  {
    hide RingOf, Cache, Held, Coherent;
  }

  lemma {:induction false} RunKeeps(s: State, run: seq<Step>, t: State)
    requires Inv(s) && Run(s, run, t)
    ensures Inv(t)
    decreases |run|
  {
    hide Inv, Do, Enabled;
    if run != [] {
      StepKeeps(s, run[0]);
      RunKeeps(Do(s, run[0]), run[1..], t);
    }
  }

  // ---------------------------------------------------------------- every run

  /** From binit on, in every run: the buffer a bget returns is held by nobody, and afterwards by the
      caller for the block it asked for; a bget waits exactly for a buffer somebody holds. */
  lemma GetsAreExclusive(s: State, run: seq<Step>, t: State, p: nat)
    requires Init(s) && Run(s, run, t) && Enabled(t, Scan(p))
    ensures var g, t', key := Choose(t.bufs, t.ring, t.users[p].key), Do(t, Scan(p)), t.users[p].key;
      && (g.Hit? || g.Recycled? ==>
            && g.b !in t.held && t'.held == t.held[g.b := p]
            && t'.bufs[g.b].busy && t'.bufs[g.b].key == key && t'.users[p].Idle?)
      && (g.MustWait? <==> exists b :: b in t.held && b < |t.bufs| && t.bufs[b].key == key)
      && (g.MustWait? ==> t'.held == t.held && t'.bufs == t.bufs && t'.users[p] == Sleeps(key, g.b))
  {
    hide Choose, RingOf, Unique, Clean, FreshEmpty, View, LongestAgo;
    InitInv(s);
    RunKeeps(s, run, t);
    assert Patient(t.bufs, t.disk, t.users[p]);
    Chosen(t.bufs, t.ring, t.users[p].key);
  }

  /** In every run two buffers somebody holds are for different blocks; a process asleep in bget sleeps on
      the buffer of its block, and that buffer is held; and a buffer that is held and has been read has the
      contents last stored in its block. */
  lemma HoldersAgree(s: State, run: seq<Step>, t: State)
    requires Init(s) && Run(s, run, t)
    ensures forall b, c :: b in t.held && c in t.held && b != c ==>
      b < |t.bufs| && c < |t.bufs| && t.bufs[b].key != t.bufs[c].key
    ensures forall p :: 0 <= p < |t.users| && t.users[p].Sleeps? ==>
      t.users[p].b in t.held && t.users[p].b < |t.bufs| && t.bufs[t.users[p].b].key == t.users[p].key
    ensures forall b :: b in t.held && b < |t.bufs| && t.bufs[b].valid ==>
      t.bufs[b].key in t.blocks && t.bufs[b].data == t.blocks[t.bufs[b].key]
  {
    hide RingOf, View, Clean;
    InitInv(s);
    RunKeeps(s, run, t);
    forall p | 0 <= p < |t.users| && t.users[p].Sleeps?
      ensures t.users[p].b in t.held && t.users[p].b < |t.bufs| && t.bufs[t.users[p].b].key == t.users[p].key
    {
      assert Patient(t.bufs, t.disk, t.users[p]);
    }
    forall b | b in t.held && b < |t.bufs| && t.bufs[b].valid
      ensures t.bufs[b].key in t.blocks && t.bufs[b].data == t.blocks[t.bufs[b].key]
    {
      ViewOfHolder(t.bufs, t.disk, b);
      assert t.bufs[b].key in t.blocks.Keys;
    }
  }

  /** A step of q on a buffer it holds. */
  predicate Uses(a: Step, q: nat, b: nat)
  {
    match a
    case Start(_, _) => false
    case Scan(_) => false
    case Fill(p, c) => p == q && c == b
    case Change(p, c, _, _) => p == q && c == b
    case Write(p, c) => p == q && c == b
    case Release(p, c) => p == q && c == b
  }

  lemma StepLeaves(s: State, a: Step, q: nat, b: nat)
    requires Inv(s) && Enabled(s, a) && b in s.held && s.held[b] == q && !Uses(a, q, b)
    ensures var t := Do(s, a); b in t.held && t.held[b] == q && b < |s.bufs| == |t.bufs| && t.bufs[b] == s.bufs[b]
    ensures a.Scan? ==> var g := Choose(s.bufs, s.ring, s.users[a.p].key); (g.Hit? || g.Recycled?) ==> g.b != b
  {
    hide Choose, RingOf, Unique, Clean, FreshEmpty, View, LongestAgo, Front, Coherent;
    if a.Scan? {
      assert Patient(s.bufs, s.disk, s.users[a.p]);
      Chosen(s.bufs, s.ring, s.users[a.p].key);
    }
  }

  /** Between a bget and its brelse nobody else gets the buffer and nobody else changes it: as long as its
      holder q does nothing with buffer b, q still holds it and it stays as q left it. */
  lemma {:induction false} HeldUntilReleased(s: State, run: seq<Step>, t: State, q: nat, b: nat)
    requires Inv(s) && Run(s, run, t) && b in s.held && s.held[b] == q
    requires forall i :: 0 <= i < |run| ==> !Uses(run[i], q, b)
    ensures b in t.held && t.held[b] == q && b < |s.bufs| == |t.bufs| && t.bufs[b] == s.bufs[b]
    decreases |run|
  {
    hide Inv, Do, Enabled, Uses;
    HeldBound(s, b);
    if run != [] {
      StepKeeps(s, run[0]);
      StepLeaves(s, run[0], q, b);
      HeldUntilReleased(Do(s, run[0]), run[1..], t, q, b);
    }
  }

  lemma HeldBound(s: State, b: nat)
    requires Inv(s) && b in s.held
    ensures b < |s.bufs|
  {
  }

  /** From binit: a process that has got a buffer keeps it, untouched by the others, until it uses it itself,
      and meanwhile no bget of anybody returns that buffer. */
  lemma HolderAlone(s: State, run: seq<Step>, m: State, more: seq<Step>, t: State, q: nat, b: nat, p: nat)
    requires Init(s) && Run(s, run, m) && b in m.held && m.held[b] == q
    requires Run(m, more, t) && forall i :: 0 <= i < |more| ==> !Uses(more[i], q, b)
    ensures b in t.held && t.held[b] == q && b < |m.bufs| == |t.bufs| && t.bufs[b] == m.bufs[b]
    ensures Enabled(t, Scan(p)) ==>
      var g := Choose(t.bufs, t.ring, t.users[p].key); g.Hit? || g.Recycled? ==> g.b != b
  {
    hide Inv, Do, Choose;
    InitInv(s);
    RunKeeps(s, run, m);
    HeldUntilReleased(m, more, t, q, b);
    RunKeeps(m, more, t);
    if Enabled(t, Scan(p)) {
      StepLeaves(t, Scan(p), q, b);
    }
  }
}
