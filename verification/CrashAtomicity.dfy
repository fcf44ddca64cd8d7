/** Crash safety of commit: whatever writes reached the disk before the crash, and however
    often recovery itself is cut short, a completed recovery yields all of the transaction
    or none of it, and all of it exactly when the first header write reached the disk. */
module CrashAtomicity {
  import opened Blocks
  import opened RedoLog

  /** Re-applying a list of writes after any prefix of it has already been applied. */
  lemma Redo(d: Disk, ws: seq<Write>, k: nat)
    requires k <= |ws|
    ensures Apply(Apply(d, ws[..k]), ws) == Apply(d, ws)
  {
    forall b: nat | b < |d|
      ensures Apply(Apply(d, ws[..k]), ws)[b] == Apply(d, ws)[b]
    {
      RedoAt(d, ws, k, b);
    }
  }

  lemma RedoAt(d: Disk, ws: seq<Write>, k: nat, b: nat)
    requires k <= |ws| && b < |d|
    ensures Apply(Apply(d, ws[..k]), ws)[b] == Apply(d, ws)[b]
  {
    var i := LastWrite(ws, b);
    if i == -1 {
      ApplyMisses(d, ws, b);
      ApplyMisses(Apply(d, ws[..k]), ws, b);
      ApplyMisses(d, ws[..k], b);
    } else {
      ApplyHits(d, ws, i);
      ApplyHits(Apply(d, ws[..k]), ws, i);
    }
  }

  function LastWrite(ws: seq<Write>, b: nat): (i: int)
    ensures -1 <= i < |ws|
    ensures i >= 0 ==> ws[i].b == b
    ensures forall j :: i < j < |ws| ==> ws[j].b != b
  {
    if ws == [] then -1
    else if ws[|ws| - 1].b == b then |ws| - 1
    else LastWrite(ws[..|ws| - 1], b)
  }

  // ---------------------------------------------------------------- recovery

  /** Recovery copies log slot i to its home block, when the header names that block once. */
  lemma RecoverInstalls(g: Region, d: Disk, i: nat)
    requires LogOk(g, d) && i < Word(d[g.start], 0)
    requires forall j :: i < j < Word(d[g.start], 0) ==> Entries(d[g.start])[j] != Entries(d[g.start])[i]
    ensures Recover(g, d)[Entries(d[g.start])[i]] == d[g.start + 1 + i]
  {
    ApplyHits(d, RecoverWrites(g, d), i);
  }

  /** Recovery changes no home block that the header does not name. */
  lemma RecoverMisses(g: Region, d: Disk, b: nat)
    requires LogOk(g, d) && b < |d| && !g.Has(b) && b !in Entries(d[g.start])
    ensures Recover(g, d)[b] == d[b]
  {
    ApplyMisses(d, RecoverWrites(g, d), b);
  }

  /** While recovery installs blocks it touches neither the header nor the log slots. */
  lemma InstallKeepsLog(g: Region, d: Disk, k: nat)
    requires LogOk(g, d) && k <= Word(d[g.start], 0)
    ensures var d' := Apply(d, RecoverWrites(g, d)[..k]);
      LogOk(g, d') && RecoverWrites(g, d') == RecoverWrites(g, d)
  {
    var ws := RecoverWrites(g, d)[..k];
    var d' := Apply(d, ws);
    forall b: nat | g.Has(b)
      ensures d'[b] == d[b]
    {
      ApplyMisses(d, ws, b);
    }
    var lh := Entries(d[g.start]);
    assert InstallWrites(g, d', lh) == InstallWrites(g, d, lh);
  }

  lemma ClearedHeader(h: Block)
    ensures Word(PutHeader(h, []), 0) == 0
    ensures PutHeader(PutHeader(h, []), []) == PutHeader(h, [])
  {
    hide Word, PutWord;
    HeaderRoundTrip(h, []);
    PutWordTwice(h, 0, 0);
  }

  /** A finished recovery leaves an empty log, and recovering again changes nothing. */
  lemma RecoveredIsFixed(g: Region, d: Disk)
    requires LogOk(g, d)
    ensures LogOk(g, Recover(g, d))
    ensures Word(Recover(g, d)[g.start], 0) == 0
    ensures RecoverWrites(g, Recover(g, d)) == [HeadWrite(g, d, [])]
    ensures Recover(g, Recover(g, d)) == Recover(g, d)
  {
    var ws := RecoverWrites(g, d);
    ApplyHits(d, ws, |ws| - 1);
    ClearedHeader(d[g.start]);
    var r := Recover(g, d);
    assert RecoverWrites(g, r) == [HeadWrite(g, d, [])];
    assert [HeadWrite(g, d, [])][..0] == [];
    assert Apply(r, []) == r;
    assert Apply(r, [HeadWrite(g, d, [])]) == Put(r, HeadWrite(g, d, []));
  }

  /** Recovery cut after any number of its writes can simply be run again. */
  lemma RecoveryIdempotent(g: Region, d: Disk, k: nat)
    requires LogOk(g, d) && k <= |RecoverWrites(g, d)|
    ensures var d' := Apply(d, RecoverWrites(g, d)[..k]);
      LogOk(g, d') && Recover(g, d') == Recover(g, d)
  {
    var ws := RecoverWrites(g, d);
    if k < |ws| {
      InstallKeepsLog(g, d, k);
      Redo(d, ws, k);
    } else {
      assert ws[..k] == ws;
      RecoveredIsFixed(g, d);
    }
  }

  /** The disk after a series of recoveries, the i-th cut short after `cuts[i]` writes. */
  ghost function Cuts(g: Region, d: Disk, cuts: seq<nat>): (r: Disk)
    requires LogOk(g, d)
    ensures LogOk(g, r) && |r| == |d|
    decreases |cuts|
  {
    if cuts == [] then d
    else
      var ws := RecoverWrites(g, d);
      var k := if cuts[0] <= |ws| then cuts[0] else |ws|;
      RecoveryIdempotent(g, d, k);
      Cuts(g, Apply(d, ws[..k]), cuts[1..])
  }

  lemma {:induction false} InterruptedRecoveries(g: Region, d: Disk, cuts: seq<nat>)
    requires LogOk(g, d)
    ensures Recover(g, Cuts(g, d, cuts)) == Recover(g, d)
    decreases |cuts|
  {
    if cuts != [] {
      var ws := RecoverWrites(g, d);
      var k := if cuts[0] <= |ws| then cuts[0] else |ws|;
      RecoveryIdempotent(g, d, k);
      InterruptedRecoveries(g, Apply(d, ws[..k]), cuts[1..]);
    }
  }

  // ---------------------------------------------------------------- commit

  /** The cache differs from a disk with an empty log only in the blocks the transaction names. */
  ghost predicate CommitReady(g: Region, d: Disk, v: Disk, lh: seq<nat>)
  {
    && TransOk(g, d, lh)
    && |v| == |d|
    && Word(d[g.start], 0) == 0
    && forall b: nat :: b < |d| && b !in lh ==> v[b] == d[b]
  }

  /** The disk just after the first header write: the commit point. */
  ghost function CommitPoint(g: Region, d: Disk, v: Disk, lh: seq<nat>): (r: Disk)
    requires TransOk(g, d, lh) && |v| == |d|
    ensures |r| == |d|
  {
    Apply(d, LogWrites(g, v, lh) + [HeadWrite(g, d, lh)])
  }

  lemma LogSlot(g: Region, d: Disk, v: Disk, lh: seq<nat>, k: nat, i: nat)
    requires CommitReady(g, d, v, lh) && i < k <= |lh|
    ensures Apply(d, LogWrites(g, v, lh)[..k])[g.start + 1 + i] == v[lh[i]]
  {
    ApplyHits(d, LogWrites(g, v, lh)[..k], i);
  }

  lemma LogWritesMiss(g: Region, d: Disk, v: Disk, lh: seq<nat>, k: nat, b: nat)
    requires CommitReady(g, d, v, lh) && k <= |lh|
    requires b < |d| && (b == g.start || !g.Has(b))
    ensures Apply(d, LogWrites(g, v, lh)[..k])[b] == d[b]
  {
    ApplyMisses(d, LogWrites(g, v, lh)[..k], b);
  }

  lemma LogSlots(g: Region, d: Disk, v: Disk, lh: seq<nat>, k: nat)
    requires CommitReady(g, d, v, lh) && k <= |lh|
    ensures var d' := Apply(d, LogWrites(g, v, lh)[..k]);
      && (forall i :: 0 <= i < k ==> d'[g.start + 1 + i] == v[lh[i]])
      && d'[g.start] == d[g.start]
      && (forall b: nat :: b < |d| && !g.Has(b) ==> d'[b] == d[b])
  {
    var d' := Apply(d, LogWrites(g, v, lh)[..k]);
    forall i | 0 <= i < k
      ensures d'[g.start + 1 + i] == v[lh[i]]
    {
      LogSlot(g, d, v, lh, k, i);
    }
    LogWritesMiss(g, d, v, lh, k, g.start);
    forall b: nat | b < |d| && !g.Has(b)
      ensures d'[b] == d[b]
    {
      LogWritesMiss(g, d, v, lh, k, b);
    }
  }

  lemma CommitPointLog(g: Region, d: Disk, v: Disk, lh: seq<nat>)
    requires CommitReady(g, d, v, lh)
    ensures var c := CommitPoint(g, d, v, lh);
      && LogOk(g, c) && Entries(c[g.start]) == lh
      && c[g.start] == HeadWrite(g, d, lh).data
      && (forall i :: 0 <= i < |lh| ==> c[g.start + 1 + i] == v[lh[i]])
      && (forall b: nat :: b < |d| && !g.Has(b) ==> c[b] == d[b])
  {
    var ws, head := LogWrites(g, v, lh), HeadWrite(g, d, lh);
    LogSlots(g, d, v, lh, |lh|);
    assert ws[..|lh|] == ws;
    assert (ws + [head])[..|lh|] == ws;
    HeaderRoundTrip(d[g.start], lh);
    var c := CommitPoint(g, d, v, lh);
    assert c == Put(Apply(d, ws), head);
  }

  /** After the commit point, commit issues exactly the writes of a recovery. */
  lemma CommitEndsAsRecovery(g: Region, d: Disk, v: Disk, lh: seq<nat>)
    requires CommitReady(g, d, v, lh) && lh != []
    ensures LogOk(g, CommitPoint(g, d, v, lh))
    ensures CommitWrites(g, d, v, lh)
         == LogWrites(g, v, lh) + [HeadWrite(g, d, lh)] + RecoverWrites(g, CommitPoint(g, d, v, lh))
  {
    var c := CommitPoint(g, d, v, lh);
    CommitPointLog(g, d, v, lh);
    LogSlots(g, d, v, lh, |lh|);
    var ws := LogWrites(g, v, lh);
    assert ws[..|lh|] == ws;
    assert InstallWrites(g, Apply(d, ws), lh) == InstallWrites(g, c, lh);
  }

  /** Recovery from the commit point installs the cache contents of every home block. */
  lemma RecoverCommitted(g: Region, d: Disk, v: Disk, lh: seq<nat>, b: nat)
    requires CommitReady(g, d, v, lh) && b < |d| && !g.Has(b)
    ensures LogOk(g, CommitPoint(g, d, v, lh))
    ensures Recover(g, CommitPoint(g, d, v, lh))[b] == v[b]
  {
    var c := CommitPoint(g, d, v, lh);
    CommitPointLog(g, d, v, lh);
    if b in lh {
      var i :| 0 <= i < |lh| && lh[i] == b;
      RecoverInstalls(g, c, i);
    } else {
      RecoverMisses(g, c, b);
    }
  }

  /** Before the commit point the header is still empty, so recovery installs nothing. */
  lemma RecoverUncommitted(g: Region, d: Disk, v: Disk, lh: seq<nat>, k: nat, b: nat)
    requires CommitReady(g, d, v, lh) && k <= |lh| && b < |d| && !g.Has(b)
    ensures var d' := Apply(d, LogWrites(g, v, lh)[..k]);
      LogOk(g, d') && Recover(g, d')[b] == d[b]
  {
    LogSlots(g, d, v, lh, k);
    var d' := Apply(d, LogWrites(g, v, lh)[..k]);
    assert Entries(d'[g.start]) == [];
    RecoverMisses(g, d', b);
  }

  /** The disk when commit is cut after `k` writes. */
  ghost function CommitCut(g: Region, d: Disk, v: Disk, lh: seq<nat>, k: nat): (r: Disk)
    requires TransOk(g, d, lh) && |v| == |d| && k <= |CommitWrites(g, d, v, lh)|
  {
    Apply(d, CommitWrites(g, d, v, lh)[..k])
  }

  lemma CommitCutRecovers(g: Region, d: Disk, v: Disk, lh: seq<nat>, k: nat, b: nat)
    requires CommitReady(g, d, v, lh) && lh != [] && k <= |CommitWrites(g, d, v, lh)|
    requires b < |d| && !g.Has(b)
    ensures LogOk(g, CommitCut(g, d, v, lh, k))
    ensures Recover(g, CommitCut(g, d, v, lh, k))[b] == if k > |lh| then v[b] else d[b]
  {
    hide Apply, LogOk, Recover, RecoverWrites, InstallWrites, HeadWrite, PutHeader, Entries, Word;
    var all, ws := CommitWrites(g, d, v, lh), LogWrites(g, v, lh);
    if k <= |lh| {
      assert all[..k] == ws[..k];
      RecoverUncommitted(g, d, v, lh, k, b);
    } else {
      CommitEndsAsRecovery(g, d, v, lh);
      var c, rest := CommitPoint(g, d, v, lh), RecoverWrites(g, CommitPoint(g, d, v, lh));
      var first := ws + [HeadWrite(g, d, lh)];
      assert all[..k] == first + rest[..k - |first|];
      ApplyConcat(d, first, rest[..k - |first|]);
      RecoveryIdempotent(g, c, k - |first|);
      RecoverCommitted(g, d, v, lh, b);
    }
  }

  /** Crash atomicity: cut commit anywhere, cut recovery any number of times anywhere;
      the recovery that completes leaves every home block new, or every one old. */
  lemma CommitIsAtomic(g: Region, d: Disk, v: Disk, lh: seq<nat>, k: nat, cuts: seq<nat>)
    requires CommitReady(g, d, v, lh) && lh != [] && k <= |CommitWrites(g, d, v, lh)|
    ensures LogOk(g, CommitCut(g, d, v, lh, k))
    ensures var r := Recover(g, Cuts(g, CommitCut(g, d, v, lh, k), cuts));
      && Word(r[g.start], 0) == 0
      && (k > |lh| ==> forall b: nat :: b < |d| && !g.Has(b) ==> r[b] == v[b])
      && (k <= |lh| ==> forall b: nat :: b < |d| && !g.Has(b) ==> r[b] == d[b])
  {
    var cut := CommitCut(g, d, v, lh, k);
    assert g.Home(d, lh[0]);
    CommitCutRecovers(g, d, v, lh, k, lh[0]);
    InterruptedRecoveries(g, cut, cuts);
    RecoveredIsFixed(g, cut);
    forall b: nat | b < |d| && !g.Has(b)
      ensures Recover(g, cut)[b] == if k > |lh| then v[b] else d[b]
    {
      CommitCutRecovers(g, d, v, lh, k, b);
    }
  }
}
