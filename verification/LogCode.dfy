/** log.c as code: the in-memory log, its loops over the buffer cache, and the block writes they
    issue, proved against the write lists of RedoLog and the transitions of LogRuns. */
module LogCode {
  import opened Machine
  import opened Blocks
  import opened RedoLog
  import opened LogRuns
  import opened CrashAtomicity

  class Log {
    const g: Region
    var disk: Disk
    var cache: map<nat, Cached>
    const block: array<Uint>
    var n: nat
    var outstanding: int
    var committing: bool
    /** Every block write issued so far. */
    ghost var writes: seq<Write>

    ghost predicate Valid()
      reads this, block
    {
      && block.Length == LOGSIZE && n <= LOGSIZE && n < g.size
      && g.Fits(disk)
      && Coherent(disk, cache, block[..n])
      && TransOk(g, disk, block[..n])
    }

    ghost function Lh(): (lh: seq<Uint>)
      reads this, block
      requires n <= block.Length
    {
      block[..n]
    }

    ghost function Show(): (v: Disk)
      reads this
      ensures |v| == |disk|
    {
      Overlay(disk, cache)
    }

    constructor (g: Region, disk: Disk)
      requires LogOk(g, disk)
      ensures Valid() && this.g == g && this.disk == disk && cache == map[] && n == 0 && writes == []
      ensures outstanding == 0 && !committing && fresh(block)
    {
      this.g, this.disk, cache, n, outstanding, committing := g, disk, map[], 0, 0, false;
      block := new Uint[LOGSIZE](_ => 0);
      writes := [];
    }

    /** bread: the block's contents, leaving it cached. */
    method Bread(b: nat) returns (data: Block)
      requires b < |disk| && n <= block.Length && Coherent(disk, cache, block[..n])
      modifies this`cache
      ensures data == Lookup(disk, old(cache), b)
      ensures b in cache && cache == old(cache)[b := cache[b]] && cache[b].data == data
      ensures Coherent(disk, cache, block[..n])
      ensures if b in old(cache) then cache == old(cache) else !cache[b].dirty
      ensures Show() == old(Show())
    {
      if b !in cache {
        cache := cache[b := Cached(disk[b], false)];
      }
      data := cache[b].data;
      assert Show() == old(Show());
    }

    /** bwrite of a busy buffer: buffer and disk agree, and the buffer is clean. */
    method Bwrite(b: nat, data: Block)
      requires b < |disk| && n <= block.Length && Coherent(disk, cache, block[..n])
      modifies this`cache, this`disk, this`writes
      ensures disk == Put(old(disk), Write(b, data)) && cache == old(cache)[b := Cached(data, false)]
      ensures writes == old(writes) + [Write(b, data)]
      ensures Coherent(disk, cache, block[..n])
    {
      disk := disk[b := data];
      cache := cache[b := Cached(data, false)];
      writes := writes + [Write(b, data)];
    }

    /** begin_op, one pass of its loop under the lock: false means it sleeps. */
    method TryBeginOp() returns (ok: bool)
      modifies this`outstanding
      ensures ok == CanBegin(n, old(outstanding), committing)
      ensures ok <==> !committing && n + 10 * (old(outstanding) + 1) <= 30
      ensures outstanding == old(outstanding) + if ok then 1 else 0
    {
      if committing {
        ok := false;
      } else if n + (outstanding + 1) * MAXOPBLOCKS > LOGSIZE {
        ok := false;
      } else {
        outstanding := outstanding + 1;
        ok := true;
      }
    }

    /** log_write of a cached block whose data the caller has changed. */
    method LogWrite(b: Uint, data: Block) returns (panic: Panic)
      requires Valid() && g.Home(disk, b) && b in cache
      modifies this`cache, this`n, block
      ensures LogFull(g, old(n)) ==> panic == TooBig
      ensures !LogFull(g, old(n)) && outstanding < 1 ==> panic == OutsideTrans
      ensures panic != NoPanic ==> n == old(n) && block[..] == old(block[..]) && cache == old(cache)
      ensures !LogFull(g, old(n)) && outstanding >= 1 ==>
                panic == NoPanic && n <= LOGSIZE && Lh() == Absorb(old(Lh()), b)
                && cache == old(cache)[b := Cached(data, true)]
      ensures panic == TooBig <==> old(n) >= 30 || old(n) >= g.size - 1
      ensures panic == NoPanic ==> Lh() == if b in old(Lh()) then old(Lh()) else old(Lh()) + [b]
      ensures Valid()
    {
      if n >= LOGSIZE || n >= g.size - 1 {
        return TooBig;
      }
      if outstanding < 1 {
        return OutsideTrans;
      }
      var i := 0;
      while i < n && block[i] != b
        invariant 0 <= i <= n && b !in block[..i]
      {
        i := i + 1;
      }
      ghost var lh := block[..n];
      block[i] := b;
      if i == n {
        n := n + 1;
      }
      cache := cache[b := Cached(data, true)];
      assert i < |lh| ==> b in lh && block[..n] == lh;
      assert i == |lh| ==> block[..n] == lh + [b];
      return NoPanic;
    }

    /** The state in which the commit and recovery loops run. */
    ghost predicate Ready()
      reads this, block
    {
      && block.Length == LOGSIZE && n <= LOGSIZE && n < g.size
      && g.Fits(disk)
      && Coherent(disk, cache, block[..n])
      && forall i :: 0 <= i < n ==> g.Home(disk, block[i])
    }

    /** The body shared by write_log and install_trans: copy one block over another through the cache. */
    method CopyBlock(src: nat, dst: nat)
      requires src < |disk| && dst < |disk| && n <= block.Length && Coherent(disk, cache, block[..n])
      modifies this`cache, this`disk, this`writes
      ensures disk == Put(old(disk), Write(dst, Lookup(old(disk), old(cache), src)))
      ensures writes == old(writes) + [Write(dst, Lookup(old(disk), old(cache), src))]
      ensures Coherent(disk, cache, block[..n])
      ensures forall b: nat :: b < |disk| && b != dst ==> Lookup(disk, cache, b) == Lookup(old(disk), old(cache), b)
      ensures forall b: nat :: b in cache && cache[b].dirty ==> b != dst && b in old(cache) && old(cache)[b].dirty
    {
      hide Overlay;
      var to := Bread(dst);
      var from := Bread(src);
      Bwrite(dst, from);
    }

    /** write_head: the header block gets the in-memory block numbers. */
    method WriteHead()
      requires Ready()
      modifies this`cache, this`disk, this`writes
      ensures disk == Put(old(disk), HeadWrite(g, old(disk), Lh()))
      ensures writes == old(writes) + [HeadWrite(g, old(disk), Lh())]
      ensures Ready()
      ensures forall b: nat :: b < |disk| && b != g.start ==> Lookup(disk, cache, b) == old(Show())[b]
      ensures forall b: nat :: b in cache && b in old(cache) && b != g.start ==> cache[b] == old(cache)[b]
      ensures forall b: nat :: b in cache && cache[b].dirty ==> b in old(cache) && old(cache)[b].dirty
    {
      hide PutWord, Word, Overlay;
      var h := Bread(g.start);
      assert h == disk[g.start];
      h := PutWord(h, 0, n);
      var i := 0;
      while i < n
        invariant 0 <= i <= n
        invariant h == PutEntries(PutWord(disk[g.start], 0, n), block[..i])
      {
        assert block[..i + 1][..i] == block[..i];
        h := PutWord(h, i + 1, block[i]);
        i := i + 1;
      }
      Bwrite(g.start, h);
    }

    /** write_log: each logged block goes from the cache to its log slot. */
    method WriteLog()
      requires Ready()
      modifies this`cache, this`disk, this`writes
      ensures disk == Apply(old(disk), LogWrites(g, old(Show()), Lh()))
      ensures writes == old(writes) + LogWrites(g, old(Show()), Lh())
      ensures Ready()
      ensures forall b: nat :: b < |disk| && !g.Has(b) ==> Lookup(disk, cache, b) == old(Show())[b]
    {
      hide Overlay, Apply, Put;
      ghost var v, lh := Show(), Lh();
      ghost var ws := LogWrites(g, v, lh);
      var tail := 0;
      assert ws[..0] == [] && Apply(disk, []) == disk by { ApplyNone(disk); }
      while tail < n
        invariant 0 <= tail <= n && Ready()
        invariant disk == Apply(old(disk), ws[..tail]) && writes == old(writes) + ws[..tail]
        invariant forall b: nat :: b < |disk| && !g.Has(b) ==> Lookup(disk, cache, b) == v[b]
      {
        ApplyPrefix(old(disk), ws, tail);
        assert ws[tail] == Write(g.start + tail + 1, Lookup(disk, cache, block[tail]));
        assert ws[..tail + 1] == ws[..tail] + [ws[tail]];
        CopyBlock(block[tail], g.start + tail + 1);
        tail := tail + 1;
      }
      assert ws[..n] == ws;
    }

    /** install_trans: each log slot goes to its home block, which is then clean. */
    method InstallTrans()
      requires Ready()
      modifies this`cache, this`disk, this`writes
      ensures disk == Apply(old(disk), InstallWrites(g, old(disk), Lh()))
      ensures writes == old(writes) + InstallWrites(g, old(disk), Lh())
      ensures Ready() && forall b :: b in cache ==> !cache[b].dirty
    {
      hide Overlay, Apply;
      ghost var d := disk;
      ghost var ws := InstallWrites(g, d, Lh());
      var tail := 0;
      assert ws[..0] == [] && Apply(disk, []) == disk by { ApplyNone(disk); }
      while tail < n
        invariant 0 <= tail <= n && Ready()
        invariant disk == Apply(d, ws[..tail]) && writes == old(writes) + ws[..tail]
        invariant forall b: nat :: g.Has(b) ==> disk[b] == d[b]
        invariant forall b :: b in cache && cache[b].dirty ==> b in block[tail..n]
      {
        assert Lookup(disk, cache, g.start + tail + 1) == d[g.start + 1 + tail];
        ApplyPrefix(d, ws, tail);
        assert ws[..tail + 1] == ws[..tail] + [ws[tail]];
        assert block[tail..n] == [block[tail]] + block[tail + 1..n];
        CopyBlock(g.start + tail + 1, block[tail]);
        tail := tail + 1;
      }
      assert ws[..n] == ws && block[n..n] == [];
    }

    /** commit: the writes are exactly CommitWrites, and afterwards nothing is pinned. */
    method Commit()
      requires Valid() && CommitReady(g, disk, Show(), Lh())
      modifies this`cache, this`disk, this`writes, this`n
      ensures writes == old(writes) + CommitWrites(g, old(disk), old(Show()), old(Lh()))
      ensures disk == Apply(old(disk), CommitWrites(g, old(disk), old(Show()), old(Lh())))
      ensures Valid() && n == 0
    {
      hide Overlay, Apply, Word, Entries, PutHeader, PutEntries, PutWord;
      if n > 0 {
        ghost var d, v, lh := disk, Show(), Lh();
        WriteLog();
        ghost var logged := disk;
        LogWritesAll(g, d, v, lh);
        WriteHead();
        ghost var committed := disk;
        InstallTrans();
        InstallHeader(g, committed, lh);
        n := 0;
        assert block[..n] == [];
        WriteHead();
        CommitWritesInOrder(g, d, v, lh, logged, committed);
      } else {
        ApplyNone(disk);
      }
    }

    /** read_head. */
    method ReadHead()
      requires Ready() && LogOk(g, disk) && n == 0
      modifies this`cache, this`n, block
      ensures Ready() && Lh() == Entries(disk[g.start])
      ensures Show() == old(Show())
    {
      hide Overlay;
      var h := Bread(g.start);
      n := Word(h, 0);
      assert h == disk[g.start];
      var i := 0;
      while i < n
        invariant 0 <= i <= n == Word(h, 0)
        invariant forall j :: 0 <= j < i ==> block[j] == Word(h, j + 1)
        modifies block
      {
        block[i] := Word(h, i + 1);
        i := i + 1;
      }
      assert block[..n] == Entries(h);
    }

    /** recover_from_log, at boot. */
    method RecoverFromLog()
      requires Ready() && LogOk(g, disk) && n == 0
      modifies this`cache, this`disk, this`writes, this`n, block
      ensures writes == old(writes) + RecoverWrites(g, old(disk))
      ensures disk == Recover(g, old(disk))
      ensures Valid() && n == 0
    {
      hide Overlay, Apply, Word, Entries, PutHeader, PutEntries, PutWord;
      ghost var d := disk;
      ReadHead();
      ghost var lh := Lh();
      InstallTrans();
      InstallHeader(g, d, lh);
      n := 0;
      assert block[..n] == [];
      ghost var installed := disk;
      WriteHead();
      RecoverWritesInOrder(g, d, lh, installed);
    }

    /** end_op: the last operation out commits. */
    method EndOp() returns (panic: Panic)
      requires Valid() && (!committing && outstanding == 1 ==> CommitReady(g, disk, Show(), Lh()))
      modifies this`cache, this`disk, this`writes, this`n, this`outstanding, this`committing
      ensures outstanding == old(outstanding) - 1 && committing == old(committing)
      ensures panic == if old(committing) then Committing else NoPanic
      ensures var last := !old(committing) && outstanding == 0;
        && writes == old(writes) + (if last then CommitWrites(g, old(disk), old(Show()), old(Lh())) else [])
        && disk == (if last then Apply(old(disk), CommitWrites(g, old(disk), old(Show()), old(Lh()))) else old(disk))
        && n == (if last then 0 else old(n)) && (!last ==> cache == old(cache))
      ensures Valid()
    {
      outstanding := outstanding - 1;
      if committing {
        return Committing;
      }
      if outstanding == 0 {
        committing := true;
        Commit();
        committing := false;
      }
      return NoPanic;
    }
  }

  lemma ApplyNone(d: Disk)
    ensures Apply(d, []) == d
  {
  }

  lemma LogWritesAll(g: Region, d: Disk, v: Disk, lh: seq<nat>)
    requires CommitReady(g, d, v, lh)
    ensures Apply(d, LogWrites(g, v, lh))[g.start] == d[g.start]
  {
    assert LogWrites(g, v, lh)[..|lh|] == LogWrites(g, v, lh);
    LogWritesMiss(g, d, v, lh, |lh|, g.start);
  }

  lemma InstallHeader(g: Region, d: Disk, lh: seq<nat>)
    requires g.Fits(d) && |lh| < g.size && forall i :: 0 <= i < |lh| ==> g.Home(d, lh[i])
    ensures Apply(d, InstallWrites(g, d, lh))[g.start] == d[g.start]
  {
    ApplyMisses(d, InstallWrites(g, d, lh), g.start);
  }

  /** The four parts of commit, in order, are CommitWrites. */
  lemma CommitWritesInOrder(g: Region, d: Disk, v: Disk, lh: seq<nat>, logged: Disk, committed: Disk)
    requires CommitReady(g, d, v, lh) && lh != []
    requires logged == Apply(d, LogWrites(g, v, lh)) && logged[g.start] == d[g.start]
    requires committed == Put(logged, HeadWrite(g, logged, lh))
    requires Apply(committed, InstallWrites(g, committed, lh))[g.start] == committed[g.start]
    ensures var installed := Apply(committed, InstallWrites(g, committed, lh));
      && CommitWrites(g, d, v, lh)
         == LogWrites(g, v, lh) + [HeadWrite(g, logged, lh)]
            + InstallWrites(g, committed, lh) + [HeadWrite(g, installed, [])]
      && Put(installed, HeadWrite(g, installed, [])) == Apply(d, CommitWrites(g, d, v, lh))
  {
    hide Word, Entries, PutHeader;
    var lw, head, iw := LogWrites(g, v, lh), HeadWrite(g, logged, lh), InstallWrites(g, committed, lh);
    var installed := Apply(committed, iw);
    var last := HeadWrite(g, installed, []);
    assert InstallWrites(g, logged, lh) == iw;
    ApplySnoc(d, lw, head);
    ApplyConcat(d, lw + [head], iw);
    ApplySnoc(d, lw + [head] + iw, last);
  }

  lemma RecoverWritesInOrder(g: Region, d: Disk, lh: seq<Uint>, installed: Disk)
    requires LogOk(g, d) && lh == Entries(d[g.start])
    requires installed == Apply(d, InstallWrites(g, d, lh)) && installed[g.start] == d[g.start]
    ensures RecoverWrites(g, d) == InstallWrites(g, d, lh) + [HeadWrite(g, installed, [])]
    ensures Put(installed, HeadWrite(g, installed, [])) == Recover(g, d)
  {
    ApplySnoc(d, InstallWrites(g, d, lh), HeadWrite(g, d, []));
  }

  lemma ApplySnoc(d: Disk, ws: seq<Write>, w: Write)
    ensures Apply(d, ws + [w]) == Put(Apply(d, ws), w)
  {
    assert (ws + [w])[..|ws|] == ws;
  }
}
