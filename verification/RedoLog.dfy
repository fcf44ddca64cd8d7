/** The on-disk redo log of log.c: the header block, the block writes that a commit
    and a recovery issue, and what a crash between any two of them leaves behind. */
module RedoLog {
  import opened Machine
  import opened Blocks

  const MAXOPBLOCKS := 10
  const LOGSIZE := 3 * MAXOPBLOCKS
  /** The most blocks that one chunk of filewrite logs (FileWrite.ChunkBound). */
  const CHUNKBLOCKS := 17

  type Disk = seq<Block>

  /** One atomic block write. */
  datatype Write = Write(b: nat, data: Block)

  /** The log region: a header block at `start`, then `size - 1` blocks for logged data. */
  datatype Region = Region(start: nat, size: nat) {
    predicate Has(b: nat) { start <= b < start + size }
    predicate Fits(d: Disk) { 1 <= size && start + size <= |d| }
    /** A block outside the log that the header can name. */
    predicate Home(d: Disk, b: int) { 0 <= b < |d| && b < UINT_LIMIT && !Has(b) }
  }

  // ---------------------------------------------------------------- block writes

  function Put(d: Disk, w: Write): (r: Disk)
    ensures |r| == |d|
  {
    if w.b < |d| then d[w.b := w.data] else d
  }

  /** The disk after the writes `ws`, issued in order. */
  function Apply(d: Disk, ws: seq<Write>): (r: Disk)
    ensures |r| == |d|
  {
    if ws == [] then d else Put(Apply(d, ws[..|ws| - 1]), ws[|ws| - 1])
  }

  lemma {:induction false} ApplyConcat(d: Disk, xs: seq<Write>, ys: seq<Write>)
    ensures Apply(d, xs + ys) == Apply(Apply(d, xs), ys)
    decreases |ys|
  {
    if ys == [] {
      assert xs + ys == xs;
    } else {
      var last := |xs + ys| - 1;
      assert (xs + ys)[..last] == xs + ys[..|ys| - 1];
      ApplyConcat(d, xs, ys[..|ys| - 1]);
    }
  }

  lemma ApplyPrefix(d: Disk, ws: seq<Write>, k: nat)
    requires k < |ws|
    ensures Apply(d, ws[..k + 1]) == Put(Apply(d, ws[..k]), ws[k])
  {
    assert ws[..k + 1][..k] == ws[..k];
  }

  lemma {:induction false} ApplyMisses(d: Disk, ws: seq<Write>, b: nat)
    requires b < |d|
    requires forall i :: 0 <= i < |ws| ==> ws[i].b != b
    ensures Apply(d, ws)[b] == d[b]
  {
    if ws != [] {
      ApplyMisses(d, ws[..|ws| - 1], b);
    }
  }

  /** The last write to a block wins. */
  lemma {:induction false} ApplyHits(d: Disk, ws: seq<Write>, i: nat)
    requires i < |ws| && ws[i].b < |d|
    requires forall j :: i < j < |ws| ==> ws[j].b != ws[i].b
    ensures Apply(d, ws)[ws[i].b] == ws[i].data
  {
    if i < |ws| - 1 {
      ApplyHits(d, ws[..|ws| - 1], i);
    }
  }

  // ---------------------------------------------------------------- the header block

  /** write_head's loop: the block numbers go to the words after the count. */
  function PutEntries(h: Block, lh: seq<Uint>): (r: Block)
    requires |lh| <= LOGSIZE
  {
    if lh == [] then h else PutWord(PutEntries(h, lh[..|lh| - 1]), |lh|, lh[|lh| - 1])
  }

  function PutHeader(h: Block, lh: seq<Uint>): (r: Block)
    requires |lh| <= LOGSIZE
  {
    PutEntries(PutWord(h, 0, |lh|), lh)
  }

  /** read_head's view of a header block whose count is in range. */
  function Entries(h: Block): (lh: seq<Uint>)
    requires Word(h, 0) <= LOGSIZE
    ensures |lh| == Word(h, 0)
  {
    seq(Word(h, 0), i requires 0 <= i < Word(h, 0) => Word(h, i + 1))
  }

  lemma {:induction false} EntriesWord(h: Block, lh: seq<Uint>, j: nat)
    requires |lh| <= LOGSIZE && j < WORDS_PER_BLOCK
    ensures Word(PutEntries(h, lh), j) == if 1 <= j <= |lh| then lh[j - 1] else Word(h, j)
  {
    if lh != [] {
      EntriesWord(h, lh[..|lh| - 1], j);
      WordRoundTrip(PutEntries(h, lh[..|lh| - 1]), |lh|, lh[|lh| - 1]);
    }
  }

  /** What write_head stores, read_head reads back. */
  lemma HeaderRoundTrip(h: Block, lh: seq<Uint>)
    requires |lh| <= LOGSIZE
    ensures Word(PutHeader(h, lh), 0) == |lh|
    ensures Entries(PutHeader(h, lh)) == lh
  {
    var h' := PutWord(h, 0, |lh|);
    WordRoundTrip(h, 0, |lh|);
    EntriesWord(h', lh, 0);
    forall i: nat | i < |lh|
      ensures Entries(PutHeader(h, lh))[i] == lh[i]
    {
      EntriesWord(h', lh, i + 1);
    }
  }

  // ---------------------------------------------------------------- commit and recovery

  /** A disk whose header names only home blocks and no more of them than the log holds. */
  predicate LogOk(g: Region, d: Disk)
  {
    && g.Fits(d)
    && Word(d[g.start], 0) <= LOGSIZE
    && Word(d[g.start], 0) < g.size
    && forall i :: 0 <= i < Word(d[g.start], 0) ==> g.Home(d, Entries(d[g.start])[i])
  }

  /** The block numbers a transaction may carry: distinct home blocks that fit the log. */
  predicate TransOk(g: Region, d: Disk, lh: seq<nat>)
  {
    && g.Fits(d)
    && |lh| <= LOGSIZE
    && |lh| < g.size
    && (forall i :: 0 <= i < |lh| ==> g.Home(d, lh[i]))
    && (forall i, j :: 0 <= i < j < |lh| ==> lh[i] != lh[j])
  }

  /** write_log: copy each logged block from the cache `v` to its log slot. */
  function LogWrites(g: Region, v: Disk, lh: seq<nat>): (ws: seq<Write>)
    requires forall i :: 0 <= i < |lh| ==> lh[i] < |v|
    ensures |ws| == |lh|
  {
    seq(|lh|, i requires 0 <= i < |lh| => Write(g.start + 1 + i, v[lh[i]]))
  }

  /** install_trans: copy each log slot of `d` to its home block. */
  function InstallWrites(g: Region, d: Disk, lh: seq<nat>): (ws: seq<Write>)
    requires g.Fits(d) && |lh| < g.size
    ensures |ws| == |lh|
  {
    seq(|lh|, i requires 0 <= i < |lh| => Write(lh[i], d[g.start + 1 + i]))
  }

  /** write_head with the block numbers `lh`. */
  function HeadWrite(g: Region, d: Disk, lh: seq<Uint>): (w: Write)
    requires g.Fits(d) && |lh| <= LOGSIZE
  {
    Write(g.start, PutHeader(d[g.start], lh))
  }

  /** The writes of recover_from_log on the disk `d`. */
  function RecoverWrites(g: Region, d: Disk): (ws: seq<Write>)
    requires LogOk(g, d)
  {
    InstallWrites(g, d, Entries(d[g.start])) + [HeadWrite(g, d, [])]
  }

  function Recover(g: Region, d: Disk): (r: Disk)
    requires LogOk(g, d)
    ensures |r| == |d|
  {
    Apply(d, RecoverWrites(g, d))
  }

  /** The writes of commit for the transaction `lh`, on disk `d` under the cache contents `v`. */
  function CommitWrites(g: Region, d: Disk, v: Disk, lh: seq<nat>): (ws: seq<Write>)
    requires TransOk(g, d, lh) && |v| == |d|
    ensures |ws| == if lh == [] then 0 else 2 * |lh| + 2
  {
    if lh == [] then []
    else
      var logged := Apply(d, LogWrites(g, v, lh));
      var head := HeadWrite(g, d, lh);
      LogWrites(g, v, lh) + [head] + InstallWrites(g, logged, lh) + [Write(g.start, PutHeader(head.data, []))]
  }
}
