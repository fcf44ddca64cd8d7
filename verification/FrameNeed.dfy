/** How many frames setupkvm and copyuvm take: the tables their pages reach, counted as directory entries. */
module FrameNeed {
  import opened Machine
  import opened PageTable
  import opened SpaceGrowth
  import opened UserPages
  import opened CopySpace

  // ---------------------------------------------------------------- counting tables

  /** The directory entries in use. */
  function Present(m: Mem, d: nat): (s: set<nat>)
    requires IsTable(m, d)
  {
    set i: nat | i < NPTENTRIES && Pde(m, d, i).p
  }

  /** The directory entries that the pages a..k reach. */
  function Spanned(a: nat, k: nat): (s: set<nat>)
    requires k <= ALL_PAGES
  {
    set i: nat | i < NPTENTRIES && InSpan(a, k, i)
  }

  predicate InSpan(a: nat, k: nat, i: nat) { a < k && a / NPTENTRIES <= i <= (k - 1) / NPTENTRIES }

  lemma SpanNext(a: nat, k: nat, i: nat)
    requires a < k
    ensures InSpan(a, k, i) <==> InSpan(a, k - 1, i) || i == (k - 1) / NPTENTRIES
    ensures InSpan(a, k - 1, (k - 1) / NPTENTRIES) <==> k - 1 != a && (k - 1) % NPTENTRIES != 0
  {
  }

  lemma {:induction false} NewTablesCount(m: Mem, d: nat, a: nat, k: nat)
    requires IsTable(m, d) && k <= ALL_PAGES
    ensures NewTables(m, d, a, k) == |Spanned(a, k) - Present(m, d)|
    decreases k
  {
    if a < k {
      NewTablesCount(m, d, a, k - 1);
      hide Spanned, Present, NewTables, Pde;
      var was, p, i := Spanned(a, k - 1), Present(m, d), (k - 1) / NPTENTRIES;
      SpannedNext(a, k);
      PresentIff(m, d, i);
      NewTablesNext(m, d, a, k);
      OneMore(was, p, i);
    } else {
      assert Spanned(a, k) == {};
    }
  }

  /** The table that page k would open. */
  lemma SpanEnd(a: nat, k: nat, b: nat)
    requires a <= k < b <= ALL_PAGES && (k == a || k % NPTENTRIES == 0)
    ensures k / NPTENTRIES in Spanned(a, b) && k / NPTENTRIES !in Spanned(a, k)
  {
  }

  lemma OneMore(s: set<nat>, p: set<nat>, i: nat)
    ensures |s + {i} - p| == |s - p| + if i in s || i in p then 0 else 1
  {
    if i in s || i in p {
      assert s + {i} - p == s - p;
    } else {
      assert s + {i} - p == (s - p) + {i};
    }
  }

  lemma SpanGrows(a: nat, k: nat, b: nat)
    requires k <= b <= ALL_PAGES
    ensures Spanned(a, k) <= Spanned(a, b)
  {
  }

  lemma NewTablesNext(m: Mem, d: nat, a: nat, k: nat)
    requires IsTable(m, d) && a < k <= ALL_PAGES
    ensures NewTables(m, d, a, k) == NewTables(m, d, a, k - 1) + if OpensTable(m, d, a, k - 1) then 1 else 0
  {
  }

  lemma SpannedNext(a: nat, k: nat)
    requires a < k <= ALL_PAGES
    ensures Spanned(a, k) == Spanned(a, k - 1) + {(k - 1) / NPTENTRIES}
    ensures (k - 1) / NPTENTRIES in Spanned(a, k - 1) <==> k - 1 != a && (k - 1) % NPTENTRIES != 0
  {
    hide InSpan;
    forall x: nat
      ensures InSpan(a, k, x) <==> InSpan(a, k - 1, x) || x == (k - 1) / NPTENTRIES
    {
      SpanNext(a, k, x);
    }
    SpanNext(a, k, (k - 1) / NPTENTRIES);
  }

  lemma PresentIff(m: Mem, d: nat, i: nat)
    requires IsTable(m, d) && i < NPTENTRIES
    ensures i in Present(m, d) <==> Pde(m, d, i).p
  {
  }

  /** Tables added and tables present add up. */
  lemma TablesAdded(m: Mem, m': Mem, d: nat, a: nat, k: nat)
    requires IsTable(m, d) && IsTable(m', d) && k <= ALL_PAGES && Opened(m, m', d, a, k)
    ensures Present(m', d) == Present(m, d) + Spanned(a, k)
    ensures |Present(m', d)| == |Present(m, d)| + NewTables(m, d, a, k)
  {
    NewTablesCount(m, d, a, k);
    var more := Spanned(a, k) - Present(m, d);
    assert Present(m', d) == Present(m, d) + Spanned(a, k);
    assert Present(m', d) == Present(m, d) + more;
  }

  // ---------------------------------------------------------------- setupkvm

  /** The directory entries that the rows of kmap reach. */
  function TablesOf(rows: seq<Kmap>): (s: set<nat>)
  {
    set i: nat | i < NPTENTRIES && ReachedBy(rows, i)
  }

  predicate ReachedBy(rows: seq<Kmap>, i: nat) { exists j :: 0 <= j < |rows| && Reaches(rows[j], i) }

  predicate Reaches(r: Kmap, i: nat)
  {
    r.count >= 1 && r.virt / NPTENTRIES <= i <= (r.virt + r.count - 1) / NPTENTRIES
  }

  /** The directory and those tables. */
  function KernelNeed(rows: seq<Kmap>): (c: nat) { 1 + |TablesOf(rows)| }

  lemma KernelReaches(data: nat, i: nat)
    requires 0x80100 < data < 0x8E000
    ensures ReachedBy(KernelRows(data), i) <==> 512 <= i < 568 || 1016 <= i < 1024
  {
    var rows := KernelRows(data);
    assert Reaches(rows[0], i) <==> i == 512;
    assert Reaches(rows[1], i) || Reaches(rows[2], i) <==> 512 <= i < 568;
    assert Reaches(rows[3], i) <==> 1016 <= i < 1024;
  }

  /** xv6's kernel half: 64 tables, wherever kernel data starts. */
  lemma KernelNeedIs(data: nat)
    requires 0x80100 < data < 0x8E000
    ensures KernelNeed(KernelRows(data)) == 65
  {
    hide Range, ReachedBy;
    forall i: nat
      ensures ReachedBy(KernelRows(data), i) <==> 512 <= i < 568 || 1016 <= i < 1024
    {
      KernelReaches(data, i);
    }
    assert TablesOf(KernelRows(data)) == Range(512, 568) + Range(1016, 1024);
  }

  lemma OneRowMore(rows: seq<Kmap>, j: nat)
    requires KmapOk(rows) && j < |rows|
    ensures rows[j].virt + rows[j].count <= ALL_PAGES
    ensures TablesOf(rows[..j + 1]) == TablesOf(rows[..j]) + Spanned(rows[j].virt, rows[j].virt + rows[j].count)
  {
    var r := rows[j];
    forall i: nat | i < NPTENTRIES
      ensures i in TablesOf(rows[..j + 1]) <==> i in TablesOf(rows[..j]) || Reaches(r, i)
    {
      assert rows[..j + 1][j] == r;
      if i in TablesOf(rows[..j]) {
        var k :| 0 <= k < j && Reaches(rows[..j][k], i);
        assert rows[..j + 1][k] == rows[..j][k];
      }
      if i in TablesOf(rows[..j + 1]) {
        var k :| 0 <= k < j + 1 && Reaches(rows[..j + 1][k], i);
        if k < j {
          assert rows[..j][k] == rows[..j + 1][k];
        }
      }
    }
  }

  lemma PrefixReaches(rows: seq<Kmap>, j: nat)
    requires j <= |rows|
    ensures TablesOf(rows[..j]) <= TablesOf(rows)
  {
    forall i | i in TablesOf(rows[..j])
      ensures i in TablesOf(rows)
    {
      var k :| 0 <= k < j && Reaches(rows[..j][k], i);
      assert Reaches(rows[k], i);
    }
  }

  lemma Smaller(a: set<nat>, b: set<nat>, x: nat)
    requires a <= b && x in b && x !in a
    ensures |a| < |b|
  {
    assert b == a + (b - a) && x in b - a;
  }

  /** The frames taken so far are the directory and the tables present. */
  ghost predicate Taken(l: seq<nat>, l': seq<nat>, m: Mem, c: nat)
  {
    IsTable(m, c) && 1 + |Present(m, c)| <= |l| && l' == l[1 + |Present(m, c)|..]
  }

  lemma TakenFirst(l: seq<nat>, m: Mem, c: nat)
    requires l != [] && IsTable(m, c) && forall i :: 0 <= i < NPTENTRIES ==> !Pde(m, c, i).p
    ensures Present(m, c) == {} == TablesOf([]) && Taken(l, l[1..], m, c)
  {
    assert Present(m, c) == {};
    assert TablesOf([]) == {};
  }

  lemma RowOpened(m: Mem, l: seq<nat>, m': Mem, l': seq<nat>, c: nat, a: nat, k: nat, x: Pte)
    requires MappedTo(m, l, m', l', c, a, k, x)
    ensures a <= k && Opened(m, m', c, a, k) && NewTables(m, c, a, k) <= |l| && l' == l[NewTables(m, c, a, k)..]
  {
  }

  /** A row mapped, wholly or up to page k. */
  lemma RowTaken(l: seq<nat>, m: Mem, l1: seq<nat>, m': Mem, l': seq<nat>, c: nat, rows: seq<Kmap>, j: nat, k: nat,
                 x: Pte)
    requires KmapOk(rows) && j < |rows| && Taken(l, l1, m, c) && Present(m, c) == TablesOf(rows[..j])
    requires MappedTo(m, l1, m', l', c, rows[j].virt, k, x) && k <= rows[j].virt + rows[j].count
    ensures Taken(l, l', m', c)
    ensures k == rows[j].virt + rows[j].count ==> Present(m', c) == TablesOf(rows[..j + 1])
    ensures k < rows[j].virt + rows[j].count && OpensTable(m, c, rows[j].virt, k) ==>
      |Present(m', c)| < |TablesOf(rows)|
  {
    hide SpaceOk, MappedTo, Opened, NewTables, Present, Spanned, TablesOf, ReachedBy;
    var r := rows[j];
    RowOpened(m, l1, m', l', c, r.virt, k, x);
    TablesAdded(m, m', c, r.virt, k);
    OneRowMore(rows, j);
    assert rows[..|rows|] == rows;
    if k < r.virt + r.count && OpensTable(m, c, r.virt, k) {
      PrefixReaches(rows, j + 1);
      PresentIff(m, c, k / NPTENTRIES);
      SpanEnd(r.virt, k, r.virt + r.count);
      SpanGrows(r.virt, k, r.virt + r.count);
      Smaller(Present(m', c), TablesOf(rows), k / NPTENTRIES);
    }
  }

  // ---------------------------------------------------------------- copyuvm

  /** Frames for k pages of an empty user half: the pages, and a table for every 1024 of them. */
  function UserNeed(k: nat): (c: nat) { k + (k + NPTENTRIES - 1) / NPTENTRIES }

  /** kmap reaches no user table, so every 1024th page of the child opens one. */
  lemma KernelTablesOnly(rows: seq<Kmap>, i: nat)
    requires KmapOk(rows) && i in TablesOf(rows)
    ensures i >= USER_PAGES / NPTENTRIES
  {
    var j :| 0 <= j < |rows| && Reaches(rows[j], i);
  }

  lemma {:induction false} UserNeedIs(m: Mem, c: nat, rows: seq<Kmap>, k: nat)
    requires IsTable(m, c) && KmapOk(rows) && Present(m, c) == TablesOf(rows) && k <= USER_PAGES
    ensures Need(m, c, 0, k) == UserNeed(k)
    ensures k < USER_PAGES ==> (OpensTable(m, c, 0, k) <==> k % NPTENTRIES == 0)
    decreases k
  {
    if k < USER_PAGES && Pde(m, c, k / NPTENTRIES).p {
      assert k / NPTENTRIES in Present(m, c);
      KernelTablesOnly(rows, k / NPTENTRIES);
    }
    if k > 0 {
      UserNeedIs(m, c, rows, k - 1);
    }
  }

  lemma UserNeedGrows(k: nat, p: nat)
    requires k < p
    ensures UserNeed(k + 1) <= UserNeed(p)
    ensures UserNeed(k + 1) == UserNeed(k) + if k % NPTENTRIES == 0 then 2 else 1
  {
  }

  /** With r frames left for the child, its first page that cannot be added is k: then one frame is over
      exactly when r is one more than a multiple of 1025, the frames of a full table and its pages. */
  lemma OneFrameOver(r: nat, k: nat)
    requires UserNeed(k) <= r < UserNeed(k + 1)
    ensures r == UserNeed(k) + 1 <==> r % (NPTENTRIES + 1) == 1
    ensures r == UserNeed(k) || (r == UserNeed(k) + 1 && k % NPTENTRIES == 0)
  {
  }
}
