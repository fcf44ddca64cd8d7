/** The free list of umalloc.c as a value: the circular list of free blocks in address order,
    starting with the static empty block `base`. */
module FreeList {

  /** sizeof(Header), in bytes: sizes are counted in these units. */
  const UNIT := 8

  /** A block: the address of its header and its size in units, header included. */
  datatype Blk = Blk(a: int, n: nat) {
    function End(): int { a + UNIT * n }
  }

  /** Address order with a gap between neighbours: blocks are disjoint and fully coalesced.
      Only `base`, the first, is empty. */
  ghost predicate Sorted(fl: seq<Blk>)
  {
    && |fl| >= 1 && fl[0].n == 0
    && (forall i :: 0 < i < |fl| ==> fl[i].n > 0)
    && (forall i, j :: 0 <= i < j < |fl| ==> fl[i].End() < fl[j].a)
  }

  function Units(fl: seq<Blk>): (u: nat)
  {
    if fl == [] then 0 else Units(fl[..|fl| - 1]) + fl[|fl| - 1].n
  }

  predicate Apart(b: Blk, c: Blk) { b.End() <= c.a || c.End() <= b.a }

  ghost predicate ApartAll(fl: seq<Blk>, b: Blk)
  {
    forall i :: 0 <= i < |fl| && fl[i].n > 0 ==> Apart(fl[i], b)
  }

  /** `t` is the block that `b` belongs after. */
  ghost predicate Place(fl: seq<Blk>, t: nat, b: Blk)
  {
    t < |fl| && fl[t].a < b.a && (t + 1 < |fl| ==> b.a < fl[t + 1].a)
  }

  // ---------------------------------------------------------------- giving a block back

  predicate JoinsNext(fl: seq<Blk>, t: nat, b: Blk) { t + 1 < |fl| && b.End() == fl[t + 1].a }

  predicate JoinsPrev(fl: seq<Blk>, t: nat, b: Blk)
    requires t < |fl|
  {
    fl[t].End() == b.a
  }

  /** `b` joined with the block after it, if they touch. */
  function Joined(fl: seq<Blk>, t: nat, b: Blk): (m: Blk)
    requires t < |fl|
  {
    if JoinsNext(fl, t, b) then Blk(b.a, b.n + fl[t + 1].n) else b
  }

  /** What follows `b` in the new list. */
  function Rest(fl: seq<Blk>, t: nat, b: Blk): (r: seq<Blk>)
    requires t < |fl|
  {
    if JoinsNext(fl, t, b) then fl[t + 2..] else fl[t + 1..]
  }

  /** free: put `b` back after block t, joining it with either neighbour it touches. */
  function Insert(fl: seq<Blk>, t: nat, b: Blk): (r: seq<Blk>)
    requires t < |fl|
  {
    var m := Joined(fl, t, b);
    if JoinsPrev(fl, t, b) then fl[..t] + [Blk(fl[t].a, fl[t].n + m.n)] + Rest(fl, t, b)
    else fl[..t + 1] + [m] + Rest(fl, t, b)
  }

  lemma {:induction false} UnitsConcat(x: seq<Blk>, y: seq<Blk>)
    ensures Units(x + y) == Units(x) + Units(y)
    decreases |y|
  {
    if y == [] {
      assert x + y == x;
    } else {
      assert (x + y)[..|x + y| - 1] == x + y[..|y| - 1];
      UnitsConcat(x, y[..|y| - 1]);
    }
  }

  lemma UnitsMid(x: seq<Blk>, b: Blk, y: seq<Blk>)
    ensures Units(x + [b] + y) == Units(x) + b.n + Units(y)
  {
    assert (x + [b])[..|x|] == x;
    UnitsConcat(x + [b], y);
  }

  lemma UnitsSplit(fl: seq<Blk>, t: nat)
    requires t < |fl|
    ensures Units(fl) == Units(fl[..t]) + fl[t].n + Units(fl[t + 1..])
  {
    hide Units;
    assert fl == fl[..t] + [fl[t]] + fl[t + 1..];
    UnitsMid(fl[..t], fl[t], fl[t + 1..]);
  }

  /** The list grows by exactly the units given back. */
  lemma InsertUnits(fl: seq<Blk>, t: nat, b: Blk)
    requires t < |fl|
    ensures Units(Insert(fl, t, b)) == Units(fl) + b.n
  {
    hide Units;
    var m, rest := Joined(fl, t, b), Rest(fl, t, b);
    UnitsSplit(fl, t);
    if JoinsNext(fl, t, b) {
      UnitsSplit(fl[t + 1..], 0);
      assert fl[t + 1..][..0] == [] && fl[t + 1..][1..] == rest;
      NoUnits();
    }
    assert Units(fl[t + 1..]) + b.n == m.n + Units(rest);
    if JoinsPrev(fl, t, b) {
      UnitsMid(fl[..t], Blk(fl[t].a, fl[t].n + m.n), rest);
    } else {
      UnitsSplit(fl[..t + 1], t);
      assert fl[..t + 1][..t] == fl[..t] && fl[..t + 1][t + 1..] == [];
      NoUnits();
      UnitsMid(fl[..t + 1], m, rest);
    }
  }

  lemma NoUnits()
    ensures Units([]) == 0
  {
  }

  /** A block clear of the list lies wholly between its two neighbours. */
  lemma PlaceFits(fl: seq<Blk>, t: nat, b: Blk)
    requires Sorted(fl) && Place(fl, t, b) && b.n > 0 && ApartAll(fl, b)
    ensures fl[t].End() <= b.a && (t + 1 < |fl| ==> b.End() <= fl[t + 1].a)
  {
    if t > 0 {
      assert Apart(fl[t], b);
    }
    if t + 1 < |fl| {
      assert Apart(fl[t + 1], b);
    }
  }

  lemma SortedAround(pre: seq<Blk>, m: Blk, rest: seq<Blk>)
    requires Sorted(pre) && m.n > 0 && pre[|pre| - 1].End() < m.a
    requires forall i :: 0 <= i < |rest| ==> m.End() < rest[i].a && rest[i].n > 0
    requires forall i, j :: 0 <= i < j < |rest| ==> rest[i].End() < rest[j].a
    ensures Sorted(pre + [m] + rest)
  {
    var fl := pre + [m] + rest;
    assert forall i :: 0 <= i < |pre| ==> pre[i].End() < m.a;
    forall i, j | 0 <= i < j < |fl|
      ensures fl[i].End() < fl[j].a
    {
      if j < |pre| {
        assert fl[i] == pre[i] && fl[j] == pre[j];
      } else if j == |pre| {
        assert fl[i] == pre[i];
      } else {
        assert fl[j] == rest[j - |pre| - 1];
        if i > |pre| {
          assert fl[i] == rest[i - |pre| - 1];
        }
      }
    }
  }

  lemma PrefixSorted(fl: seq<Blk>, t: nat)
    requires Sorted(fl) && 1 <= t <= |fl|
    ensures Sorted(fl[..t])
  {
  }

  lemma RestSorted(fl: seq<Blk>, t: nat, b: Blk)
    requires Sorted(fl) && t < |fl| && b.n > 0 && (t + 1 < |fl| ==> b.End() <= fl[t + 1].a)
    ensures var m, rest := Joined(fl, t, b), Rest(fl, t, b);
      && (forall i :: 0 <= i < |rest| ==> m.End() < rest[i].a && rest[i].n > 0)
      && (forall i, j :: 0 <= i < j < |rest| ==> rest[i].End() < rest[j].a)
  {
    var m, rest := Joined(fl, t, b), Rest(fl, t, b);
    var o := |fl| - |rest|;
    assert forall i :: 0 <= i < |rest| ==> rest[i] == fl[o + i];
    if t + 1 < |fl| {
      forall i | 0 <= i < |rest|
        ensures m.End() < rest[i].a
      {
        assert o + i > t + 1 ==> fl[t + 1].End() < fl[o + i].a;
      }
    }
  }

  /** Order, disjointness and full coalescing survive. */
  lemma InsertSorted(fl: seq<Blk>, t: nat, b: Blk)
    requires Sorted(fl) && Place(fl, t, b) && b.n > 0 && ApartAll(fl, b)
    ensures Sorted(Insert(fl, t, b))
  {
    hide Sorted, ApartAll, Rest;
    NonEmpty(fl);
    PlaceFits(fl, t, b);
    RestSorted(fl, t, b);
    BeforeJoin(fl, t, b);
    var m := Joined(fl, t, b);
    if JoinsPrev(fl, t, b) {
      PrefixSorted(fl, t);
      SortedAround(fl[..t], Blk(fl[t].a, fl[t].n + m.n), Rest(fl, t, b));
    } else {
      PrefixSorted(fl, t + 1);
      SortedAround(fl[..t + 1], m, Rest(fl, t, b));
    }
  }

  lemma NonEmpty(fl: seq<Blk>)
    requires Sorted(fl)
    ensures |fl| >= 1
  {
  }

  lemma BeforeJoin(fl: seq<Blk>, t: nat, b: Blk)
    requires Sorted(fl) && Place(fl, t, b)
    ensures JoinsPrev(fl, t, b) ==> t > 0 && fl[t - 1].End() < fl[t].a && fl[t].n > 0
  {
  }

  /** What was clear of the list and of `b` is clear of the new list. */
  lemma InsertApart(fl: seq<Blk>, t: nat, b: Blk, c: Blk)
    requires Sorted(fl) && Place(fl, t, b) && b.n > 0 && c.n > 0
    requires ApartAll(fl, b) && ApartAll(fl, c) && Apart(b, c)
    ensures ApartAll(Insert(fl, t, b), c)
  {
    PlaceFits(fl, t, b);
    var m := Joined(fl, t, b);
    assert Apart(m, c);
    if JoinsPrev(fl, t, b) {
      assert t > 0 && Apart(fl[t], c);
      assert Apart(Blk(fl[t].a, fl[t].n + m.n), c);
    }
    forall i | 0 <= i < |Insert(fl, t, b)| && Insert(fl, t, b)[i].n > 0
      ensures Apart(Insert(fl, t, b)[i], c)
    {
      var x := Insert(fl, t, b)[i];
      assert x == m || x in fl || (JoinsPrev(fl, t, b) && x == Blk(fl[t].a, fl[t].n + m.n));
    }
  }

  // ---------------------------------------------------------------- taking units

  /** malloc: the last n units of block k; the block goes when it is used up. */
  function Take(fl: seq<Blk>, k: nat, n: nat): (r: seq<Blk>)
    requires k < |fl| && fl[k].n >= n
  {
    if fl[k].n == n then fl[..k] + fl[k + 1..] else fl[k := Blk(fl[k].a, fl[k].n - n)]
  }

  function Taken(fl: seq<Blk>, k: nat, n: nat): (b: Blk)
    requires k < |fl| && fl[k].n >= n
  {
    Blk(fl[k].a + UNIT * (fl[k].n - n), n)
  }

  lemma TakeUnits(fl: seq<Blk>, k: nat, n: nat)
    requires k < |fl| && fl[k].n >= n
    ensures Units(Take(fl, k, n)) + n == Units(fl)
  {
    hide Units;
    UnitsSplit(fl, k);
    if fl[k].n == n {
      UnitsConcat(fl[..k], fl[k + 1..]);
    } else {
      var left := Blk(fl[k].a, fl[k].n - n);
      assert Take(fl, k, n) == fl[..k] + [left] + fl[k + 1..];
      UnitsMid(fl[..k], left, fl[k + 1..]);
    }
  }

  /** Taking from a list keeps it sorted; the block taken is clear of what remains and inside what was there. */
  lemma TakeSorted(fl: seq<Blk>, k: nat, n: nat)
    requires Sorted(fl) && k < |fl| && fl[k].n >= n > 0
    ensures Sorted(Take(fl, k, n)) && ApartAll(Take(fl, k, n), Taken(fl, k, n))
    ensures fl[k].a <= Taken(fl, k, n).a && Taken(fl, k, n).End() == fl[k].End()
  {
    var fl' := Take(fl, k, n);
    forall i, j | 0 <= i < j < |fl'|
      ensures fl'[i].End() < fl'[j].a
    {
      TakeOrder(fl, k, n, i, j);
    }
  }

  lemma TakeOrder(fl: seq<Blk>, k: nat, n: nat, i: nat, j: nat)
    requires Sorted(fl) && k < |fl| && fl[k].n >= n > 0 && i < j < |Take(fl, k, n)|
    ensures Take(fl, k, n)[i].End() < Take(fl, k, n)[j].a
  {
    var drop := fl[k].n == n;
    var i', j' := if drop && i >= k then i + 1 else i, if drop && j >= k then j + 1 else j;
    assert fl[i'].End() < fl[j'].a;
  }

  lemma TakeApart(fl: seq<Blk>, k: nat, n: nat, c: Blk)
    requires Sorted(fl) && k < |fl| && fl[k].n >= n > 0 && c.n > 0 && ApartAll(fl, c)
    ensures ApartAll(Take(fl, k, n), c) && Apart(Taken(fl, k, n), c)
  {
    assert Apart(fl[k], c);
    forall i | 0 <= i < |Take(fl, k, n)| && Take(fl, k, n)[i].n > 0
      ensures Apart(Take(fl, k, n)[i], c)
    {
      var x := Take(fl, k, n)[i];
      assert x in fl || x == Blk(fl[k].a, fl[k].n - n);
    }
  }
}
