/** umalloc.c: the circular free list in memory, free, morecore and malloc. */
module Heap {
  import opened FreeList

  // ---------------------------------------------------------------- the list in memory

  function Next(i: nat, n: nat): nat { if i + 1 == n then 0 else i + 1 }

  /** Block i's header holds its size and the address of the next block, the last one pointing
      back to the first. */
  ghost predicate HeaderAt(ptr: map<int, int>, size: map<int, nat>, fl: seq<Blk>, i: nat)
    requires i < |fl|
  {
    && fl[i].a in ptr && fl[i].a in size
    && size[fl[i].a] == fl[i].n && ptr[fl[i].a] == fl[Next(i, |fl|)].a
  }

  /** The headers spell out the list, closed into a circle. */
  ghost predicate Circular(ptr: map<int, int>, size: map<int, nat>, fl: seq<Blk>)
  {
    forall i: nat :: i < |fl| ==> HeaderAt(ptr, size, fl, i)
  }

  /** The headers after free has stored b.ptr, and b.size if b absorbed the next block. */
  function Ptr1(ptr: map<int, int>, size: map<int, nat>, p: int, b: Blk): (r: map<int, int>)
    requires p in ptr && ptr[p] in ptr
  {
    var q := ptr[p];
    if b.End() == q then ptr[b.a := ptr[q]] else ptr[b.a := q]
  }

  function Size1(ptr: map<int, int>, size: map<int, nat>, p: int, b: Blk): (r: map<int, nat>)
    requires p in ptr && ptr[p] in size
  {
    var q := ptr[p];
    if b.End() == q then size[b.a := b.n + size[q]] else size[b.a := b.n]
  }

  /** The headers when free is done: the block at p absorbs b if they touch, else it points to b. */
  function Ptr2(ptr: map<int, int>, size: map<int, nat>, p: int, b: Blk): (r: map<int, int>)
    requires p in ptr && ptr[p] in ptr && ptr[p] in size && p in size && p != b.a
  {
    var ptr1, size1 := Ptr1(ptr, size, p, b), Size1(ptr, size, p, b);
    if p + UNIT * size1[p] == b.a then ptr1[p := ptr1[b.a]] else ptr1[p := b.a]
  }

  function Size2(ptr: map<int, int>, size: map<int, nat>, p: int, b: Blk): (r: map<int, nat>)
    requires p in ptr && ptr[p] in size && p in size && p != b.a
  {
    var size1 := Size1(ptr, size, p, b);
    if p + UNIT * size1[p] == b.a then size1[p := size1[p] + size1[b.a]] else size1
  }

  lemma AfterFirst(ptr: map<int, int>, size: map<int, nat>, fl: seq<Blk>, t: nat, b: Blk)
    requires Sorted(fl) && Circular(ptr, size, fl) && Place(fl, t, b) && b.n > 0
    ensures fl[t].a in ptr && ptr[fl[t].a] in ptr && ptr[fl[t].a] in size
    ensures b.End() == ptr[fl[t].a] <==> JoinsNext(fl, t, b)
    ensures b.a in Ptr1(ptr, size, fl[t].a, b) && b.a in Size1(ptr, size, fl[t].a, b)
    ensures Size1(ptr, size, fl[t].a, b)[b.a] == Joined(fl, t, b).n
    ensures Ptr1(ptr, size, fl[t].a, b)[b.a] == if Rest(fl, t, b) == [] then fl[0].a else Rest(fl, t, b)[0].a
  {
    var u := Next(t, |fl|);
    assert HeaderAt(ptr, size, fl, t) && HeaderAt(ptr, size, fl, u);
    if t + 1 == |fl| {
      assert t > 0 ==> fl[0].End() < fl[t].a;
    }
  }

  /** Blocks of the list have their own addresses, none of them b's. */
  lemma OtherAddress(fl: seq<Blk>, t: nat, b: Blk, i: nat)
    requires Sorted(fl) && Place(fl, t, b) && i < |fl|
    ensures fl[i].a != b.a && (i != t ==> fl[i].a != fl[t].a)
  {
    if i < t {
      assert fl[i].End() < fl[t].a;
    } else if i > t {
      assert fl[t].End() < fl[i].a;
      assert i > t + 1 ==> fl[t + 1].End() < fl[i].a;
    }
  }

  /** The headers agree on block a of two lists that go on alike from there. */
  lemma SameLink(ptr: map<int, int>, size: map<int, nat>, fl: seq<Blk>, k: nat,
                 ptr': map<int, int>, size': map<int, nat>, fl': seq<Blk>, i: nat)
    requires k < |fl| && i < |fl'| && HeaderAt(ptr, size, fl, k) && fl'[i] == fl[k]
    requires fl'[Next(i, |fl'|)].a == fl[Next(k, |fl|)].a
    requires fl[k].a in ptr' && fl[k].a in size'
    requires ptr'[fl[k].a] == ptr[fl[k].a] && size'[fl[k].a] == size[fl[k].a]
    ensures HeaderAt(ptr', size', fl', i)
  {
  }

  /** Where each block of the new list was in the old one. */
  lemma InsertAt(fl: seq<Blk>, t: nat, b: Blk, i: nat)
    requires t < |fl| && i < |Insert(fl, t, b)|
    ensures var fl', rest := Insert(fl, t, b), Rest(fl, t, b); var s := if JoinsPrev(fl, t, b) then 1 else 2;
      && |fl'| == t + s + |rest| && |rest| + t + 1 <= |fl|
      && (i < t ==> fl'[i] == fl[i])
      && (i == t ==> fl'[i] == if JoinsPrev(fl, t, b) then Blk(fl[t].a, fl[t].n + Joined(fl, t, b).n) else fl[t])
      && (i == t + 1 && !JoinsPrev(fl, t, b) ==> fl'[i] == Joined(fl, t, b))
      && (i >= t + s ==> fl'[i] == fl[|fl| - |fl'| + i])
      && Joined(fl, t, b).a == b.a
      && (rest != [] ==> fl'[t + s] == rest[0])
  {
  }

  /** free's first step touches only b's header. */
  lemma OtherHeader(ptr: map<int, int>, size: map<int, nat>, p: int, b: Blk, x: int)
    requires p in ptr && ptr[p] in ptr && ptr[p] in size && x != b.a && x in ptr && x in size
    ensures x in Ptr1(ptr, size, p, b) && Ptr1(ptr, size, p, b)[x] == ptr[x]
    ensures x in Size1(ptr, size, p, b) && Size1(ptr, size, p, b)[x] == size[x]
  {
  }

  lemma GetHeader(ptr: map<int, int>, size: map<int, nat>, fl: seq<Blk>, i: nat)
    requires Circular(ptr, size, fl) && i < |fl|
    ensures HeaderAt(ptr, size, fl, i) && fl[i].a in ptr && fl[i].a in size && size[fl[i].a] == fl[i].n
    ensures ptr[fl[i].a] == fl[Next(i, |fl|)].a
  {
  }

  /** A block of the new list that is neither b nor the one before it keeps its link. */
  lemma InsertKeepsLink(ptr: map<int, int>, size: map<int, nat>, fl: seq<Blk>, t: nat, b: Blk,
                        ptr': map<int, int>, size': map<int, nat>, i: nat)
    requires Sorted(fl) && Circular(ptr, size, fl) && Place(fl, t, b) && i < |Insert(fl, t, b)|
    requires i < t || i >= t + if JoinsPrev(fl, t, b) then 1 else 2
    requires forall x :: x in ptr && x in size && x != b.a && x != fl[t].a ==>
      x in ptr' && ptr'[x] == ptr[x] && x in size' && size'[x] == size[x]
    ensures HeaderAt(ptr', size', Insert(fl, t, b), i)
  {
    hide Sorted, Insert, Rest, Joined, Place, Circular, HeaderAt, JoinsPrev;
    Bounds(fl, t, b);
    var fl' := Insert(fl, t, b);
    InsertAt(fl, t, b, i);
    InsertAt(fl, t, b, 0);
    var k := if i < t then i else |fl| - |fl'| + i;
    GetHeader(ptr, size, fl, k);
    OtherAddress(fl, t, b, k);
    if i + 1 < |fl'| {
      InsertAt(fl, t, b, i + 1);
    }
    SameLink(ptr, size, fl, k, ptr', size', fl', i);
  }

  lemma Bounds(fl: seq<Blk>, t: nat, b: Blk)
    requires Place(fl, t, b)
    ensures t < |fl|
  {
  }

  /** free when b does not touch the block before it. */
  lemma InsertApartLinked(ptr: map<int, int>, size: map<int, nat>, fl: seq<Blk>, t: nat, b: Blk)
    requires Sorted(fl) && Circular(ptr, size, fl) && Place(fl, t, b) && b.n > 0 && !JoinsPrev(fl, t, b)
    ensures fl[t].a in ptr && ptr[fl[t].a] in ptr && ptr[fl[t].a] in size
    ensures Circular(Ptr1(ptr, size, fl[t].a, b)[fl[t].a := b.a], Size1(ptr, size, fl[t].a, b), Insert(fl, t, b))
  {
    hide Sorted, Insert, Rest, Joined, Place, HeaderAt, JoinsPrev, Ptr1, Size1;
    Bounds(fl, t, b);
    AfterFirst(ptr, size, fl, t, b);
    OtherAddress(fl, t, b, t);
    GetHeader(ptr, size, fl, t);
    var p := fl[t].a;
    var ptr', size' := Ptr1(ptr, size, p, b)[p := b.a], Size1(ptr, size, p, b);
    var fl' := Insert(fl, t, b);
    forall x | x in ptr && x in size && x != b.a
      ensures x in ptr' && (x != p ==> ptr'[x] == ptr[x]) && x in size' && size'[x] == size[x]
    {
      OtherHeader(ptr, size, p, b, x);
    }
    forall i: nat | i < |fl'|
      ensures HeaderAt(ptr', size', fl', i)
    {
      if i < t || i >= t + 2 {
        InsertKeepsLink(ptr, size, fl, t, b, ptr', size', i);
      } else {
        NewLinks(fl, t, b);
        LinkIs(ptr', size', fl', i);
      }
    }
  }

  lemma LinkIs(ptr: map<int, int>, size: map<int, nat>, fl: seq<Blk>, i: nat)
    requires i < |fl| && fl[i].a in ptr && fl[i].a in size
    requires size[fl[i].a] == fl[i].n && ptr[fl[i].a] == fl[Next(i, |fl|)].a
    ensures HeaderAt(ptr, size, fl, i)
  {
  }

  /** The new list around b. */
  lemma NewLinks(fl: seq<Blk>, t: nat, b: Blk)
    requires t < |fl|
    ensures var fl', rest := Insert(fl, t, b), Rest(fl, t, b);
      && t < |fl'| && fl'[t].a == fl[t].a
      && (!JoinsPrev(fl, t, b) ==>
           && t + 1 < |fl'| && fl'[t] == fl[t] && fl'[t + 1] == Joined(fl, t, b) && fl'[t + 1].a == b.a
           && fl'[Next(t + 1, |fl'|)].a == if rest == [] then fl[0].a else rest[0].a)
      && (JoinsPrev(fl, t, b) ==>
           && fl'[t].n == fl[t].n + Joined(fl, t, b).n
           && fl'[Next(t, |fl'|)].a == if rest == [] then fl[0].a else rest[0].a)
  {
  }

  /** free when b touches the block before it, which absorbs it. */
  lemma InsertJoinedLinked(ptr: map<int, int>, size: map<int, nat>, fl: seq<Blk>, t: nat, b: Blk)
    requires Sorted(fl) && Circular(ptr, size, fl) && Place(fl, t, b) && b.n > 0 && JoinsPrev(fl, t, b)
    ensures fl[t].a in ptr && ptr[fl[t].a] in ptr && ptr[fl[t].a] in size && fl[t].a in size
    ensures var p := fl[t].a; var ptr1, size1 := Ptr1(ptr, size, p, b), Size1(ptr, size, p, b);
      p in size1 && Circular(ptr1[p := ptr1[b.a]], size1[p := size1[p] + size1[b.a]], Insert(fl, t, b))
  {
    hide Sorted, Insert, Rest, Joined, Place, HeaderAt, JoinsPrev, Ptr1, Size1;
    Bounds(fl, t, b);
    AfterFirst(ptr, size, fl, t, b);
    OtherAddress(fl, t, b, t);
    GetHeader(ptr, size, fl, t);
    var p := fl[t].a;
    OtherHeader(ptr, size, p, b, p);
    var ptr1, size1 := Ptr1(ptr, size, p, b), Size1(ptr, size, p, b);
    var ptr', size' := ptr1[p := ptr1[b.a]], size1[p := size1[p] + size1[b.a]];
    var fl' := Insert(fl, t, b);
    forall x | x in ptr && x in size && x != b.a && x != p
      ensures x in ptr' && ptr'[x] == ptr[x] && x in size' && size'[x] == size[x]
    {
      OtherHeader(ptr, size, p, b, x);
    }
    forall i: nat | i < |fl'|
      ensures HeaderAt(ptr', size', fl', i)
    {
      if i != t {
        InsertKeepsLink(ptr, size, fl, t, b, ptr', size', i);
      } else {
        NewLinks(fl, t, b);
        LinkIs(ptr', size', fl', i);
      }
    }
  }

  // ---------------------------------------------------------------- taking

  /** malloc of all of block k: the block before it is linked past it. */
  lemma TakeAllLinked(ptr: map<int, int>, size: map<int, nat>, fl: seq<Blk>, k: nat, n: nat)
    requires Sorted(fl) && Circular(ptr, size, fl) && 0 < k < |fl| && fl[k].n == n
    ensures fl[k].a in ptr && fl[k - 1].a in ptr
    ensures Circular(ptr[fl[k - 1].a := ptr[fl[k].a]], size, Take(fl, k, n))
  {
    var fl' := Take(fl, k, n);
    GetHeader(ptr, size, fl, k);
    GetHeader(ptr, size, fl, k - 1);
    var ptr' := ptr[fl[k - 1].a := ptr[fl[k].a]];
    forall i: nat | i < |fl'|
      ensures HeaderAt(ptr', size, fl', i)
    {
      TakeAllLink(ptr, size, fl, k, n, i);
    }
  }

  lemma AddrsDiffer(fl: seq<Blk>, i: nat, j: nat)
    requires Sorted(fl) && i < |fl| && j < |fl| && i != j
    ensures fl[i].a != fl[j].a
  {
    assert i < j ==> fl[i].End() < fl[j].a;
    assert j < i ==> fl[j].End() < fl[i].a;
  }

  lemma TakeAllLink(ptr: map<int, int>, size: map<int, nat>, fl: seq<Blk>, k: nat, n: nat, i: nat)
    requires Sorted(fl) && Circular(ptr, size, fl) && 0 < k < |fl| && fl[k].n == n && i < |Take(fl, k, n)|
    requires fl[k].a in ptr && fl[k - 1].a in ptr
    ensures HeaderAt(ptr[fl[k - 1].a := ptr[fl[k].a]], size, Take(fl, k, n), i)
  {
    hide Circular, HeaderAt, Sorted;
    var fl' := Take(fl, k, n);
    var ptr' := ptr[fl[k - 1].a := ptr[fl[k].a]];
    var o := if i < k then i else i + 1;
    GetHeader(ptr, size, fl, o);
    GetHeader(ptr, size, fl, k);
    if i == k - 1 {
      LinkIs(ptr', size, fl', i);
    } else {
      AddrsDiffer(fl, o, k - 1);
      SameLink(ptr, size, fl, o, ptr', size, fl', i);
    }
  }

  /** malloc of the tail of block k: only sizes change. */
  lemma TakeTailLinked(ptr: map<int, int>, size: map<int, nat>, fl: seq<Blk>, k: nat, n: nat)
    requires Sorted(fl) && Circular(ptr, size, fl) && k < |fl| && fl[k].n > n > 0
    ensures Circular(ptr, size[fl[k].a := fl[k].n - n][Taken(fl, k, n).a := n], Take(fl, k, n))
  {
    var fl' := Take(fl, k, n);
    var size' := size[fl[k].a := fl[k].n - n][Taken(fl, k, n).a := n];
    forall i: nat | i < |fl'|
      ensures HeaderAt(ptr, size', fl', i)
    {
      TakeTailLink(ptr, size, fl, k, n, i);
    }
  }

  lemma TakeTailLink(ptr: map<int, int>, size: map<int, nat>, fl: seq<Blk>, k: nat, n: nat, i: nat)
    requires Sorted(fl) && Circular(ptr, size, fl) && k < |fl| && fl[k].n > n > 0 && i < |fl|
    ensures HeaderAt(ptr, size[fl[k].a := fl[k].n - n][Taken(fl, k, n).a := n], Take(fl, k, n), i)
  {
    hide Circular, HeaderAt;
    var fl' := Take(fl, k, n);
    var size' := size[fl[k].a := fl[k].n - n][Taken(fl, k, n).a := n];
    GetHeader(ptr, size, fl, i);
    assert i < k ==> fl[i].End() < fl[k].a;
    assert i > k ==> fl[k].End() < fl[i].a;
    LinkIs(ptr, size', fl', i);
  }
}
