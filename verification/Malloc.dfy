/** malloc and free of umalloc.c, over any sequence of calls. */
module Malloc {
  import opened Machine
  import opened FreeList
  import opened Heap
  import PageTable

  /** morecore asks for at least this many units. */
  const CORE := 4096

  // ---------------------------------------------------------------- blocks in use

  /** Blocks handed out: disjoint from the free list and from each other, between base and top. */
  ghost predicate LiveOk(fl: seq<Blk>, live: map<int, nat>, size: map<int, nat>, top: int)
    requires |fl| >= 1
  {
    && (forall a :: a in live ==>
         && live[a] > 0 && fl[0].a < a && a + UNIT * live[a] <= top
         && a in size && size[a] == live[a] && ApartAll(fl, Blk(a, live[a])))
    && (forall a, c :: a in live && c in live && a != c ==> Apart(Blk(a, live[a]), Blk(c, live[c])))
  }

  ghost function LiveUnits(live: map<int, nat>): (u: nat)
    decreases |live|
  {
    if forall a: int :: a !in live then 0
    else
      var a :| a in live;
      live[a] + LiveUnits(live - {a})
  }

  lemma {:induction false} LiveSplit(live: map<int, nat>, a: int)
    requires a in live
    ensures LiveUnits(live) == live[a] + LiveUnits(live - {a})
    decreases |live|
  {
    var first :| first in live && LiveUnits(live) == live[first] + LiveUnits(live - {first});
    if first != a {
      LiveSplit(live - {first}, a);
      LiveSplit(live - {a}, first);
      assert live - {first} - {a} == live - {a} - {first};
    }
  }

  lemma LiveAdd(live: map<int, nat>, a: int, n: nat)
    requires a !in live
    ensures LiveUnits(live[a := n]) == LiveUnits(live) + n
  {
    LiveSplit(live[a := n], a);
    assert live[a := n] - {a} == live;
  }

  // ---------------------------------------------------------------- sizes

  /** `(nbytes + sizeof(Header) - 1)/sizeof(Header) + 1` in 32-bit arithmetic. */
  function UnitsFor(nbytes: nat): (n: nat)
    ensures n >= 1
  {
    (nbytes + UNIT - 1) % UINT_LIMIT / UNIT + 1
  }

  /** The block has room for nbytes beside its header exactly when the sum does not wrap; then one unit less would not
      do, and otherwise it is a header alone. */
  lemma RoomIffNoWrap(nbytes: nat)
    requires nbytes < UINT_LIMIT
    ensures UNIT * (UnitsFor(nbytes) - 1) >= nbytes <==> nbytes + UNIT - 1 < UINT_LIMIT
    ensures if nbytes + UNIT - 1 < UINT_LIMIT then UNIT * (UnitsFor(nbytes) - 1) < nbytes + UNIT
            else UnitsFor(nbytes) == 1
  {
  }

  /** What sbrk(nu * sizeof(Header)) is asked for, as a signed int. */
  function SbrkArg(nu: nat): (n: int)
  {
    var u := nu * UNIT % UINT_LIMIT;
    if u < 0x8000_0000 then u else u - UINT_LIMIT
  }

  /** For this request morecore asks sbrk for the size of the block it then puts on the list. */
  predicate SbrkGrows(nbytes: nat)
  {
    var nu := Max(CORE, UnitsFor(nbytes));
    SbrkArg(nu) == nu * UNIT
  }

  /** It does exactly when the request is at most 2^31 - 16 bytes, or so large that the number of units wraps;
      in between, morecore asks sbrk to shrink or not to move. */
  lemma SbrkGrowsIff(nbytes: nat)
    requires nbytes < UINT_LIMIT
    ensures SbrkGrows(nbytes) <==> nbytes <= 0x8000_0000 - 16 || nbytes + UNIT - 1 >= UINT_LIMIT
  {
  }

  /** growproc's answer: -1, or the new size of the process. */
  datatype Growth = Refused | Size(sz: nat)

  /** growproc(n) for a process of sz bytes; `room` says whether allocuvm finds the memory. Sizes are unsigned, and
      deallocuvm does nothing when the new size is not below the old one. */
  function GrowProc(sz: Uint, n: int, room: bool): (g: Growth)
  {
    var newsz := (sz + n) % UINT_LIMIT;
    if n > 0 then
      if newsz >= PageTable.KERNBASE then Refused
      else if newsz < sz then Size(sz)
      else if room then Size(newsz) else Refused
    else if n < 0 then
      var r := if newsz >= sz then sz else newsz;
      if r == 0 then Refused else Size(r)
    else Size(sz)
  }

  /** morecore's call of sbrk for this request. */
  function Sbrk(sz: Uint, nbytes: nat, room: bool): (g: Growth)
  {
    GrowProc(sz, SbrkArg(Max(CORE, UnitsFor(nbytes))), room)
  }

  /** If sbrk does not refuse, the process ends where the new block ends exactly when it was asked to grow; otherwise
      the whole block lies beyond the end of the process. */
  lemma SbrkCovers(sz: Uint, nbytes: nat, room: bool)
    requires nbytes < UINT_LIMIT && sz < PageTable.KERNBASE && Sbrk(sz, nbytes, room).Size?
    ensures var end := sz + UNIT * Max(CORE, UnitsFor(nbytes)); var newsz := Sbrk(sz, nbytes, room).sz;
      if SbrkGrows(nbytes) then newsz == end else newsz <= sz
  {
  }

  /** What sbrk answers for a block of `len` bytes. Below 2^31 bytes it refuses exactly when the process would reach
      KERNBASE or there is no memory; from there up to 2^32, exactly when the process has no memory or just the amount
      it is then told to give back; at 2^32, never. */
  lemma SbrkAnswers(sz: Uint, nbytes: nat, room: bool)
    requires nbytes < UINT_LIMIT && sz < PageTable.KERNBASE
    ensures var g, len := Sbrk(sz, nbytes, room), UNIT * Max(CORE, UnitsFor(nbytes));
      && len <= UINT_LIMIT
      && (len < 0x8000_0000 <==> nbytes <= 0x8000_0000 - 16 || nbytes + UNIT - 1 >= UINT_LIMIT)
      && (g.Refused? <==> if len < 0x8000_0000 then sz + len >= 0x8000_0000 || !room
                          else len < UINT_LIMIT && (sz == 0 || sz + len == UINT_LIMIT))
      && (g.Size? ==>
            g.sz == if len < 0x8000_0000 then sz + len
                    else if sz + len < UINT_LIMIT || len == UINT_LIMIT then sz
                    else sz + len - UINT_LIMIT)
  {
  }

  // ---------------------------------------------------------------- search order

  /** How far block i is from the one after block `at`, going round the circle. */
  function Dist(at: nat, i: nat, n: nat): (d: int)
    requires at < n && i < n
    ensures 0 <= d < n && (d == n - 1 <==> i == at)
  {
    if i > at then i - at - 1 else i - at - 1 + n
  }

  /** Block i and all those met before it, starting after block `at`, are too small. */
  ghost predicate TooSmall(fl: seq<Blk>, at: nat, i: nat, n: nat)
    requires at < |fl| && i < |fl|
  {
    forall j: nat :: j < |fl| && Dist(at, j, |fl|) < Dist(at, i, |fl|) ==> fl[j].n < n
  }

  /** No block of the list has n units. */
  ghost predicate NoneFits(fl: seq<Blk>, n: nat) { forall j: nat :: j < |fl| ==> fl[j].n < n }

  // ---------------------------------------------------------------- the allocator

  class Allocator {
    /** The address of the static header `base`, below all memory sbrk gives. */
    const base: int
    /** The ptr and size fields of the headers in memory. */
    var ptr: map<int, int>
    var size: map<int, nat>
    /** The roving pointer; 0 before the first malloc. */
    var freep: int

    ghost var fl: seq<Blk>
    ghost var at: nat
    ghost var live: map<int, nat>
    /** The end of the memory the blocks lie in. */
    ghost var top: int
    /** Units obtained from sbrk. */
    ghost var got: nat

    ghost predicate Listed()
      reads this
    {
      && 0 < base < top
      && Sorted(fl) && fl[0].a == base && Circular(ptr, size, fl)
      && at < |fl| && freep == fl[at].a
      && (forall i :: 0 <= i < |fl| ==> fl[i].End() <= top)
      && LiveOk(fl, live, size, top)
    }

    /** The invariant across calls: a sorted, coalesced, circular free list; disjoint live blocks;
        and every unit from sbrk either free or live. */
    ghost predicate Valid()
      reads this
    {
      && 0 < base < top
      && (freep == 0 ==> live == map[] && got == 0)
      && (freep != 0 ==> Listed() && Units(fl) + LiveUnits(live) == got)
    }

    constructor (base: int, top: int)
      requires 0 < base < top
      ensures Valid() && freep == 0 && live == map[] && this.top == top && this.base == base
    {
      this.base, this.top, ptr, size, freep := base, top, map[], map[], 0;
      fl, at, live, got := [], 0, map[], 0;
    }

    /** free's search: stops at the block that bp belongs after, wherever it starts. */
    method FindPlace(bp: int) returns (p: int, ghost t: nat)
      requires Listed() && bp > base && forall i :: 0 <= i < |fl| ==> fl[i].a != bp
      ensures t < |fl| && p == fl[t].a && Place(fl, t, Blk(bp, 0))
    {
      hide Sorted, LiveOk, HeaderAt, Units;
      ghost var u := Before(bp);
      p, t := freep, at;
      GetHeader(ptr, size, fl, t);
      while !(bp > p && bp < ptr[p])
        invariant t < |fl| && p == fl[t].a && p in ptr && ptr[p] == fl[Next(t, |fl|)].a
        decreases if t <= u then u - t else u + |fl| - t
      {
        Ascending(fl, t, u);
        Ascending(fl, u, t);
        Wraps(fl, t);
        if p >= ptr[p] && (bp > p || bp < ptr[p]) {
          break;
        }
        GetHeader(ptr, size, fl, Next(t, |fl|));
        p, t := ptr[p], Next(t, |fl|);
      }
      Wraps(fl, t);
    }

    /** free: the block at header bp joins the free list after the block that precedes it in memory. */
    method Free(bp: int) returns (ghost t: nat)
      requires Valid() && freep != 0 && bp in live
      modifies this`ptr, this`size, this`freep, this`fl, this`at, this`live
      ensures Valid() && freep != 0
      ensures Place(old(fl), t, Blk(bp, old(live)[bp])) && fl == Insert(old(fl), t, Blk(bp, old(live)[bp]))
      ensures live == old(live) - {bp} && at == t && at < |fl| && freep == old(fl)[t].a
    {
      hide Sorted, LiveOk, Circular, HeaderAt, Units, Place, Insert, Joined, Rest, ApartAll, JoinsNext, JoinsPrev, Ptr2;
      hide Size2, LiveUnits;
      ghost var b := Blk(bp, live[bp]);
      LiveIsClear(fl, live, size, top, bp);
      var p;
      p, t := FindPlace(bp);
      PlaceAny(fl, t, bp, live[bp]);
      FreedLinks(ptr, size, fl, t, b);
      FreedList(fl, live, size, top, t, bp);
      Wraps(fl, t);
      ghost var size0 := size;
      Relink(p, bp);
      freep := p;
      fl := Insert(fl, t, b);
      at := t;
      live := live - {bp};
      FreedSizes(fl, live, size0, size, top, bp, t);
    }

    /** free's stores into the headers of bp and of the block p before it. */
    method Relink(p: int, bp: int)
      requires p in ptr && ptr[p] in ptr && ptr[p] in size && p in size && bp in size && p != bp
      modifies this`ptr, this`size
      ensures ptr == Ptr2(old(ptr), old(size), p, Blk(bp, old(size)[bp]))
      ensures size == Size2(old(ptr), old(size), p, Blk(bp, old(size)[bp]))
    {
      var q := ptr[p];
      if bp + UNIT * size[bp] == q {
        size := size[bp := size[bp] + size[q]];
        ptr := ptr[bp := ptr[q]];
      } else {
        ptr := ptr[bp := q];
      }
      assert size == Size1(old(ptr), old(size), p, Blk(bp, old(size)[bp]));
      if p + UNIT * size[p] == bp {
        size := size[p := size[p] + size[bp]];
        ptr := ptr[p := ptr[bp]];
      } else {
        ptr := ptr[p := bp];
      }
    }

    /** morecore: `grant` is sbrk's answer, -1 or the old break. The new memory is freed into the list. */
    method Morecore(units: nat, grant: int) returns (ok: bool, ghost t: nat, ghost nu: nat)
      requires Valid() && freep != 0 && (grant == -1 || grant >= top) && units >= 1
      modifies this`ptr, this`size, this`freep, this`fl, this`at, this`live, this`top, this`got
      ensures Valid() && freep != 0 && live == old(live)
      ensures ok <==> grant != -1
      ensures !ok ==> fl == old(fl) && at == old(at) && got == old(got) && top == old(top)
      ensures ok ==> nu == Max(CORE, units) && Place(old(fl), t, Blk(grant, nu))
      ensures ok ==> fl == Insert(old(fl), t, Blk(grant, nu))
      ensures ok ==> at == t && got == old(got) + nu && top == grant + UNIT * nu
    {
      hide Sorted, LiveOk, Circular, HeaderAt, Units, Place, Insert, LiveUnits;
      var n := units;
      if n < CORE {
        n := CORE;
      }
      if grant == -1 {
        return false, 0, n;
      }
      GrantIsFresh(ptr, size, fl, live, top, grant, n);
      size := size[grant := n];
      live := live[grant := n];
      top := grant + UNIT * n;
      got := got + n;
      t := Free(grant);
      assert old(live)[grant := n] - {grant} == old(live);
      return true, t, n;
    }

    /** malloc's hit: unlink block k or cut its tail off. */
    method Carve(prevp: int, p: int, n: nat, ghost k: nat) returns (h: int)
      requires Valid() && freep != 0 && 0 < k < |fl| && prevp == fl[k - 1].a && p == fl[k].a && fl[k].n >= n > 0
      modifies this`ptr, this`size, this`freep, this`fl, this`at, this`live
      ensures Valid() && freep == prevp != 0
      ensures h == Taken(old(fl), k, n).a && fl == Take(old(fl), k, n) && at == k - 1
      ensures h > base && h !in old(live) && live == old(live)[h := n]
    {
      hide Sorted, LiveOk, Circular, HeaderAt, Units, LiveUnits, Take;
      GetHeader(ptr, size, fl, k);
      GetHeader(ptr, size, fl, k - 1);
      Wraps(fl, k - 1);
      Ascending(fl, 0, k);
      ghost var size0 := size;
      if size[p] == n {
        TakeAllLinked(ptr, size, fl, k, n);
        ptr := ptr[prevp := ptr[p]];
        h := p;
      } else {
        TakeTailLinked(ptr, size, fl, k, n);
        size := size[p := size[p] - n];
        h := p + UNIT * size[p];
        size := size[h := n];
      }
      TakenList(fl, live, size0, size, top, k, n);
      freep := prevp;
      fl, at, live := Take(fl, k, n), k - 1, live[h := n];
    }

    /** malloc, in a process of sz bytes. The result is the address after the header, or 0. Of the blocks on the list
        it takes the first that is large enough (number k), going round from the roving pointer; it asks sbrk at most
        once, and only when none is. What it has then lies inside the process exactly when sbrk was asked to grow
        (SbrkGrowsIff says for which sizes). */
    method Allocate(nbytes: nat, sz: Uint, room: bool) returns (r: int, newsz: nat, grew: bool, ghost k: nat)
      requires Valid() && nbytes < UINT_LIMIT && top <= sz < PageTable.KERNBASE
      modifies this
      ensures Valid() && freep != 0
      ensures var len := UNIT * Max(CORE, UnitsFor(nbytes));
        var asked := old(freep) != 0 ==> NoneFits(old(fl), UnitsFor(nbytes));
        var refused := if len < 0x8000_0000 then sz + len >= 0x8000_0000 || !room
                       else len < UINT_LIMIT && (sz == 0 || sz + len == UINT_LIMIT);
        && (r == 0 <==> asked && refused) && (grew <==> asked && !refused)
        && newsz == if !grew then sz
                    else if len < 0x8000_0000 then sz + len
                    else if sz + len < UINT_LIMIT || len == UINT_LIMIT then sz
                    else sz + len - UINT_LIMIT
      ensures r == 0 ==> live == old(live) && got == old(got)
      ensures r != 0 ==> r - UNIT !in old(live) && live == old(live)[r - UNIT := UnitsFor(nbytes)]
      ensures r != 0 ==> (UNIT * (UnitsFor(nbytes) - 1) >= nbytes <==> nbytes + UNIT - 1 < UINT_LIMIT)
      ensures old(freep) != 0 && r != 0 && !grew ==>
        && k < |old(fl)| && old(fl)[k].n >= UnitsFor(nbytes) && TooSmall(old(fl), old(at), k, UnitsFor(nbytes))
        && fl == Take(old(fl), k, UnitsFor(nbytes)) && r == Taken(old(fl), k, UnitsFor(nbytes)).a + UNIT && at == k - 1
        && r - UNIT + UNIT * UnitsFor(nbytes) == old(fl)[k].a + UNIT * old(fl)[k].n
      ensures if grew then got > old(got) else got == old(got) && top == old(top)
      ensures grew ==> top == sz + UNIT * Max(CORE, UnitsFor(nbytes))
      ensures top <= newsz <==> !grew || SbrkGrows(nbytes)
    {
      hide Listed, LiveUnits, NoneFits;
      var n := UnitsFor(nbytes);
      RoomIffNoWrap(nbytes);
      if freep == 0 {
        Init();
        BaseNeverFits(fl, n);
      }
      var g := Sbrk(sz, nbytes, room);
      SbrkAnswers(sz, nbytes, room);
      if g.Size? {
        SbrkCovers(sz, nbytes, room);
      }
      r, grew, k := Search(n, if g.Refused? then -1 else sz);
      newsz := if grew then g.sz else sz;
    }

    /** malloc's loop: round the circle from the block after freep. */
    method Search(n: nat, grant: int) returns (r: int, grew: bool, ghost k: nat)
      requires Valid() && freep != 0 && n >= 1 && (grant == -1 || grant >= top)
      modifies this
      ensures Valid() && freep != 0
      ensures r == 0 <==> grant == -1 && NoneFits(old(fl), n)
      ensures r == 0 ==> live == old(live)
      ensures r != 0 ==> r - UNIT !in old(live) && live == old(live)[r - UNIT := n]
      ensures r != 0 && !grew ==>
        && k < |old(fl)| && old(fl)[k].n >= n && TooSmall(old(fl), old(at), k, n)
        && fl == Take(old(fl), k, n) && r == Taken(old(fl), k, n).a + UNIT && at == k - 1
      ensures grew <==> grant != -1 && NoneFits(old(fl), n)
      ensures if grew then got > old(got) else got == old(got) && top == old(top)
      ensures grew ==> top == grant + UNIT * Max(CORE, n)
    {
      hide Sorted, LiveOk, Circular, HeaderAt, Units, LiveUnits, Take, Insert, Place, TooSmall, NoneFits, Dist, Taken;
      grew := false;
      var prevp := freep;
      GetHeader(ptr, size, fl, at);
      var p := ptr[prevp];
      ghost var i: nat := Next(at, |fl|);
      SearchStart(fl, at, n);
      while true
        invariant Valid() && freep != 0 && i < |fl| && p == fl[i].a && live == old(live)
        invariant prevp == fl[Prev(i, |fl|)].a && TooSmall(fl, at, i, n)
        invariant grew ==> grant != -1 && top == grant + UNIT * Max(CORE, n)
        invariant if grew then !NoneFits(fl, n) && NoneFits(old(fl), n) && got > old(got)
                  else fl == old(fl) && at == old(at) && got == old(got) && top == old(top)
        decreases !grew, |fl| - Dist(at, i, |fl|)
      {
        GetHeader(ptr, size, fl, i);
        if size[p] >= n {
          BaseTooSmall(fl, i, n);
          SomeFits(fl, n);
          var h := Carve(prevp, p, n, i);
          return h + UNIT, grew, i;
        }
        SearchStep(fl, at, i, n);
        if p == freep {
          SameBlock(fl, i, at);
          var ok := Refill(n, grant);
          if !ok {
            return 0, false, 0;
          }
          p := freep;
          grew := true;
          i := at;
          GetHeader(ptr, size, fl, i);
          SearchStart(fl, at, n);
        }
        prevp, p := p, ptr[p];
        i := Next(i, |fl|);
      }
    }

    /** After a successful morecore some block is large enough. */
    method Refill(n: nat, grant: int) returns (ok: bool)
      requires Valid() && freep != 0 && (grant == -1 || grant >= top) && n >= 1
      modifies this`ptr, this`size, this`freep, this`fl, this`at, this`live, this`top, this`got
      ensures Valid() && freep != 0 && live == old(live) && (ok <==> grant != -1)
      ensures !ok ==> fl == old(fl) && at == old(at) && got == old(got) && top == old(top)
      ensures ok ==> !NoneFits(fl, n) && got > old(got) && top == grant + UNIT * Max(CORE, n)
    {
      hide Sorted, LiveOk, Circular, HeaderAt, Units, LiveUnits, Insert, Place, NoneFits;
      ghost var t, nu;
      ok, t, nu := Morecore(n, grant);
      if ok {
        Bounds(old(fl), t, Blk(grant, nu));
        InsertFits(old(fl), t, Blk(grant, nu), n);
        SomeFits(fl, n);
      }
    }

    /** The first malloc sets up a list of the empty block alone. */
    method Init()
      requires Valid() && freep == 0
      modifies this`ptr, this`size, this`freep, this`fl, this`at
      ensures Valid() && freep == base && fl == [Blk(base, 0)] && at == 0
    {
      ptr := ptr[base := base];
      freep := base;
      size := size[base := 0];
      fl, at := [Blk(base, 0)], 0;
      assert Units(fl) == 0 by { assert fl[..0] == []; }
      assert HeaderAt(ptr, size, fl, 0);
    }

    /** The last block below bp. */
    ghost function Before(bp: int): (u: nat)
      reads this
      requires Listed() && bp > base
      ensures u < |fl| && fl[u].a < bp && (u + 1 < |fl| ==> bp <= fl[u + 1].a)
    {
      LastBelow(fl, bp, |fl|)
    }
  }

  /** malloc of 2^31 bytes in a small process: sbrk is asked to shrink by so much that the unsigned size wraps, does
      nothing and answers the old break; malloc returns a block that ends far beyond the process. */
  method HugeRequest(room: bool) returns (h: Allocator, r: int, newsz: nat)
    ensures fresh(h) && h.Valid() && r != 0 && newsz == 0x4000 && r - UNIT in h.live
    ensures newsz < h.top && newsz < r - UNIT + UNIT * h.live[r - UNIT]
  {
    h := new Allocator(0x1000, 0x4000);
    var grew;
    ghost var k;
    r, newsz, grew, k := h.Allocate(0x8000_0000, 0x4000, room);
  }

  ghost function LastBelow(fl: seq<Blk>, bp: int, n: nat): (u: nat)
    requires Sorted(fl) && fl[0].a < bp && 1 <= n <= |fl|
    requires n < |fl| ==> bp <= fl[n].a
    ensures u < |fl| && fl[u].a < bp && (u + 1 < |fl| ==> bp <= fl[u + 1].a)
  {
    if fl[n - 1].a < bp then n - 1 else LastBelow(fl, bp, n - 1)
  }

  lemma Ascending(fl: seq<Blk>, i: nat, j: nat)
    requires Sorted(fl) && i < |fl| && j < |fl|
    ensures i < j ==> fl[i].a < fl[j].a
    ensures i == j ==> fl[i].a == fl[j].a
  {
    if i < j {
      assert fl[i].End() < fl[j].a;
    }
  }

  /** Only the last block points to an address that is not above its own. */
  lemma Wraps(fl: seq<Blk>, t: nat)
    requires Sorted(fl) && t < |fl|
    ensures fl[t].a >= fl[Next(t, |fl|)].a <==> t == |fl| - 1
    ensures fl[0].a <= fl[t].a
  {
    assert t + 1 < |fl| ==> fl[t].End() < fl[t + 1].a;
    assert t > 0 ==> fl[0].End() < fl[t].a;
  }

  // ---------------------------------------------------------------- what free does

  /** A live block is clear of the free list. */
  lemma LiveIsClear(fl: seq<Blk>, live: map<int, nat>, size: map<int, nat>, top: int, bp: int)
    requires Sorted(fl) && LiveOk(fl, live, size, top) && bp in live
    ensures live[bp] > 0 && bp > fl[0].a && bp in size && size[bp] == live[bp] && ApartAll(fl, Blk(bp, live[bp]))
    ensures bp + UNIT * live[bp] <= top
    ensures forall i :: 0 <= i < |fl| ==> fl[i].a != bp
  {
    forall i | 0 <= i < |fl|
      ensures fl[i].a != bp
    {
      if i > 0 {
        assert Apart(fl[i], Blk(bp, live[bp]));
      }
    }
  }

  lemma PlaceAny(fl: seq<Blk>, t: nat, bp: int, n: nat)
    requires Place(fl, t, Blk(bp, 0))
    ensures Place(fl, t, Blk(bp, n)) && t < |fl|
  {
  }

  /** The headers after free's two steps. */
  lemma FreedLinks(ptr: map<int, int>, size: map<int, nat>, fl: seq<Blk>, t: nat, b: Blk)
    requires Sorted(fl) && Circular(ptr, size, fl) && Place(fl, t, b) && b.n > 0 && b.a in size && size[b.a] == b.n
    ensures t < |fl| && fl[t].a != b.a && fl[t].a in ptr && ptr[fl[t].a] in ptr && ptr[fl[t].a] in size
    ensures fl[t].a in size
    ensures Circular(Ptr2(ptr, size, fl[t].a, b), Size2(ptr, size, fl[t].a, b), Insert(fl, t, b))
    ensures forall x :: x in size && x != b.a && x != fl[t].a ==>
      x in Size2(ptr, size, fl[t].a, b) && Size2(ptr, size, fl[t].a, b)[x] == size[x]
  {
    hide Sorted, Circular, HeaderAt, Place, Insert, Joined, Rest, Ptr1;
    Bounds(fl, t, b);
    AfterFirst(ptr, size, fl, t, b);
    OtherAddress(fl, t, b, t);
    GetHeader(ptr, size, fl, t);
    OtherHeader(ptr, size, fl[t].a, b, fl[t].a);
    if JoinsPrev(fl, t, b) {
      InsertJoinedLinked(ptr, size, fl, t, b);
    } else {
      InsertApartLinked(ptr, size, fl, t, b);
    }
  }

  lemma InsertEnds(fl: seq<Blk>, t: nat, b: Blk, top: int)
    requires t < |fl| && b.End() <= top && forall i :: 0 <= i < |fl| ==> fl[i].End() <= top
    ensures var fl' := Insert(fl, t, b);
      t < |fl'| && fl'[t].a == fl[t].a && fl'[0].a == fl[0].a && forall i :: 0 <= i < |fl'| ==> fl'[i].End() <= top
  {
    var fl' := Insert(fl, t, b);
    forall i | 0 <= i < |fl'|
      ensures fl'[i].End() <= top
    {
      InsertAt(fl, t, b, i);
    }
  }

  /** The value of the list after free. */
  lemma FreedList(fl: seq<Blk>, live: map<int, nat>, size: map<int, nat>, top: int, t: nat, bp: int)
    requires Sorted(fl) && LiveOk(fl, live, size, top) && bp in live && Place(fl, t, Blk(bp, live[bp]))
    requires forall i :: 0 <= i < |fl| ==> fl[i].End() <= top
    ensures t < |fl|
    ensures var fl' := Insert(fl, t, Blk(bp, live[bp]));
      && Sorted(fl') && t < |fl'| && fl'[t].a == fl[t].a && fl'[0].a == fl[0].a
      && (forall i :: 0 <= i < |fl'| ==> fl'[i].End() <= top)
      && LiveOk(fl', live - {bp}, size, top)
      && Units(fl') + LiveUnits(live - {bp}) == Units(fl) + LiveUnits(live)
  {
    var b := Blk(bp, live[bp]);
    var fl' := Insert(fl, t, b);
    hide Sorted, Units, ApartAll, Insert, Place, LiveUnits;
    Bounds(fl, t, b);
    LiveIsClear(fl, live, size, top, bp);
    InsertSorted(fl, t, b);
    InsertEnds(fl, t, b, top);
    InsertUnits(fl, t, b);
    LiveSplit(live, bp);
    forall a | a in live - {bp}
      ensures ApartAll(fl', Blk(a, live[a]))
    {
      LiveIsClear(fl, live, size, top, a);
      assert Apart(b, Blk(a, live[a]));
      InsertApart(fl, t, b, Blk(a, live[a]));
    }
  }

  /** free writes no live block's size. */
  lemma FreedSizes(fl: seq<Blk>, live: map<int, nat>, size: map<int, nat>, size': map<int, nat>, top: int, bp: int,
                   t: nat)
    requires Sorted(fl) && LiveOk(fl, live, size, top) && bp !in live && t < |fl|
    requires forall x :: x in size && x != bp && x != fl[t].a ==> x in size' && size'[x] == size[x]
    ensures LiveOk(fl, live, size', top)
  {
    forall a | a in live
      ensures a != fl[t].a
    {
      LiveIsClear(fl, live, size, top, a);
    }
  }

  // ---------------------------------------------------------------- what malloc does

  /** Memory above the break is clear of every block, and its header is nobody's. */
  lemma GrantIsFresh(ptr: map<int, int>, size: map<int, nat>, fl: seq<Blk>, live: map<int, nat>, top: int, grant: int,
                     n: nat)
    requires Sorted(fl) && Circular(ptr, size, fl) && LiveOk(fl, live, size, top) && fl[0].a < top <= grant && n > 0
    requires forall i :: 0 <= i < |fl| ==> fl[i].End() <= top
    ensures grant !in live
    ensures Circular(ptr, size[grant := n], fl)
    ensures LiveOk(fl, live[grant := n], size[grant := n], grant + UNIT * n)
    ensures LiveUnits(live[grant := n]) == LiveUnits(live) + n
  {
    hide Circular, LiveUnits;
    GrantLinked(ptr, size, fl, top, grant, n);
    forall a | a in live
      ensures a < grant
    {
      assert live[a] > 0;
    }
    assert ApartAll(fl, Blk(grant, n));
    LiveAdd(live, grant, n);
  }

  lemma GrantLinked(ptr: map<int, int>, size: map<int, nat>, fl: seq<Blk>, top: int, grant: int, n: nat)
    requires Circular(ptr, size, fl) && Sorted(fl) && fl[0].a < top <= grant
    requires forall i :: 0 <= i < |fl| ==> fl[i].End() <= top
    ensures Circular(ptr, size[grant := n], fl)
  {
    hide HeaderAt;
    var size' := size[grant := n];
    forall i: nat | i < |fl|
      ensures HeaderAt(ptr, size', fl, i)
    {
      GetHeader(ptr, size, fl, i);
      LinkIs(ptr, size', fl, i);
    }
  }

  /** The value of the list and of the live blocks after malloc takes n units of block k. */
  lemma TakenList(fl: seq<Blk>, live: map<int, nat>, size: map<int, nat>, size': map<int, nat>, top: int, k: nat,
                  n: nat)
    requires Sorted(fl) && LiveOk(fl, live, size, top) && 0 < k < |fl| && fl[k].n >= n > 0
    requires forall i :: 0 <= i < |fl| ==> fl[i].End() <= top
    requires var h := Taken(fl, k, n).a;
      && h in size' && size'[h] == n
      && forall x :: x in size && x != fl[k].a && x != h ==> x in size' && size'[x] == size[x]
    ensures var fl', h := Take(fl, k, n), Taken(fl, k, n).a;
      && Sorted(fl') && k - 1 < |fl'| && fl'[k - 1].a == fl[k - 1].a && fl'[0].a == fl[0].a
      && (forall i :: 0 <= i < |fl'| ==> fl'[i].End() <= top)
      && h !in live && LiveOk(fl', live[h := n], size', top)
      && Units(fl') + LiveUnits(live[h := n]) == Units(fl) + LiveUnits(live)
  {
    hide Units, LiveUnits, Sorted, ApartAll;
    var fl', b := Take(fl, k, n), Taken(fl, k, n);
    TakeSorted(fl, k, n);
    TakeUnits(fl, k, n);
    Ascending(fl, 0, k);
    forall a | a in live
      ensures a != fl[k].a && a != b.a && ApartAll(fl', Blk(a, live[a])) && Apart(b, Blk(a, live[a]))
    {
      LiveIsClear(fl, live, size, top, a);
      TakeApart(fl, k, n, Blk(a, live[a]));
    }
    LiveAdd(live, b.a, n);
    TakeEnds(fl, k, n, top);
  }

  lemma TakeEnds(fl: seq<Blk>, k: nat, n: nat, top: int)
    requires 0 < k < |fl| && fl[k].n >= n && forall i :: 0 <= i < |fl| ==> fl[i].End() <= top
    ensures var fl' := Take(fl, k, n);
      && k - 1 < |fl'| && fl'[k - 1] == fl[k - 1] && fl'[0] == fl[0]
      && (forall i :: 0 <= i < |fl'| ==> fl'[i].End() <= top)
  {
  }

  /** Morecore's block is in the list, at least as large as it was. */
  lemma InsertFits(fl: seq<Blk>, t: nat, b: Blk, n: nat)
    requires t < |fl| && b.n >= n
    ensures exists j: nat :: j < |Insert(fl, t, b)| && Insert(fl, t, b)[j].n >= n
  {
    var j := if JoinsPrev(fl, t, b) then t else t + 1;
    assert Insert(fl, t, b)[j].n >= n;
  }

  lemma SearchStep(fl: seq<Blk>, at: nat, i: nat, n: nat)
    requires at < |fl| && i < |fl| && TooSmall(fl, at, i, n) && fl[i].n < n
    ensures i == at ==> NoneFits(fl, n)
    ensures i != at ==> TooSmall(fl, at, Next(i, |fl|), n) && Dist(at, Next(i, |fl|), |fl|) == Dist(at, i, |fl|) + 1
  {
  }

  lemma SearchStart(fl: seq<Blk>, at: nat, n: nat)
    requires at < |fl|
    ensures TooSmall(fl, at, Next(at, |fl|), n)
  {
  }

  function Prev(i: nat, n: nat): (j: nat)
    requires i < n
    ensures j < n && Next(j, n) == i
  {
    if i == 0 then n - 1 else i - 1
  }

  lemma BaseTooSmall(fl: seq<Blk>, i: nat, n: nat)
    requires Sorted(fl) && i < |fl| && fl[i].n >= n > 0
    ensures i > 0 && Prev(i, |fl|) == i - 1
  {
  }

  lemma BaseNeverFits(fl: seq<Blk>, n: nat)
    requires |fl| == 1 && fl[0].n == 0 && n > 0
    ensures NoneFits(fl, n)
  {
  }

  lemma SomeFits(fl: seq<Blk>, n: nat)
    requires exists j: nat :: j < |fl| && fl[j].n >= n
    ensures !NoneFits(fl, n)
  {
  }

  lemma SameBlock(fl: seq<Blk>, i: nat, j: nat)
    requires Sorted(fl) && i < |fl| && j < |fl| && fl[i].a == fl[j].a
    ensures i == j
  {
    Ascending(fl, i, j);
    Ascending(fl, j, i);
  }
}
