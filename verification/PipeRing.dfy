/** pipe.c: the ring buffer with its free-running 32-bit counters, and what one pass of pipewrite
    or piperead does between taking the lock and sleeping or returning. */
module PipeRing {
  import opened Machine

  const PIPESIZE := 512

  /** nwrite - nread in unsigned arithmetic. */
  function Used(nread: Uint, nwrite: Uint): (n: nat)
    ensures n < UINT_LIMIT
  {
    (nwrite - nread) % UINT_LIMIT
  }

  /** The full test `nwrite == nread + PIPESIZE`. */
  predicate Full(nread: Uint, nwrite: Uint) { nwrite == (nread + PIPESIZE) % UINT_LIMIT }

  /** While at most PIPESIZE bytes are in the ring, the tests for full and empty are exact, whatever
      wrap-around the counters have been through. */
  lemma TestsAreExact(nread: Uint, nwrite: Uint)
    requires Used(nread, nwrite) <= PIPESIZE
    ensures Full(nread, nwrite) <==> Used(nread, nwrite) == PIPESIZE
    ensures nread == nwrite <==> Used(nread, nwrite) == 0
  {
  }

  /** The buffered bytes, oldest first. */
  function Buffered(data: seq<Byte>, nread: Uint, nwrite: Uint): (s: seq<Byte>)
    requires |data| == PIPESIZE
    ensures |s| == Used(nread, nwrite)
    ensures forall k :: 0 <= k < |s| ==> s[k] == data[(nread + k) % PIPESIZE]
  {
    seq(Used(nread, nwrite), k requires 0 <= k => data[(nread + k) % PIPESIZE])
  }

  /** The write slot is the one after the buffered bytes, also when nwrite has wrapped and nread not. */
  lemma WriteSlot(nread: Uint, nwrite: Uint)
    requires Used(nread, nwrite) <= PIPESIZE
    ensures nwrite % PIPESIZE == (nread + Used(nread, nwrite)) % PIPESIZE
  {
    assert nwrite >= nread ==> Used(nread, nwrite) == nwrite - nread;
    assert nwrite < nread ==> Used(nread, nwrite) == nwrite - nread + UINT_LIMIT;
    assert UINT_LIMIT == PIPESIZE * 0x80_0000;
  }

  lemma PushBuffered(data: seq<Byte>, nread: Uint, nwrite: Uint, b: Byte)
    requires |data| == PIPESIZE && Used(nread, nwrite) < PIPESIZE
    ensures Buffered(data[nwrite % PIPESIZE := b], nread, (nwrite + 1) % UINT_LIMIT)
         == Buffered(data, nread, nwrite) + [b]
  {
    var n := Used(nread, nwrite);
    var data' := data[nwrite % PIPESIZE := b];
    assert Used(nread, (nwrite + 1) % UINT_LIMIT) == n + 1;
    WriteSlot(nread, nwrite);
    var left, right := Buffered(data', nread, (nwrite + 1) % UINT_LIMIT), Buffered(data, nread, nwrite) + [b];
    forall k | 0 <= k < |left|
      ensures left[k] == right[k]
    {
      if k < n {
        OtherSlot(nread, k, n);
      }
    }
  }

  lemma OtherSlot(nread: Uint, k: int, n: int)
    requires 0 <= k < n < PIPESIZE
    ensures (nread + k) % PIPESIZE != (nread + n) % PIPESIZE
  {
  }

  lemma PopBuffered(data: seq<Byte>, nread: Uint, nwrite: Uint)
    requires |data| == PIPESIZE && 0 < Used(nread, nwrite) <= PIPESIZE
    ensures data[nread % PIPESIZE] == Buffered(data, nread, nwrite)[0]
    ensures Buffered(data, (nread + 1) % UINT_LIMIT, nwrite) == Buffered(data, nread, nwrite)[1..]
  {
    var nread' := (nread + 1) % UINT_LIMIT;
    assert Used(nread', nwrite) == Used(nread, nwrite) - 1;
    var left, right := Buffered(data, nread', nwrite), Buffered(data, nread, nwrite)[1..];
    forall k | 0 <= k < |left|
      ensures left[k] == right[k]
    {
      WrapSlot(nread, k);
    }
  }

  lemma WrapSlot(nread: Uint, k: nat)
    ensures ((nread + 1) % UINT_LIMIT + k) % PIPESIZE == (nread + (k + 1)) % PIPESIZE
  {
    if nread + 1 == UINT_LIMIT {
      assert nread + (k + 1) == k + PIPESIZE * 0x80_0000;
    }
  }

  // ---------------------------------------------------------------- one pass

  datatype Outcome = Returned | Error | Asleep

  /** How many of `rest` bytes a write pass can add to `used` buffered ones. */
  function Room(used: nat, rest: nat): nat
    requires used <= PIPESIZE
  {
    Min(rest, PIPESIZE - used)
  }

  function WriteOutcome(used: nat, rest: nat, readopen: bool, killed: bool): Outcome
    requires used <= PIPESIZE
  {
    if rest <= PIPESIZE - used then Returned else if !readopen || killed then Error else Asleep
  }

  function ReadOutcome(used: nat, writeopen: bool, killed: bool): Outcome
  {
    if used == 0 && writeopen then if killed then Error else Asleep else Returned
  }

  class Pipe {
    const data: array<Byte>
    var nread: Uint
    var nwrite: Uint
    var readopen: bool
    var writeopen: bool

    ghost predicate Valid()
      reads this
    {
      data.Length == PIPESIZE && Used(nread, nwrite) <= PIPESIZE
    }

    ghost function Contents(): (s: seq<Byte>)
      reads this, data
      requires data.Length == PIPESIZE
    {
      Buffered(data[..], nread, nwrite)
    }

    /** pipealloc. */
    constructor ()
      ensures Valid() && fresh(data) && Contents() == [] && readopen && writeopen
    {
      data := new Byte[PIPESIZE](_ => 0);
      nread, nwrite, readopen, writeopen := 0, 0, true, true;
    }

    /** pipewrite from byte i on, until it returns or sleeps. */
    method Write(addr: seq<Byte>, i: nat, killed: bool) returns (out: Outcome, done: nat)
      requires Valid() && i <= |addr|
      modifies data, this`nwrite
      ensures Valid()
      ensures done == i + Room(|old(Contents())|, |addr| - i)
      ensures Contents() == old(Contents()) + addr[i..done]
      ensures out == WriteOutcome(|old(Contents())|, |addr| - i, readopen, killed)
      ensures out.Returned? <==> |old(Contents())| + |addr[i..]| <= PIPESIZE
      ensures out.Error? <==> |old(Contents())| + |addr[i..]| > PIPESIZE && (!readopen || killed)
      ensures out.Asleep? <==> |old(Contents())| + |addr[i..]| > PIPESIZE && readopen && !killed
      ensures if out.Returned? then done == |addr| else |Contents()| == PIPESIZE
    {
      done := i;
      while done < |addr|
        invariant i <= done <= |addr| && Valid()
        invariant Contents() == old(Contents()) + addr[i..done]
      {
        TestsAreExact(nread, nwrite);
        if nwrite == (nread + PIPESIZE) % UINT_LIMIT {
          if !readopen || killed {
            return Error, done;
          }
          return Asleep, done;
        }
        PushBuffered(data[..], nread, nwrite, addr[done]);
        ghost var was := data[..];
        data[nwrite % PIPESIZE] := addr[done];
        assert data[..] == was[nwrite % PIPESIZE := addr[done]];
        nwrite := (nwrite + 1) % UINT_LIMIT;
        assert addr[i..done + 1] == addr[i..done] + [addr[done]];
        done := done + 1;
      }
      return Returned, done;
    }

    /** piperead of up to n bytes, until it returns or sleeps. */
    method Read(n: nat, killed: bool) returns (out: Outcome, bytes: seq<Byte>)
      requires Valid()
      modifies this`nread
      ensures Valid()
      ensures out == ReadOutcome(|old(Contents())|, writeopen, killed)
      ensures bytes == if out.Returned? then old(Contents())[..Min(n, |old(Contents())|)] else []
      ensures old(Contents()) == bytes + Contents()
      ensures out.Returned? <==> old(Contents()) != [] || !writeopen
      ensures out.Error? <==> old(Contents()) == [] && writeopen && killed
      ensures out.Asleep? <==> old(Contents()) == [] && writeopen && !killed
      ensures |bytes| <= n && (out.Returned? ==> |bytes| == n || Contents() == [])
    {
      TestsAreExact(nread, nwrite);
      bytes := [];
      if nread == nwrite && writeopen {
        return if killed then Error else Asleep, [];
      }
      while |bytes| < n
        invariant Valid() && |bytes| <= n && |bytes| <= |old(Contents())|
        invariant bytes == old(Contents())[..|bytes|] && Contents() == old(Contents())[|bytes|..]
      {
        TestsAreExact(nread, nwrite);
        if nread == nwrite {
          break;
        }
        PopBuffered(data[..], nread, nwrite);
        bytes := bytes + [data[nread % PIPESIZE]];
        nread := (nread + 1) % UINT_LIMIT;
      }
      return Returned, bytes;
    }
  }
}
