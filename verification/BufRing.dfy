/** The doubly linked ring of bio.c: `next` and `prev` link the list head and all buffers in
    most-recently-released order. Buffers are 0..n-1 and the head is n. */
module BufRing {
  import opened Machine

  function Succ(i: nat, n: nat): nat { if i + 1 == n then 0 else i + 1 }

  /** Element i of the ring and its successor point to each other. */
  ghost predicate LinkAt(next: seq<nat>, prev: seq<nat>, ring: seq<nat>, i: nat)
    requires i < |ring|
  {
    var a, b := ring[i], ring[Succ(i, |ring|)];
    a < |next| && b < |prev| && next[a] == b && prev[b] == a
  }

  ghost predicate Linked(next: seq<nat>, prev: seq<nat>, ring: seq<nat>)
  {
    && |next| == |prev|
    && (forall i: nat :: i < |ring| ==> LinkAt(next, prev, ring, i))
  }

  /** The ring without its element k. */
  function Without(ring: seq<nat>, k: nat): (r: seq<nat>)
    requires k < |ring|
  {
    ring[..k] + ring[k + 1..]
  }

  /** b put right after the head. */
  function InFront(ring: seq<nat>, b: nat): (r: seq<nat>)
    requires |ring| >= 1
  {
    [ring[0], b] + ring[1..]
  }

  function Unlink(next: seq<nat>, prev: seq<nat>, b: nat): (r: (seq<nat>, seq<nat>))
    requires b < |next| == |prev| && next[b] < |prev| && prev[b] < |next|
  {
    (next[prev[b] := next[b]], prev[next[b] := prev[b]])
  }

  function Relink(next: seq<nat>, prev: seq<nat>, head: nat, b: nat): (r: (seq<nat>, seq<nat>))
    requires head < |next| == |prev| && b < |next| && next[head] < |prev|
  {
    (next[b := next[head]][head := b], prev[b := head][next[head] := b])
  }

  lemma GetLink(next: seq<nat>, prev: seq<nat>, ring: seq<nat>, i: nat)
    requires Linked(next, prev, ring) && i < |ring|
    ensures ring[i] < |next| && ring[Succ(i, |ring|)] < |prev|
    ensures next[ring[i]] == ring[Succ(i, |ring|)] && prev[ring[Succ(i, |ring|)]] == ring[i]
  {
    assert LinkAt(next, prev, ring, i);
  }

  /** Unlinking element k > 0 leaves the ring without it. */
  lemma UnlinkLinked(next: seq<nat>, prev: seq<nat>, ring: seq<nat>, k: nat)
    requires Linked(next, prev, ring) && Distinct(ring) && 0 < k < |ring|
    ensures ring[k] < |next| && next[ring[k]] < |prev| && prev[ring[k]] < |next|
    ensures var r := Unlink(next, prev, ring[k]); Linked(r.0, r.1, Without(ring, k))
  {
    hide LinkAt, Distinct;
    GetLink(next, prev, ring, k);
    GetLink(next, prev, ring, k - 1);
    var r := Unlink(next, prev, ring[k]);
    var ring' := Without(ring, k);
    forall i: nat | i < |ring'|
      ensures LinkAt(r.0, r.1, ring', i)
    {
      UnlinkLinkAt(next, prev, ring, k, i);
    }
  }

  lemma MakeLink(next: seq<nat>, prev: seq<nat>, ring: seq<nat>, i: nat)
    requires i < |ring| && ring[i] < |next| && ring[Succ(i, |ring|)] < |prev|
    requires next[ring[i]] == ring[Succ(i, |ring|)] && prev[ring[Succ(i, |ring|)]] == ring[i]
    ensures LinkAt(next, prev, ring, i)
  {
  }

  lemma UnlinkLinkAt(next: seq<nat>, prev: seq<nat>, ring: seq<nat>, k: nat, i: nat)
    requires Linked(next, prev, ring) && Distinct(ring) && 0 < k < |ring| && i < |ring| - 1
    requires ring[k] < |next| && next[ring[k]] < |prev| && prev[ring[k]] < |next|
    ensures var r := Unlink(next, prev, ring[k]); LinkAt(r.0, r.1, Without(ring, k), i)
  {
    hide LinkAt, Linked;
    assert |next| == |prev| by { SameSize(next, prev, ring); }
    GetLink(next, prev, ring, k);
    GetLink(next, prev, ring, k - 1);
    var r := Unlink(next, prev, ring[k]);
    var ring' := Without(ring, k);
    var j := if i < k then i else i + 1;
    assert ring'[i] == ring[j];
    GetLink(next, prev, ring, j);
    if j != k - 1 {
      assert ring'[Succ(i, |ring'|)] == ring[Succ(j, |ring|)];
      assert ring[j] != ring[k - 1] && ring[Succ(j, |ring|)] != ring[Succ(k, |ring|)];
    } else {
      assert ring'[Succ(i, |ring'|)] == ring[Succ(k, |ring|)];
    }
    MakeLink(r.0, r.1, ring', i);
  }

  lemma SameSize(next: seq<nat>, prev: seq<nat>, ring: seq<nat>)
    requires Linked(next, prev, ring)
    ensures |next| == |prev|
  {
  }

  /** Linking b in after the head. */
  lemma RelinkLinked(next: seq<nat>, prev: seq<nat>, ring: seq<nat>, b: nat)
    requires Linked(next, prev, ring) && Distinct(ring) && |ring| >= 1 && b < |next| && b !in ring
    ensures ring[0] < |next| && next[ring[0]] < |prev|
    ensures var r := Relink(next, prev, ring[0], b); Linked(r.0, r.1, InFront(ring, b)) && Distinct(InFront(ring, b))
  {
    hide LinkAt;
    GetLink(next, prev, ring, 0);
    var r := Relink(next, prev, ring[0], b);
    var ring' := InFront(ring, b);
    forall i: nat | i < |ring'|
      ensures LinkAt(r.0, r.1, ring', i)
    {
      RelinkLinkAt(next, prev, ring, b, i);
    }
  }

  lemma RelinkLinkAt(next: seq<nat>, prev: seq<nat>, ring: seq<nat>, b: nat, i: nat)
    requires Linked(next, prev, ring) && Distinct(ring) && |ring| >= 1 && b < |next| && b !in ring && i <= |ring|
    requires ring[0] < |next| && next[ring[0]] < |prev|
    ensures var r := Relink(next, prev, ring[0], b); LinkAt(r.0, r.1, InFront(ring, b), i)
  {
    hide LinkAt, Linked;
    SameSize(next, prev, ring);
    GetLink(next, prev, ring, 0);
    var r := Relink(next, prev, ring[0], b);
    var ring' := InFront(ring, b);
    if i >= 2 {
      var j := i - 1;
      GetLink(next, prev, ring, j);
      assert ring'[i] == ring[j] && ring'[Succ(i, |ring'|)] == ring[Succ(j, |ring|)];
      assert ring[j] != ring[0] && ring[j] != b && ring[Succ(j, |ring|)] != b;
      if Succ(j, |ring|) != Succ(0, |ring|) {
        assert ring[Succ(j, |ring|)] != ring[Succ(0, |ring|)];
      }
    }
    MakeLink(r.0, r.1, ring', i);
  }
}
