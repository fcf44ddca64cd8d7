/** The machine's bytes and 32-bit words, shared by every module. */
module Machine {

  const UINT_LIMIT := 0x1_0000_0000

  type Byte = x: int | 0 <= x < 256
  type Uint = x: int | 0 <= x < UINT_LIMIT

  /** The four bytes of a word, least significant first. */
  function Le(w: nat): (b: seq<Byte>)
    ensures |b| == 4
  {
    var x := w / 0x100;
    var y := x / 0x100;
    [w % 0x100, x % 0x100, y % 0x100, y / 0x100 % 0x100]
  }

  /** The word that these bytes are. */
  function FromLe(b0: int, b1: int, b2: int, b3: int): int { b0 + 0x100 * b1 + 0x1_0000 * b2 + 0x100_0000 * b3 }

  lemma LeRoundTrip(w: Uint)
    ensures FromLe(Le(w)[0], Le(w)[1], Le(w)[2], Le(w)[3]) == w
  {
    var x := w / 0x100;
    assert w == 0x100 * x + w % 0x100 && x == 0x100 * (x / 0x100) + x % 0x100;
  }

  /** No element occurs twice. */
  predicate Distinct(l: seq<nat>) { forall i, k :: 0 <= i < k < |l| ==> l[i] != l[k] }

  /** The numbers lo..hi. */
  function Range(lo: nat, hi: nat): (s: set<nat>)
    requires lo <= hi
    ensures |s| == hi - lo && forall i :: i in s <==> lo <= i < hi
    decreases hi
  {
    if lo == hi then {} else Range(lo, hi - 1) + {hi - 1}
  }

  function Max(a: int, b: int): int { if a < b then b else a }
  function Min(a: int, b: int): int { if a < b then a else b }
}
