/** The binary Merkle tree hash of a full chunk and its sequential reference (bmt/bmt_r.go). The base
    hash is any function `H` on byte strings. */
module Bmt {
  import opened Numbers

  type Bytes = seq<bv8>

  /** The root of the perfect tree of height `m` over `d`: sections at the leaves, halves above. */
  ghost function Perfect(H: Bytes -> Bytes, d: Bytes, m: nat): Bytes
    decreases m
  {
    if m == 0 then H(d)
    else H(Perfect(H, d[..|d| / 2], m - 1) + Perfect(H, d[|d| / 2..], m - 1))
  }

  // ---- the reference hasher ----

  /** The span halved until it is below `l`. */
  function Halved(s: nat, l: nat): nat
    requires l > 0
    decreases s
  {
    if s < l then s else Halved(s / 2, l)
  }

  lemma {:induction false} HalvedBounds(s: nat, l: nat)
    requires s > 0 && l >= 2
    ensures 1 <= Halved(s, l) < l
    decreases s
  {
    if s >= l {
      HalvedBounds(s / 2, l);
    }
  }

  /** What RefHasher.hash computes for span `s` and section size `sec`. */
  function RefHashed(H: Bytes -> Bytes, sec: nat, d: Bytes, s: nat): Bytes
    requires s > 0 && sec >= 2
    decreases |d|
  {
    if |d| <= sec then H(d)
    else
      HalvedBounds(s, |d|);
      var h := Halved(s, |d|);
      var left := RefHashed(H, sec, d[..h], h);
      var right := if |d| - h > sec / 2 then RefHashed(H, sec, d[h..], h) else d[h..];
      H(left + right)
  }

  method RefHash(H: Bytes -> Bytes, sec: nat, d: Bytes, span: nat) returns (r: Bytes)
    requires span > 0 && sec >= 2
    ensures r == RefHashed(H, sec, d, span)
    decreases |d|
  {
    var l, s := |d|, span;
    var left, right := d, [];
    if l > sec {
      while s >= l
        invariant s > 0 && Halved(s, l) == Halved(span, l)
      {
        s := s / 2;
      }
      left := RefHash(H, sec, d[..s], s);
      right := d[s..];
      if l - s > sec / 2 {
        right := RefHash(H, sec, right, s);
      }
    } else {
      assert left + right == d;
    }
    r := H(left + right);
  }

  /** The span, in segments, that NewRefHasher picks: half of the least power of two that fits. */
  method RefSpan(count: nat) returns (c: nat)
    ensures c >= 1
    ensures forall k: nat :: k >= 2 && count == Pow2(k) ==> c == Pow2(k - 1)
  {
    c := 2;
    ghost var j := 1;
    while c < count
      invariant j >= 1 && c == Pow2(j) && (count > 2 ==> c < 2 * count) && c >= 2
      invariant forall i: nat :: i < j ==> Pow2(i) < count || i == 0
      decreases count - c
    {
      j := j + 1;
      c := c * 2;
      assert forall i: nat :: i < j - 1 ==> Pow2(i) < count || i == 0;
    }
    forall k: nat | k >= 2 && count == Pow2(k) ensures k == j {
      Pow2Monotone(k, j);
      Pow2Monotone(j, k);
    }
    if c > 2 {
      c := c / 2;
    }
  }

  lemma {:induction false} Pow2Monotone(a: nat, b: nat)
    ensures a < b ==> Pow2(a) < Pow2(b)
    decreases b
  {
    if a < b {
      Pow2Positive(b - 1);
      Pow2Monotone(a, b - 1);
    }
  }

  /** Halving a span of twice the length, or of the length, gives half the length. */
  lemma HalvedOnce(n: nat, s: nat)
    requires n >= 1 && (s == n || s == 2 * n || s == 4 * n)
    ensures Halved(s, 2 * n) == n
  {
    assert Halved(n, 2 * n) == n;
    assert s == 4 * n ==> s / 2 == 2 * n;
    assert (2 * n) / 2 == n;
  }

  /** The length of a full chunk over a tree of height `m`. */
  function Size(sec: nat, m: nat): nat
  {
    if m == 0 then sec else 2 * Size(sec, m - 1)
  }

  lemma SizeAtLeast(sec: nat, m: nat)
    ensures Size(sec, m) >= sec
  {
  }

  lemma {:induction false} SizeIs(sec: nat, m: nat)
    ensures Size(sec, m) == sec * Pow2(m)
  {
    if m > 0 {
      SizeIs(sec, m - 1);
    }
  }

  /** One level of the reference on an even split. */
  lemma RefSplits(H: Bytes -> Bytes, sec: nat, d: Bytes, s: nat, n: nat)
    requires s > 0 && sec >= 2 && |d| == 2 * n && n >= sec && Halved(s, 2 * n) == n
    ensures RefHashed(H, sec, d, s) == H(RefHashed(H, sec, d[..n], n) + RefHashed(H, sec, d[n..], n))
  {
  }

  lemma PerfectSplits(H: Bytes -> Bytes, d: Bytes, m: nat, n: nat)
    requires m > 0 && |d| == 2 * n
    ensures Perfect(H, d, m) == H(Perfect(H, d[..n], m - 1) + Perfect(H, d[n..], m - 1))
  {
    assert |d| / 2 == n;
  }

  /** On a full chunk the reference hash is the root of the perfect tree. */
  lemma {:induction false} RefIsPerfect(H: Bytes -> Bytes, sec: nat, d: Bytes, s: nat, m: nat)
    requires sec >= 2 && |d| == Size(sec, m) && (s == |d| || 2 * s == |d|) && s > 0
    ensures RefHashed(H, sec, d, s) == Perfect(H, d, m)
    decreases m
  {
    if m > 0 {
      var n := Size(sec, m - 1);
      SizeAtLeast(sec, m - 1);
      HalvedOnce(n, s);
      var left, right := d[..n], d[n..];
      RefIsPerfect(H, sec, left, n, m - 1);
      RefIsPerfect(H, sec, right, n, m - 1);
      RefSplits(H, sec, d, s, n);
      PerfectSplits(H, d, m, n);
    }
  }
}
