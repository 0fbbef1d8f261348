/** The slice-backed binary heap of Go's container/heap, which the nonce index and the price list
    both use: a min-heap of `T` values ordered by an integer key. */
module BinaryHeap {

  function Parent(i: nat): (p: nat)
    requires i > 0
    ensures p < i
  {
    (i - 1) / 2
  }

  ghost predicate IsHeap<T>(h: seq<T>, key: T -> int)
  {
    forall j {:trigger Parent(j)} :: 1 <= j < |h| ==> key(h[Parent(j)]) <= key(h[j])
  }

  /** Edges of the first `n` slots whose parent is at least `lo` are ordered, except the edge into
      `child` and the edges out of `parent`. */
  ghost predicate EdgesOk<T>(h: seq<T>, key: T -> int, lo: nat, n: nat, child: int, parent: int)
    requires n <= |h|
  {
    forall j {:trigger Parent(j)} :: 1 <= j < n && lo <= Parent(j) != parent && j != child ==>
      key(h[Parent(j)]) <= key(h[j])
  }

  /** The parent of `i` is no larger than the children of `i`. */
  ghost predicate Bridged<T>(h: seq<T>, key: T -> int, lo: nat, n: nat, i: nat)
    requires n <= |h|
  {
    0 < i < n && lo <= Parent(i) ==>
      forall j {:trigger Parent(j)} :: 1 <= j < n && Parent(j) == i ==> key(h[Parent(i)]) <= key(h[j])
  }

  /** The root of a heap is a least element. */
  lemma {:induction false} RootIsLeast<T>(h: seq<T>, key: T -> int, i: nat)
    requires IsHeap(h, key) && i < |h|
    ensures key(h[0]) <= key(h[i])
    decreases i
  {
    if i > 0 {
      RootIsLeast(h, key, Parent(i));
    }
  }

  /** `r` is `h` with slots `i` and `j` exchanged. */
  ghost predicate Swapped<T>(h: seq<T>, r: seq<T>, i: nat, j: nat)
  {
    i < |h| == |r| && j < |h| && r[i] == h[j] && r[j] == h[i] &&
    forall k :: 0 <= k < |h| && k != i && k != j ==> r[k] == h[k]
  }

  method Swap<T>(h: seq<T>, i: nat, j: nat) returns (r: seq<T>)
    requires i < |h| && j < |h|
    ensures Swapped(h, r, i, j) && multiset(r) == multiset(h)
  {
    r := h[i := h[j]][j := h[i]];
  }

  method Up<T>(h: seq<T>, key: T -> int, j0: nat) returns (r: seq<T>)
    requires j0 < |h|
    requires EdgesOk(h, key, 0, |h|, j0, -1) && Bridged(h, key, 0, |h|, j0)
    ensures IsHeap(r, key) && multiset(r) == multiset(h) && |r| == |h|
  {
    r := h;
    var j: nat := j0;
    while true
      invariant j < |r| == |h|
      invariant EdgesOk(r, key, 0, |r|, j, -1) && Bridged(r, key, 0, |r|, j)
      invariant multiset(r) == multiset(h)
      decreases j
    {
      if j == 0 || key(r[j]) >= key(r[Parent(j)]) {
        return;
      }
      r := Swap(r, Parent(j), j);
      j := Parent(j);
    }
  }

  /** The state of a sink from `i0` that has reached `i`: the only disorder left is below `i`, and
      once `i0` has been refilled it is no smaller than its parent. */
  ghost predicate Sinking<T>(h: seq<T>, key: T -> int, lo: nat, n: nat, i0: nat, i: nat)
  {
    lo <= i0 <= i < n <= |h| &&
    EdgesOk(h, key, lo, n, i0, i) && Bridged(h, key, lo, n, i) &&
    (i != i0 && 0 < i0 && lo <= Parent(i0) ==> key(h[Parent(i0)]) <= key(h[i0]))
  }

  /** Exchanging `i` with its smaller child `j` moves the disorder from `i` to `j`. */
  lemma SinkStep<T>(h: seq<T>, r: seq<T>, key: T -> int, lo: nat, n: nat, i0: nat, i: nat, j: nat)
    requires Sinking(h, key, lo, n, i0, i) && i < j < n && Parent(j) == i
    requires forall k {:trigger Parent(k)} :: 1 <= k < n && Parent(k) == i ==> key(h[j]) <= key(h[k])
    requires key(h[j]) < key(h[i]) && Swapped(h, r, i, j)
    ensures Sinking(r, key, lo, n, i0, j)
  {
  }

  /** A sink that stops where the element is no larger than its children leaves no disorder. */
  lemma SinkDone<T>(h: seq<T>, key: T -> int, lo: nat, n: nat, i0: nat, i: nat)
    requires Sinking(h, key, lo, n, i0, i)
    requires forall k {:trigger Parent(k)} :: 1 <= k < n && Parent(k) == i ==> key(h[i]) <= key(h[k])
    ensures EdgesOk(h, key, lo, n, i0, -1) && Bridged(h, key, lo, n, i0)
  {
  }

  /** The child of `i` with the least key, the right one on a tie; `n` when `i` is a leaf. */
  method SmallerChild<T>(h: seq<T>, key: T -> int, i: nat, n: nat) returns (j: nat)
    requires i < n <= |h|
    ensures i < j <= n
    ensures j < n ==> Parent(j) == i
    ensures forall k {:trigger Parent(k)} :: 1 <= k < n && Parent(k) == i ==> j < n && key(h[j]) <= key(h[k])
  {
    j := 2 * i + 1;
    if j >= n {
      return n;
    }
    if j + 1 < n && key(h[j]) >= key(h[j + 1]) {
      j := j + 1;
    }
  }

  method Down<T>(h: seq<T>, key: T -> int, i0: nat, n: nat, ghost lo: nat) returns (r: seq<T>)
    requires Sinking(h, key, lo, n, i0, i0)
    ensures |r| == |h| && multiset(r) == multiset(h)
    ensures forall k :: n <= k < |h| ==> r[k] == h[k]
    ensures EdgesOk(r, key, lo, n, i0, -1) && Bridged(r, key, lo, n, i0)
    ensures r == h || (0 < i0 && lo <= Parent(i0) ==> key(r[Parent(i0)]) <= key(r[i0]))
  {
    r := h;
    var i: nat := i0;
    var j := SmallerChild(r, key, i, n);
    while j < n && key(r[j]) < key(r[i])
      invariant |r| == |h| && Sinking(r, key, lo, n, i0, i)
      invariant i < j <= n && (j < n ==> Parent(j) == i)
      invariant forall k {:trigger Parent(k)} :: 1 <= k < n && Parent(k) == i ==> j < n && key(r[j]) <= key(r[k])
      invariant i == i0 ==> r == h
      invariant multiset(r) == multiset(h)
      invariant forall k :: n <= k < |h| ==> r[k] == h[k]
      decreases n - i
    {
      var t := Swap(r, i, j);
      SinkStep(r, t, key, lo, n, i0, i, j);
      r, i := t, j;
      j := SmallerChild(r, key, i, n);
    }
    SinkDone(r, key, lo, n, i0, i);
  }

  method Init<T>(h: seq<T>, key: T -> int) returns (r: seq<T>)
    ensures IsHeap(r, key) && multiset(r) == multiset(h) && |r| == |h|
  {
    r := h;
    var i := |h| / 2;
    while i > 0
      invariant 0 <= i <= |h| == |r|
      invariant EdgesOk(r, key, i, |r|, -1, -1)
      invariant multiset(r) == multiset(h)
    {
      i := i - 1;
      r := Down(r, key, i, |r|, i);
    }
  }

  method Push<T>(h: seq<T>, key: T -> int, x: T) returns (r: seq<T>)
    requires IsHeap(h, key)
    ensures IsHeap(r, key) && multiset(r) == multiset(h) + multiset{x}
  {
    r := Up(h + [x], key, |h|);
  }

  /** Pop: the root leaves, the last slot takes its place and sinks. */
  method Pop<T>(h: seq<T>, key: T -> int) returns (x: T, r: seq<T>)
    requires IsHeap(h, key) && h != []
    ensures x == h[0] && forall y :: y in h ==> key(x) <= key(y)
    ensures IsHeap(r, key) && multiset(h) == multiset(r) + multiset{x}
  {
    r := Remaining(h, key, 0);
    x := h[0];
    forall y | y in h ensures key(x) <= key(y) {
      var i :| 0 <= i < |h| && h[i] == y;
      RootIsLeast(h, key, i);
    }
  }

  /** Remove: slot `i` is filled from the last slot, which sinks or rises to its place. */
  method Remaining<T>(h: seq<T>, key: T -> int, i: nat) returns (r: seq<T>)
    requires IsHeap(h, key) && i < |h|
    ensures IsHeap(r, key) && multiset(h) == multiset(r) + multiset{h[i]}
  {
    var n := |h| - 1;
    var t := Swap(h, i, n);
    if i != n {
      forall j | 1 <= j < n && Parent(j) == i && 0 < i ensures key(t[Parent(i)]) <= key(t[j]) {
        assert key(h[Parent(i)]) <= key(h[i]) <= key(h[j]);
      }
      t := Down(t, key, i, n, 0);
    }
    assert t == t[..n] + [h[i]];
    r := t[..n];
    if i != n {
      r := Up(r, key, i);
    }
  }
}
