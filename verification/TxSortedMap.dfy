/** The nonce-sorted map of core/tx_list.go: an item map, a binary heap of its nonces and a lazily
    built sorted view, all updated in place. Every method is proved against the plain nonce map. */
module SortedMaps {
  import opened Transactions
  import opened NonceMaps
  import BinaryHeap
  import Sorting

  /** `h` is a min-heap that holds each nonce of `ks` exactly once. */
  ghost predicate Indexes(h: seq<nat>, ks: set<nat>)
  {
    BinaryHeap.IsHeap(h, Itself) && multiset(h) == multiset(Nonces(ks))
  }

  /** The root of the index is the least nonce. */
  lemma RootIsMin(h: seq<nat>, ks: set<nat>)
    requires Indexes(h, ks)
    ensures h == [] <==> ks == {}
    ensures h != [] ==> IsMin(ks, h[0])
  {
    assert |h| == |multiset(h)| == |multiset(Nonces(ks))| == |Nonces(ks)|;
    if h != [] {
      assert h[0] in multiset(h);
      NoncesMember(ks, h[0]);
      forall k | k in ks ensures h[0] <= k {
        NoncesMember(ks, k);
        assert k in multiset(h);
        var i :| 0 <= i < |h| && h[i] == k;
        BinaryHeap.RootIsLeast(h, Itself, i);
      }
    }
  }

  method PushNonce(h: seq<nat>, n: nat, ghost ks: set<nat>) returns (r: seq<nat>)
    requires Indexes(h, ks) && n !in ks
    ensures Indexes(r, ks + {n})
  {
    r := BinaryHeap.Push(h, Itself, n);
    NoncesRemove(ks + {n}, n);
    assert ks + {n} - {n} == ks;
  }

  method PopNonce(h: seq<nat>, ghost ks: set<nat>) returns (n: nat, r: seq<nat>)
    requires Indexes(h, ks) && h != []
    ensures n == h[0] && IsMin(ks, n) && Indexes(r, ks - {n})
  {
    RootIsMin(h, ks);
    n, r := BinaryHeap.Pop(h, Itself);
    NoncesRemove(ks, n);
    Cancel(multiset(r), multiset(Nonces(ks - {n})), multiset{n});
  }

  method RemoveNonce(h: seq<nat>, i: nat, ghost ks: set<nat>) returns (r: seq<nat>)
    requires Indexes(h, ks) && i < |h|
    ensures Indexes(r, ks - {h[i]})
  {
    r := BinaryHeap.Remaining(h, Itself, i);
    assert h[i] in multiset(h);
    NoncesMember(ks, h[i]);
    NoncesRemove(ks, h[i]);
    Cancel(multiset(r), multiset(Nonces(ks - {h[i]})), multiset{h[i]});
  }

  method Find(h: seq<nat>, n: nat) returns (i: nat)
    requires n in h
    ensures i < |h| && h[i] == n
  {
    i := 0;
    while h[i] != n
      invariant i < |h| && n in h[i..]
      decreases |h| - i
    {
      assert h[i..] == [h[i]] + h[i + 1..];
      i := i + 1;
    }
  }

  lemma Cancel<T>(a: multiset<T>, b: multiset<T>, c: multiset<T>)
    requires a + c == b + c
    ensures a == b
  {
    assert a == a + c - c && b == b + c - c;
  }

  /** Builds the index of a set of nonces. */
  method IndexOf(ks: set<nat>) returns (r: seq<nat>)
    ensures Indexes(r, ks)
  {
    var rest, nonces := ks, [];
    while rest != {}
      invariant rest <= ks && multiset(nonces) == multiset(Nonces(ks - rest))
    {
      NonEmpty(rest);
      var n :| n in rest;
      NoncesRemove(ks - (rest - {n}), n);
      assert ks - (rest - {n}) - {n} == ks - rest;
      rest, nonces := rest - {n}, nonces + [n];
    }
    assert ks - rest == ks;
    r := BinaryHeap.Init(nonces, Itself);
  }

  /** The heap holds each nonce exactly once and a built view is the sorted contents. */
  ghost predicate WellFormed(items: NonceMap, index: seq<nat>, cache: Option<seq<Tx>>)
  {
    Keyed(items) && Indexes(index, items.Keys) && (cache.Some? ==> cache.value == Flat(items))
  }

  /** Pops the least nonce off the index and out of the map. */
  method PopMin(items: NonceMap, index: seq<nat>) returns (tx: Tx, items': NonceMap, index': seq<nat>)
    requires Keyed(items) && Indexes(index, items.Keys) && index != []
    ensures tx.nonce == index[0] && IsMin(items.Keys, tx.nonce) && tx == items[tx.nonce]
    ensures items' == items - {tx.nonce} 
    ensures Keyed(items') && Indexes(index', items'.Keys)
    ensures Flat(items) == [tx] + Flat(items')
  {
    var nonce, rest := PopNonce(index, items.Keys);
    FlatHead(items, nonce);
    assert (items - {nonce}).Keys == items.Keys - {nonce};
    return items[nonce], items - {nonce}, rest;
  }

  /** Pops every nonce below the threshold. */
  method PopBelow(items: NonceMap, index: seq<nat>, threshold: nat)
    returns (m: NonceMap, h: seq<nat>, removed: seq<Tx>)
    requires Keyed(items) && Indexes(index, items.Keys)
    ensures Keyed(m) && Indexes(h, m.Keys) && m == NotBelow(items, threshold)
    ensures removed == Flat(Below(items, threshold)) && removed + Flat(m) == Flat(items)
  {
    m, h, removed := items, index, [];
    while h != [] && h[0] < threshold
      invariant Keyed(m) && Indexes(h, m.Keys)
      invariant NotBelow(m, threshold) == NotBelow(items, threshold)
      invariant removed + Flat(m) == Flat(items)
      decreases m.Keys
    {
      ghost var at := m;
      var tx;
      tx, m, h := PopMin(m, h);
      Associative(removed, [tx], Flat(m));
      BelowLess(at, threshold, tx.nonce);
      removed := removed + [tx];
    }
    RootIsMin(h, m.Keys);
    AllNotBelow(m, threshold);
    FlatSplit(items, threshold);
    SamePrefix(removed, Flat(Below(items, threshold)), Flat(m));
  }

  /** Pops the consecutive run that starts at the least nonce. */
  method PopRun(items: NonceMap, index: seq<nat>) returns (m: NonceMap, h: seq<nat>, ready: seq<Tx>)
    requires Keyed(items) && Indexes(index, items.Keys) && items != map[]
    ensures var run := Below(items, RunEnd(items, Min(items.Keys)));
            ready == Flat(run) && m == items - run.Keys
    ensures Keyed(m) && Indexes(h, m.Keys)
  {
    RootIsMin(index, items.Keys);
    ghost var next;
    m, h, ready, next := PopWhileNext(items, index);
    RunDone(items, m, index[0], next, ready);
  }

  /** Pops while the least nonce is the one after the last popped. */
  method PopWhileNext(items: NonceMap, index: seq<nat>)
    returns (m: NonceMap, h: seq<nat>, ready: seq<Tx>, ghost end: nat)
    requires Keyed(items) && Indexes(index, items.Keys) && items != map[]
    ensures Keyed(m) && Indexes(h, m.Keys) && index != [] && index[0] <= end && end !in m && m == NotBelow(items, end)
    ensures ready + Flat(m) == Flat(items) && forall n :: index[0] <= n < end ==> n in items
  {
    RootIsMin(index, items.Keys);
    m, h, ready := items, index, [];
    var next := h[0];
    AllNotBelow(items, next);
    while h != [] && h[0] == next
      invariant Popping(items, m, h, ready, index[0], next)
      decreases m.Keys
    {
      m, h, ready := PopNext(items, m, h, ready, index[0], next);
      next := next + 1;
    }
    RootIsMin(h, m.Keys);
    end := next;
  }

  /** The nonces from `first` up to `next` have been popped in order, the others are left. */
  ghost predicate Popping(items: NonceMap, m: NonceMap, h: seq<nat>, ready: seq<Tx>, first: nat, next: nat)
  {
    Keyed(m) && Indexes(h, m.Keys) && first <= next && m == NotBelow(items, next) && ready + Flat(m) == Flat(items) &&
    forall n :: first <= n < next ==> n in items
  }

  method PopNext(ghost items: NonceMap, m: NonceMap, h: seq<nat>, ready: seq<Tx>, ghost first: nat, ghost next: nat)
    returns (m2: NonceMap, h2: seq<nat>, ready2: seq<Tx>)
    requires Popping(items, m, h, ready, first, next) && h != [] && h[0] == next
    ensures Popping(items, m2, h2, ready2, first, next + 1) && m2.Keys < m.Keys
  {
    var tx;
    RootIsMin(h, m.Keys);
    tx, m2, h2 := PopMin(m, h);
    Associative(ready, [tx], Flat(m2));
    NotBelowNext(items, next);
    ready2 := ready + [tx];
  }

  /** What was popped is the run, what is left is the rest. */
  lemma RunDone(items: NonceMap, m: NonceMap, first: nat, next: nat, ready: seq<Tx>)
    requires IsMin(items.Keys, first) && first <= next && m == NotBelow(items, next) && next !in m
    requires ready + Flat(m) == Flat(items) && forall n :: first <= n < next ==> n in items
    ensures var run := Below(items, RunEnd(items, Min(items.Keys))); ready == Flat(run) && m == items - run.Keys
  {
    MinIs(items.Keys, first);
    RunEndIs(items, first, next);
    FlatSplit(items, next);
    SamePrefix(ready, Flat(Below(items, next)), Flat(m));
    Complement(items, next);
  }

  /** Drops from the end of the sorted nonces until `threshold` are left. */
  method DropFromEnd(items: NonceMap, sorted: seq<nat>, threshold: nat) returns (m: NonceMap, drops: seq<Tx>)
    requires Keyed(items) && sorted == Nonces(items.Keys) && |items| >= threshold
    ensures Keyed(m) && threshold <= |sorted| && sorted[..threshold] == Nonces(m.Keys)
    ensures m == Lowest(items, threshold) && drops == Highest(items, threshold)
  {
    Sizes(items);
    ghost var low, high := Lowest(items, threshold), Highest(items, threshold);
    ghost var stage :=
      (m: NonceMap, size: nat, drops: seq<Tx>) => Dropping(m, sorted, size, threshold, drops, low, high);
    assert sorted[..|items|] == sorted && [] + high == high;
    m, drops := DropWhileMore(items, sorted, threshold, low, high, stage);
    assert drops + [] == drops;
  }

  /** `stage` tells where dropping can stand. */
  ghost predicate Stages(sorted: seq<nat>, threshold: nat, low: NonceMap, high: seq<Tx>,
                         stage: (NonceMap, nat, seq<Tx>) -> bool)
  {
    forall m, size, drops {:trigger Dropping(m, sorted, size, threshold, drops, low, high)} ::
      stage(m, size, drops) <==> Dropping(m, sorted, size, threshold, drops, low, high)
  }

  method DropWhileMore(items: NonceMap, sorted: seq<nat>, threshold: nat, ghost low: NonceMap, ghost high: seq<Tx>,
                       ghost stage: (NonceMap, nat, seq<Tx>) -> bool)
    returns (m: NonceMap, drops: seq<Tx>)
    requires Stages(sorted, threshold, low, high, stage) && stage(items, |items|, []) && |items| >= threshold
    ensures stage(m, threshold, drops)
  {
    m, drops := items, [];
    var size: nat := |m|;
    while size > threshold
      invariant size >= threshold && stage(m, size, drops)
    {
      m, drops := DropNext(m, sorted, size, threshold, drops, low, high, stage);
      size := size - 1;
    }
  }

  method DropNext(m: NonceMap, sorted: seq<nat>, size: nat, threshold: nat, drops: seq<Tx>, ghost low: NonceMap,
                  ghost high: seq<Tx>, ghost stage: (NonceMap, nat, seq<Tx>) -> bool)
    returns (m2: NonceMap, drops2: seq<Tx>)
    requires Stages(sorted, threshold, low, high, stage) && stage(m, size, drops) && size > threshold
    ensures stage(m2, size - 1, drops2)
  {
    assert Dropping(m, sorted, size, threshold, drops, low, high);
    DropOne(m, sorted, size, threshold, drops, low, high);
    var nonce := sorted[size - 1];
    m2, drops2 := m - {nonce}, drops + [m[nonce]];
    assert Dropping(m2, sorted, size - 1, threshold, drops2, low, high);
  }

  /** The nonces below `size` are those of `m`; what is to stay and to go is what it was at the start. */
  ghost predicate Dropping(m: NonceMap, sorted: seq<nat>, size: nat, threshold: nat, drops: seq<Tx>, low: NonceMap,
                           high: seq<Tx>)
  {
    threshold <= size == |m| <= |sorted| && sorted[..size] == Nonces(m.Keys) && Keyed(m) &&
    Lowest(m, threshold) == low && drops + Highest(m, threshold) == high
  }

  lemma DropOne(m: NonceMap, sorted: seq<nat>, size: nat, threshold: nat, drops: seq<Tx>, low: NonceMap, high: seq<Tx>)
    requires Dropping(m, sorted, size, threshold, drops, low, high) && size > threshold
    ensures sorted[size - 1] in m
    ensures Dropping(m - {sorted[size - 1]}, sorted, size - 1, threshold, drops + [m[sorted[size - 1]]], low, high)
  {
    CapStep(m, threshold);
    TakeLess(sorted, size);
    var nonce := sorted[size - 1];
    Associative(drops, [m[nonce]], Highest(m - {nonce}, threshold));
  }

  method PopAbove(items: NonceMap, index: seq<nat>, threshold: nat)
    returns (m: NonceMap, h: seq<nat>, drops: seq<Tx>)
    requires Keyed(items) && Indexes(index, items.Keys) && |items| > threshold
    ensures Keyed(m) && Indexes(h, m.Keys) && m == Lowest(items, threshold)
    ensures drops == Highest(items, threshold)
    ensures |drops| <= |Flat(items)| && Flat(m) == Flat(items)[..|Flat(items)| - |drops|]
  {
    var sorted := Sorting.Sort(index, Itself);
    SortedIsNonces(sorted, items.Keys);
    m, drops := DropFromEnd(items, sorted, threshold);
    h := BinaryHeap.Init(sorted[..threshold], Itself);
    FlatLowest(items, threshold);
  }

  method PutOne(items: NonceMap, index: seq<nat>, cache: Option<seq<Tx>>, tx: Tx)
    returns (m: NonceMap, h: seq<nat>, c: Option<seq<Tx>>)
    requires WellFormed(items, index, cache)
    ensures WellFormed(m, h, c) && m == items[tx.nonce := tx]
  {
    h := index;
    if tx.nonce !in items {
      h := PushNonce(h, tx.nonce, items.Keys);
    }
    m, c := items[tx.nonce := tx], None;
    assert m.Keys == items.Keys + {tx.nonce};
    assert tx.nonce in items ==> m.Keys == items.Keys;
  }

  method ForwardAll(items: NonceMap, index: seq<nat>, cache: Option<seq<Tx>>, threshold: nat)
    returns (m: NonceMap, h: seq<nat>, c: Option<seq<Tx>>, removed: seq<Tx>)
    requires WellFormed(items, index, cache)
    ensures WellFormed(m, h, c) && m == NotBelow(items, threshold)
    ensures removed == Flat(Below(items, threshold))
  {
    m, h, removed := PopBelow(items, index, threshold);
    c := cache;
    DropFront(removed, Flat(m));
    if c.Some? {
      c := Some(c.value[|removed|..]);
    }
  }

  method FilterAll(items: NonceMap, index: seq<nat>, cache: Option<seq<Tx>>, drop: Tx -> bool)
    returns (m: NonceMap, h: seq<nat>, c: Option<seq<Tx>>, removed: seq<Tx>)
    requires WellFormed(items, index, cache)
    ensures WellFormed(m, h, c) && m == Without(items, drop)
    ensures multiset(removed) == multiset(Flat(items - m.Keys))
  {
    h, c := index, cache;
    m, removed := Partition(items, drop);
    if removed != [] {
      h := IndexOf(m.Keys);
      c := None;
    } else {
      NoneGone(items, m);
    }
  }

  method CapAll(items: NonceMap, index: seq<nat>, cache: Option<seq<Tx>>, threshold: nat)
    returns (m: NonceMap, h: seq<nat>, c: Option<seq<Tx>>, drops: seq<Tx>)
    requires WellFormed(items, index, cache)
    ensures WellFormed(m, h, c) && m == Lowest(items, threshold)
    ensures drops == Highest(items, threshold) && DropsRest(items, m, drops)
  {
    LowestAndHighest(items, threshold);
    m, h, c, drops := items, index, cache, [];
    if |items| <= threshold {
      return;
    }
    m, h, drops := PopAbove(items, index, threshold);
    if c.Some? {
      c := Some(c.value[..|c.value| - |drops|]);
    }
  }

  method RemoveOne(items: NonceMap, index: seq<nat>, cache: Option<seq<Tx>>, nonce: nat)
    returns (m: NonceMap, h: seq<nat>, c: Option<seq<Tx>>, ok: bool)
    requires WellFormed(items, index, cache)
    ensures WellFormed(m, h, c) && ok == (nonce in items) && m == items - {nonce}
  {
    m, h, c := items, index, cache;
    if nonce !in items {
      return m, h, c, false;
    }
    NoncesMember(items.Keys, nonce);
    assert nonce in multiset(index);
    var i := Find(index, nonce);
    h := RemoveNonce(index, i, items.Keys);
    assert (items - {nonce}).Keys == items.Keys - {nonce};
    return items - {nonce}, h, None, true;
  }

  method ReadyAll(items: NonceMap, index: seq<nat>, cache: Option<seq<Tx>>, start: nat)
    returns (m: NonceMap, h: seq<nat>, c: Option<seq<Tx>>, ready: seq<Tx>)
    requires WellFormed(items, index, cache)
    ensures WellFormed(m, h, c) && m == items - ReadyRun(items, start).Keys
    ensures ready == Flat(ReadyRun(items, start))
  {
    RootIsMin(index, items.Keys);
    if index == [] || index[0] > start {
      return items, index, cache, [];
    }
    m, h, ready := PopRun(items, index);
    c := None;
  }

  class TxSortedMap {
    var items: NonceMap
    var index: seq<nat>
    var cache: Option<seq<Tx>>

    ghost predicate Valid()
      reads this
    {
      WellFormed(items, index, cache)
    }

    constructor ()
      ensures Valid() && items == map[]
    {
      items, index, cache := map[], [], None;
    }

    method Get(nonce: nat) returns (r: Option<Tx>)
      ensures r == if nonce in items then Some(items[nonce]) else None
    {
      r := if nonce in items then Some(items[nonce]) else None;
    }

    method Put(tx: Tx)
      requires Valid()
      modifies this
      ensures Valid() && items == old(items)[tx.nonce := tx]
    {
      items, index, cache := PutOne(items, index, cache, tx);
    }

    method Forward(threshold: nat) returns (removed: seq<Tx>)
      requires Valid()
      modifies this
      ensures Valid() && items == NotBelow(old(items), threshold)
      ensures removed == Flat(Below(old(items), threshold))
    {
      items, index, cache, removed := ForwardAll(items, index, cache, threshold);
    }

    /** Takes out the transactions that `drop` selects; `removed` is in no particular order. */
    method Filter(drop: Tx -> bool) returns (removed: seq<Tx>)
      requires Valid()
      modifies this
      ensures Valid() && items == Without(old(items), drop)
      ensures multiset(removed) == multiset(Flat(old(items) - items.Keys))
    {
      items, index, cache, removed := FilterAll(items, index, cache, drop);
    }

    /** Keeps the `threshold` lowest nonces; the drops come out highest first. */
    method Cap(threshold: nat) returns (drops: seq<Tx>)
      requires Valid()
      modifies this
      ensures Valid() && items == Lowest(old(items), threshold)
      ensures drops == Highest(old(items), threshold) && DropsRest(old(items), items, drops)
    {
      items, index, cache, drops := CapAll(items, index, cache, threshold);
    }

    method Remove(nonce: nat) returns (ok: bool)
      requires Valid()
      modifies this
      ensures Valid() && ok == (nonce in old(items)) && items == old(items) - {nonce}
    {
      items, index, cache, ok := RemoveOne(items, index, cache, nonce);
    }

    /** Takes out the maximal consecutive run from the least nonce, if that is at most `start`. */
    method Ready(start: nat) returns (ready: seq<Tx>)
      requires Valid()
      modifies this
      ensures ready == Flat(ReadyRun(old(items), start))
      ensures Valid() && items == old(items) - ReadyRun(old(items), start).Keys
    {
      items, index, cache, ready := ReadyAll(items, index, cache, start);
    }

    /** The sorted contents, built at most once between changes. */
    method Flatten() returns (txs: seq<Tx>)
      requires Valid()
      modifies this`cache
      ensures Valid() && txs == Flat(items)
    {
      var m, c := items, cache;
      if c == None {
        var view := Listed(m);
        view := Sorting.Sort(view, NonceOf);
        SortedIsFlat(view, m);
        c := Some(view);
      }
      cache := c;
      txs := c.value;
    }
  }

  lemma SamePrefix<T>(a: seq<T>, b: seq<T>, c: seq<T>)
    requires a + c == b + c
    ensures a == b
  {
    assert a == (a + c)[..|a|] && b == (b + c)[..|b|];
  }

  /** The transactions of a map, in no particular order. */
  method Listed(m: NonceMap) returns (view: seq<Tx>)
    ensures multiset(view) == multiset(Flat(m))
  {
    view := [];
    var rest := m.Keys;
    while rest != {}
      invariant rest <= m.Keys && multiset(view) == multiset(Flat(m - rest))
    {
      NonEmpty(rest);
      var n :| n in rest;
      MoveOne(m, rest, n);
      rest, view := rest - {n}, view + [m[n]];
    }
    assert m - rest == m;
  }

  lemma MoveOne(m: NonceMap, rest: set<nat>, n: nat)
    requires n in m && n in rest
    ensures multiset(Flat(m - (rest - {n}))) == multiset(Flat(m - rest)) + multiset{m[n]}
  {
    FlatRemove(m - (rest - {n}), n);
    assert m - (rest - {n}) - {n} == m - rest;
  }

  /** What a partly done scan has decided: `todo` is still to be looked at. */
  ghost predicate Scanned(m: NonceMap, kept: NonceMap, todo: set<nat>, drop: Tx -> bool)
  {
    todo <= kept.Keys <= m.Keys && (forall n :: n in kept ==> kept[n] == m[n]) &&
    forall n :: n in m && n !in todo ==> (n in kept <==> !drop(m[n]))
  }

  lemma ScanStep(m: NonceMap, kept: NonceMap, todo: set<nat>, drop: Tx -> bool, n: nat)
    requires Scanned(m, kept, todo, drop) && n in todo
    ensures Scanned(m, if drop(m[n]) then kept - {n} else kept, todo - {n}, drop)
    ensures multiset(Flat(m - (kept - {n}).Keys)) == multiset(Flat(m - kept.Keys)) + multiset{m[n]}
  {
    MoveOne(m, kept.Keys, n);
    assert (kept - {n}).Keys == kept.Keys - {n};
  }

  /** The scan of Filter: what stays and what is dropped. */
  method Partition(m: NonceMap, drop: Tx -> bool) returns (kept: NonceMap, removed: seq<Tx>)
    ensures kept == Without(m, drop)
    ensures multiset(removed) == multiset(Flat(m - kept.Keys))
  {
    kept, removed := m, [];
    var todo := m.Keys;
    while todo != {}
      invariant Scanned(m, kept, todo, drop)
      invariant multiset(removed) == multiset(Flat(m - kept.Keys))
    {
      NonEmpty(todo);
      var n :| n in todo;
      ScanStep(m, kept, todo, drop, n);
      if drop(kept[n]) {
        removed, kept := removed + [kept[n]], kept - {n};
      }
      todo := todo - {n};
    }
  }

  lemma NoneGone(m: NonceMap, kept: NonceMap)
    requires multiset(Flat(m - kept.Keys)) == multiset{} && kept.Keys <= m.Keys
    requires forall n :: n in kept ==> kept[n] == m[n]
    ensures kept == m
  {
    assert |Flat(m - kept.Keys)| == |multiset(Flat(m - kept.Keys))|;
    assert forall n :: n in m && n !in kept ==> n in m - kept.Keys;
  }

  /** Dropping the greatest nonce, as Cap does. */
  lemma CapStep(m: NonceMap, k: nat)
    requires |m| > k
    ensures |Nonces(m.Keys)| == |m| && Nonces(m.Keys)[|m| - 1] == Max(m.Keys)
    ensures |m - {Max(m.Keys)}| == |m| - 1
    ensures Nonces(m.Keys)[..|m| - 1] == Nonces((m - {Max(m.Keys)}).Keys)
    ensures Lowest(m, k) == Lowest(m - {Max(m.Keys)}, k)
    ensures Highest(m, k) == [m[Max(m.Keys)]] + Highest(m - {Max(m.Keys)}, k)
  {
    Sizes(m);
    NoncesLast(m.Keys);
    assert (m - {Max(m.Keys)}).Keys == m.Keys - {Max(m.Keys)};
  }

  /** The sorted view of the lowest nonces is a prefix of the whole sorted view. */
  lemma {:induction false} FlatLowest(m: NonceMap, k: nat)
    ensures |Highest(m, k)| <= |Flat(m)| && Flat(Lowest(m, k)) == Flat(m)[..|Flat(m)| - |Highest(m, k)|]
    decreases m.Keys
  {
    if |m| > k {
      var hi := Max(m.Keys);
      assert (m - {hi}).Keys == m.Keys - {hi};
      FlatLast(m);
      FlatLowest(m - {hi}, k);
    }
  }

  lemma NotBelowNext(m: NonceMap, t: nat)
    ensures NotBelow(m, t + 1) == NotBelow(m, t) - {t}
  {
  }

  lemma Complement(m: NonceMap, t: nat)
    ensures NotBelow(m, t) == m - Below(m, t).Keys
  {
  }

  lemma {:induction false} RunEndIs(m: NonceMap, n: nat, e: nat)
    requires n <= e && e !in m && forall k :: n <= k < e ==> k in m
    ensures RunEnd(m, n) == e
  {
  }
}
