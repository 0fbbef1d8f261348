/** The price heap of core/tx_list.go. It may hold stale entries, transactions that have left the
    pool's `all` set, and repeated entries; what matters is that it covers `all`. */
module PricedLists {
  import opened Transactions
  import BinaryHeap

  ghost predicate Covers(items: seq<Tx>, all: set<Tx>)
  {
    forall tx :: tx in all ==> tx in items
  }

  ghost predicate IsPriceHeap(items: seq<Tx>)
  {
    BinaryHeap.IsHeap(items, PriceOf)
  }

  predicate IsLocal(locals: set<Address>, tx: Tx)
  {
    tx.from in locals
  }

  lemma SameElements<T>(a: seq<T>, b: multiset<T>)
    requires multiset(a) == b
    ensures forall x :: x in a <==> x in b
  {
    assert forall x :: x in a <==> x in multiset(a);
  }

  /** Pops the cheapest entry. */
  method PopCheapest(items: seq<Tx>) returns (tx: Tx, rest: seq<Tx>)
    requires IsPriceHeap(items) && items != []
    ensures IsPriceHeap(rest) && |items| == |rest| + 1
    ensures tx == items[0] && forall x :: x in items <==> x == tx || x in rest
    ensures forall x :: x in rest ==> tx.price <= x.price
  {
    tx, rest := BinaryHeap.Pop(items, PriceOf);
    SameElements(items, multiset(rest) + multiset{tx});
    SameElements(rest, multiset(rest));
    assert |multiset(items)| == |items| && |multiset(rest)| == |rest|;
    forall x | x in rest ensures tx.price <= x.price {
      assert x in items && PriceOf(tx) <= PriceOf(x);
    }
  }

  method PushOne(items: seq<Tx>, tx: Tx) returns (r: seq<Tx>)
    requires IsPriceHeap(items)
    ensures IsPriceHeap(r) && |r| == |items| + 1
    ensures forall x :: x in r <==> x == tx || x in items
  {
    r := BinaryHeap.Push(items, PriceOf, tx);
    SameElements(r, multiset(items) + multiset{tx});
    SameElements(items, multiset(items));
    assert |multiset(r)| == |r| && |multiset(items)| == |items|;
  }

  method PushAll(items: seq<Tx>, save: seq<Tx>) returns (r: seq<Tx>)
    requires IsPriceHeap(items)
    ensures IsPriceHeap(r) && |r| == |items| + |save|
    ensures forall x :: x in r <==> x in save || x in items
  {
    r := items;
    for i := 0 to |save|
      invariant IsPriceHeap(r) && |r| == |items| + i
      invariant forall x :: x in r <==> x in save[..i] || x in items
    {
      r := PushOne(r, save[i]);
      assert save[..i + 1] == save[..i] + [save[i]];
    }
    assert save[..|save|] == save;
  }

  /** A heap with one entry for each transaction of `all`. */
  method Reheap(all: set<Tx>) returns (r: seq<Tx>)
    ensures IsPriceHeap(r) && |r| == |all|
    ensures forall x :: x in r <==> x in all
  {
    var list, rest := [], all;
    while rest != {}
      invariant rest <= all && |list| + |rest| == |all|
      invariant forall x :: x in list <==> x in all && x !in rest
    {
      var tx :| tx in rest;
      list, rest := list + [tx], rest - {tx};
    }
    r := BinaryHeap.Init(list, PriceOf);
    SameElements(r, multiset(list));
    SameElements(list, multiset(list));
  }

  /** Pops entries below the threshold: stale ones vanish, local ones are kept aside, the rest are
      dropped. Ends at the first live entry that reaches the threshold, which is also kept aside. */
  method PopUnder(items: seq<Tx>, all: set<Tx>, locals: set<Address>, threshold: nat)
    returns (h: seq<Tx>, save: seq<Tx>, drop: seq<Tx>, stale: nat)
    requires IsPriceHeap(items) && Covers(items, all)
    ensures IsPriceHeap(h) && |items| == |h| + |save| + |drop| + stale
    ensures forall x :: x in all ==> x in h || x in save || x in drop
    ensures forall x :: x in h || x in save || x in drop ==> x in items
    ensures forall x :: x in drop ==> x in all && !IsLocal(locals, x) && x.price < threshold
    ensures forall x :: x in all && !IsLocal(locals, x) && x.price < threshold ==> x in drop
  {
    h, save, drop, stale := items, [], [], 0;
    while h != []
      invariant IsPriceHeap(h) && |items| == |h| + |save| + |drop| + stale
      invariant forall x :: x in all ==> x in h || x in save || x in drop
      invariant forall x :: x in h || x in save || x in drop ==> x in items
      invariant forall x :: x in save ==> IsLocal(locals, x)
      invariant forall x :: x in drop ==> x in all && !IsLocal(locals, x) && x.price < threshold
      decreases |h|
    {
      var tx, rest := PopCheapest(h);
      h := rest;
      if tx !in all {
        stale := stale + 1;
        continue;
      }
      if tx.price >= threshold {
        save := save + [tx];
        break;
      }
      if IsLocal(locals, tx) {
        save := save + [tx];
      } else {
        drop := drop + [tx];
      }
    }
  }

  /** Pops until `count` non-local live entries have been dropped or the heap is empty. */
  method PopCheapestNonLocal(items: seq<Tx>, all: set<Tx>, locals: set<Address>, count: nat)
    returns (h: seq<Tx>, save: seq<Tx>, drop: seq<Tx>, stale: nat)
    requires IsPriceHeap(items) && Covers(items, all)
    ensures IsPriceHeap(h) && |items| == |h| + |save| + |drop| + stale
    ensures forall x :: x in all ==> x in h || x in save || x in drop
    ensures forall x :: x in h || x in save || x in drop ==> x in items
    ensures forall x :: x in save ==> IsLocal(locals, x)
    ensures forall x :: x in drop ==> x in all && !IsLocal(locals, x)
    ensures |drop| <= count && (|drop| < count ==> h == [])
    ensures forall d, x :: d in drop && x in h ==> d.price <= x.price
  {
    h, save, drop, stale := items, [], [], 0;
    while h != [] && |drop| < count
      invariant IsPriceHeap(h) && |items| == |h| + |save| + |drop| + stale && |drop| <= count
      invariant forall x :: x in all ==> x in h || x in save || x in drop
      invariant forall x :: x in h || x in save || x in drop ==> x in items
      invariant forall x :: x in save ==> IsLocal(locals, x)
      invariant forall x :: x in drop ==> x in all && !IsLocal(locals, x)
      invariant forall d, x :: d in drop && x in h ==> d.price <= x.price
      decreases |h|
    {
      var tx, rest := PopCheapest(h);
      h := rest;
      if tx !in all {
        stale := stale + 1;
        continue;
      }
      if IsLocal(locals, tx) {
        save := save + [tx];
      } else {
        drop := drop + [tx];
      }
    }
  }

  /** Pops stale entries off the top. */
  method PopStale(items: seq<Tx>, all: set<Tx>) returns (h: seq<Tx>, stale: nat)
    requires IsPriceHeap(items) && Covers(items, all)
    ensures IsPriceHeap(h) && Covers(h, all) && |items| == |h| + stale
    ensures h != [] ==> h[0] in all
  {
    h, stale := items, 0;
    while h != [] && h[0] !in all
      invariant IsPriceHeap(h) && Covers(h, all) && |items| == |h| + stale
      decreases |h|
    {
      var _, rest := PopCheapest(h);
      h, stale := rest, stale + 1;
    }
  }

  lemma HeadIsCheapest(h: seq<Tx>, x: Tx)
    requires IsPriceHeap(h) && x in h
    ensures h[0].price <= x.price
  {
    var i :| 0 <= i < |h| && h[i] == x;
    BinaryHeap.RootIsLeast(h, PriceOf, i);
    assert PriceOf(h[0]) <= PriceOf(x);
  }

  // ---- the operations on the heap and its stale count ----

  /** Counts one more stale entry; past a quarter of the heap it is rebuilt from `all`. No live entry
      is lost. */
  method CountRemoved(items: seq<Tx>, stales: int, all: set<Tx>) returns (h: seq<Tx>, n: int)
    requires IsPriceHeap(items)
    ensures IsPriceHeap(h) && forall x :: x in all && x in items ==> x in h
    ensures if stales + 1 <= |items| / 4
            then h == items && n == stales + 1
            else n == 0 && |h| == |all| && forall x :: x in h <==> x in all
  {
    h, n := items, stales + 1;
    if n <= |h| / 4 {
      return;
    }
    n := 0;
    h := Reheap(all);
  }

  /** Hands out every non-local transaction below the threshold and nothing else. Dropped entries
      have left the heap, so it covers what remains once they leave `all`. */
  method CapPrices(items: seq<Tx>, stales: int, threshold: nat, all: set<Tx>, locals: set<Address>)
    returns (h: seq<Tx>, n: int, drop: seq<Tx>)
    requires IsPriceHeap(items) && Covers(items, all)
    ensures forall x :: x in drop <==> x in all && !IsLocal(locals, x) && x.price < threshold
    ensures IsPriceHeap(h) && Covers(h, all - (set x | x in drop)) && forall x :: x in h ==> x in items
    ensures n == stales - (|items| - |h| - |drop|)
  {
    var rest, save, gone, stale := PopUnder(items, all, locals, threshold);
    h := PushAll(rest, save);
    n, drop := stales - stale, gone;
  }

  /** A non-local transaction is underpriced exactly when nothing in a non-empty pool is cheaper. */
  method IsUnderpriced(items: seq<Tx>, stales: int, tx: Tx, all: set<Tx>, locals: set<Address>)
    returns (h: seq<Tx>, n: int, under: bool)
    requires IsPriceHeap(items) && Covers(items, all)
    ensures under <==> !IsLocal(locals, tx) && all != {} && forall x :: x in all ==> tx.price <= x.price
    ensures IsPriceHeap(h) && Covers(h, all)
    ensures n == stales - (|items| - |h|)
  {
    if IsLocal(locals, tx) {
      return items, stales, false;
    }
    var stale;
    h, stale := PopStale(items, all);
    n := stales - stale;
    if h == [] {
      return h, n, false;
    }
    forall x | x in all ensures h[0].price <= x.price {
      HeadIsCheapest(h, x);
    }
    under := h[0].price >= tx.price;
  }

  /** Hands out up to `count` entries, cheapest first, never a local one; no remaining non-local
      transaction is cheaper than a dropped one, and fewer than `count` come out only when no
      non-local transaction remains. */
  method DiscardCheapest(items: seq<Tx>, stales: int, count: nat, all: set<Tx>, locals: set<Address>)
    returns (h: seq<Tx>, n: int, drop: seq<Tx>)
    requires IsPriceHeap(items) && Covers(items, all)
    ensures |drop| <= count && forall x :: x in drop ==> x in all && !IsLocal(locals, x)
    ensures forall d, x :: d in drop && x in all && x !in drop && !IsLocal(locals, x) ==> d.price <= x.price
    ensures |drop| < count ==> forall x :: x in all && !IsLocal(locals, x) ==> x in drop
    ensures IsPriceHeap(h) && Covers(h, all - (set x | x in drop)) && forall x :: x in h ==> x in items
    ensures n == stales - (|items| - |h| - |drop|)
  {
    var rest, save, gone, stale := PopCheapestNonLocal(items, all, locals, count);
    h := PushAll(rest, save);
    n, drop := stales - stale, gone;
  }
}
