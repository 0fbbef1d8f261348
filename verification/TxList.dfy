/** The per-account transaction list of core/tx_list.go: a nonce-sorted map with running upper bounds
    on cost and gas that let Filter skip its scan. */
module TxLists {
  import opened Transactions
  import opened NonceMaps
  import opened SortedMaps

  datatype TxList = TxList(strict: bool, items: NonceMap, costcap: nat, gascap: nat)

  function EmptyList(strict: bool): TxList
  {
    TxList(strict, map[], 0, 0)
  }

  /** The caps bound every stored transaction. */
  ghost predicate Bounded(l: TxList)
  {
    forall n :: n in l.items ==> l.items[n].cost <= l.costcap && l.items[n].gas <= l.gascap
  }

  ghost predicate ValidList(l: TxList)
  {
    Keyed(l.items) && Bounded(l)
  }

  /** The nonces form one interval. */
  ghost predicate GapFree(m: NonceMap)
  {
    forall a, b, n :: a in m && b in m && a <= n <= b ==> n in m
  }

  /** The nonces from `lo` up to but not including `hi`. */
  ghost predicate IsInterval(m: NonceMap, lo: nat, hi: nat)
  {
    forall n :: n in m <==> lo <= n < hi
  }

  // ---- Add ----

  /** A replacement must beat the stored price and reach the price-bump threshold. */
  predicate Accepts(l: TxList, tx: Tx, bump: nat)
  {
    tx.nonce in l.items ==>
      var price := l.items[tx.nonce].price;
      price < tx.price && price * (100 + bump) / 100 <= tx.price
  }

  function Added(l: TxList, tx: Tx): TxList
  {
    TxList(l.strict, l.items[tx.nonce := tx],
           if l.costcap < tx.cost then tx.cost else l.costcap,
           if l.gascap < tx.gas then tx.gas else l.gascap)
  }

  lemma AddedIsValid(l: TxList, tx: Tx)
    requires ValidList(l)
    ensures ValidList(Added(l, tx))
  {
  }

  /** The least price that can follow `k` replacements: each one is dearer, and by the bump up to rounding. */
  ghost function Raised(price: nat, bump: nat, k: nat): nat
  {
    if k == 0 then price
    else
      var p := Raised(price, bump, k - 1);
      if p < p * (100 + bump) / 100 then p * (100 + bump) / 100 else p + 1
  }

  /** The lists of a run of replacements at one nonce. */
  ghost predicate Replacing(lists: seq<TxList>, txs: seq<Tx>, nonce: nat, bump: nat)
  {
    |lists| == |txs| + 1 && nonce in lists[0].items &&
    forall i {:trigger txs[i]} :: 0 <= i < |txs| ==>
      txs[i].nonce == nonce && Accepts(lists[i], txs[i], bump) && lists[i + 1] == Added(lists[i], txs[i])
  }

  /** Each replacement raises the price by the bump. */
  lemma {:induction false} ReplacementsRaise(lists: seq<TxList>, txs: seq<Tx>, nonce: nat, bump: nat, k: nat)
    requires Replacing(lists, txs, nonce, bump) && k <= |txs|
    ensures nonce in lists[k].items && lists[k].items[nonce].price >= Raised(lists[0].items[nonce].price, bump, k)
  {
    if k > 0 {
      ReplacementsRaise(lists, txs, nonce, bump, k - 1);
      assert txs[k - 1].nonce == nonce && lists[k] == Added(lists[k - 1], txs[k - 1]);
      BumpGrows(Raised(lists[0].items[nonce].price, bump, k - 1), lists[k - 1].items[nonce].price, bump);
    }
  }

  lemma BumpGrows(a: nat, b: nat, bump: nat)
    requires a <= b
    ensures a * (100 + bump) / 100 <= b * (100 + bump) / 100
  {
    assert a * (100 + bump) <= b * (100 + bump);
  }

  // ---- Filter ----

  predicate Payable(tx: Tx, costLimit: nat, gasLimit: nat)
  {
    tx.cost <= costLimit && tx.gas <= gasLimit
  }

  /** What a full scan would leave: in a strict list everything from the first unpayable nonce on
      goes, otherwise just the unpayable transactions. */
  function PayableItems(m: NonceMap, strict: bool, costLimit: nat, gasLimit: nat): NonceMap
  {
    if strict then
      map n | n in m && forall k :: k in m && k <= n ==> Payable(m[k], costLimit, gasLimit) :: m[n]
    else
      map n | n in m && Payable(m[n], costLimit, gasLimit) :: m[n]
  }

  /** Filter with its early exit. */
  function Filtered(l: TxList, costLimit: nat, gasLimit: nat): TxList
  {
    if l.costcap <= costLimit && l.gascap <= gasLimit then l
    else TxList(l.strict, PayableItems(l.items, l.strict, costLimit, gasLimit), costLimit, gasLimit)
  }

  /** The early exit skips only scans that would remove nothing. */
  lemma EarlyExitIsFullScan(l: TxList, costLimit: nat, gasLimit: nat)
    requires ValidList(l)
    ensures Filtered(l, costLimit, gasLimit).items == PayableItems(l.items, l.strict, costLimit, gasLimit)
    ensures ValidList(Filtered(l, costLimit, gasLimit))
  {
  }

  /** A strict filter cuts the list at its lowest unpayable nonce. */
  lemma StrictFilterCuts(m: NonceMap, costLimit: nat, gasLimit: nat, low: nat)
    requires low in m && !Payable(m[low], costLimit, gasLimit)
    requires forall k :: k in m && k < low ==> Payable(m[k], costLimit, gasLimit)
    ensures PayableItems(m, true, costLimit, gasLimit) == Below(m, low)
  {
  }

  /** Whatever the limits, a strict filter leaves an initial part of the list: a gap-free list stays
      gap-free, and an interval keeps its start. */
  lemma StrictFilterKeepsPrefix(m: NonceMap, costLimit: nat, gasLimit: nat)
    ensures var r := PayableItems(m, true, costLimit, gasLimit);
            (forall a, b :: a in m && b in r && a <= b ==> a in r) && (GapFree(m) ==> GapFree(r))
  {
  }

  // ---- Remove ----

  /** Removal by nonce; a strict list also loses every higher nonce. */
  function Removed(l: TxList, nonce: nat): TxList
  {
    if nonce !in l.items then l
    else l.(items := if l.strict then Below(l.items, nonce) else l.items - {nonce})
  }

  // ---- the list object ----

  /** The least nonce among some removed transactions. */
  method LowestNonce(removed: seq<Tx>) returns (low: nat)
    requires removed != []
    ensures exists i :: 0 <= i < |removed| && removed[i].nonce == low
    ensures forall x :: x in removed ==> low <= x.nonce
  {
    low := removed[0].nonce;
    for i := 1 to |removed|
      invariant exists j :: 0 <= j < |removed| && removed[j].nonce == low
      invariant forall j :: 0 <= j < i ==> low <= removed[j].nonce
    {
      if low > removed[i].nonce {
        low := removed[i].nonce;
      }
    }
  }

  lemma OnePassFilter(m: NonceMap, costLimit: nat, gasLimit: nat)
    ensures Without(m, (tx: Tx) => !Payable(tx, costLimit, gasLimit)) == PayableItems(m, false, costLimit, gasLimit)
  {
  }

  /** The transactions in a listing of a map. */
  lemma Listing(s: seq<Tx>, m: NonceMap)
    requires Keyed(m) && multiset(s) == multiset(Flat(m))
    ensures forall x :: x in s <==> x.nonce in m && m[x.nonce] == x
  {
    forall x ensures x in s <==> x.nonce in m && m[x.nonce] == x {
      assert x in s <==> x in multiset(s);
      assert x in Flat(m) <==> x in multiset(Flat(m));
      FlatMember(m, x);
    }
  }

  /** After dropping the unpayable ones, dropping everything above the lowest of them gives what the
      reference says. */
  lemma TwoPassFilter(m: NonceMap, kept: NonceMap, low: nat, costLimit: nat, gasLimit: nat)
    requires Keyed(m) && kept == PayableItems(m, false, costLimit, gasLimit)
    requires low in m && low !in kept && forall n :: n in m && n !in kept ==> low <= n
    ensures Below(kept, low) == PayableItems(m, true, costLimit, gasLimit)
  {
    StrictFilterCuts(m, costLimit, gasLimit, low);
  }

  /** With nothing unpayable both references agree. */
  lemma NothingUnpayable(m: NonceMap, kept: NonceMap, costLimit: nat, gasLimit: nat)
    requires kept == PayableItems(m, false, costLimit, gasLimit)
    requires multiset(Flat(m - kept.Keys)) == multiset{}
    ensures kept == m == PayableItems(m, true, costLimit, gasLimit)
  {
    NoneGone(m, kept);
  }

  /** The lowest removed nonce, found among what the first pass took out. */
  lemma LowestGone(m: NonceMap, kept: NonceMap, removed: seq<Tx>, low: nat)
    requires Keyed(m) && kept.Keys <= m.Keys && multiset(removed) == multiset(Flat(m - kept.Keys))
    requires exists i :: 0 <= i < |removed| && removed[i].nonce == low
    requires forall x :: x in removed ==> low <= x.nonce
    ensures low in m && low !in kept && forall n :: n in m && n !in kept ==> low <= n
  {
    var gone := m - kept.Keys;
    Listing(removed, gone);
    forall n | n in m && n !in kept ensures low <= n {
      assert n in gone && gone[n] in removed;
    }
  }

  lemma NothingGone(m: NonceMap)
    ensures Flat(m - m.Keys) == []
  {
    assert m - m.Keys == map[];
  }

  lemma NothingToFilter(l: TxList, costLimit: nat, gasLimit: nat)
    requires ValidList(l) && l.costcap <= costLimit && l.gascap <= gasLimit
    ensures PayableItems(l.items, false, costLimit, gasLimit) == l.items
    ensures Flat(l.items - l.items.Keys) == []
  {
    NothingGone(l.items);
  }

  /** The two passes of Filter over the sorted map. */
  method FilterItems(txs: TxSortedMap, strict: bool, costLimit: nat, gasLimit: nat)
    returns (removed: seq<Tx>, invalids: seq<Tx>)
    requires txs.Valid()
    modifies txs
    ensures txs.Valid() && txs.items == PayableItems(old(txs.items), strict, costLimit, gasLimit)
    ensures var payable := PayableItems(old(txs.items), false, costLimit, gasLimit);
            multiset(removed) == multiset(Flat(old(txs.items) - payable.Keys)) &&
            multiset(invalids) == multiset(Flat(payable - txs.items.Keys))
  {
    ghost var m := txs.items;
    OnePassFilter(m, costLimit, gasLimit);
    removed := txs.Filter((tx: Tx) => !Payable(tx, costLimit, gasLimit));
    ghost var kept := txs.items;
    if strict && removed != [] {
      var low := LowestNonce(removed);
      LowestGone(m, kept, removed, low);
      TwoPassFilter(m, kept, low, costLimit, gasLimit);
      invalids := DropAbove(txs, low);
    } else {
      if removed == [] {
        NothingUnpayable(m, kept, costLimit, gasLimit);
      }
      NothingGone(kept);
      invalids := [];
    }
  }

  method DropAbove(txs: TxSortedMap, nonce: nat) returns (dropped: seq<Tx>)
    requires txs.Valid() && nonce !in txs.items
    modifies txs
    ensures txs.Valid() && txs.items == Below(old(txs.items), nonce)
    ensures multiset(dropped) == multiset(Flat(old(txs.items) - txs.items.Keys))
  {
    WithoutAbove(txs.items, nonce);
    dropped := txs.Filter(Above(nonce));
  }

  function Above(nonce: nat): Tx -> bool
  {
    (tx: Tx) => tx.nonce > nonce
  }

  lemma WithoutAbove(m: NonceMap, nonce: nat)
    requires Keyed(m) && nonce !in m
    ensures Without(m, Above(nonce)) == Below(m, nonce)
  {
  }

  method RemoveItems(txs: TxSortedMap, strict: bool, nonce: nat) returns (ok: bool, invalids: seq<Tx>)
    requires txs.Valid()
    modifies txs
    ensures txs.Valid() && ok == (nonce in old(txs.items))
    ensures txs.items == if ok && strict then Below(old(txs.items), nonce) else old(txs.items) - {nonce}
    ensures multiset(invalids) == multiset(Flat(old(txs.items) - {nonce} - txs.items.Keys))
  {
    ghost var m := txs.items;
    ok := txs.Remove(nonce);
    invalids := [];
    if ok && strict {
      assert Below(m - {nonce}, nonce) == Below(m, nonce);
      invalids := DropAbove(txs, nonce);
    } else {
      NothingGone(m - {nonce});
    }
  }

  class TxListObject {
    const strict: bool
    const txs: TxSortedMap
    var costcap: nat
    var gascap: nat

    ghost function View(): TxList
      reads this, txs
    {
      TxList(strict, txs.items, costcap, gascap)
    }

    ghost predicate Valid()
      reads this, txs
    {
      txs.Valid() && Bounded(View())
    }

    constructor (strict: bool)
      ensures Valid() && fresh(txs) && View() == EmptyList(strict)
    {
      this.strict := strict;
      txs := new TxSortedMap();
      costcap, gascap := 0, 0;
    }

    /** Inserts unless a stored transaction of the same nonce is not outbid. Prices at one nonce
        strictly increase. */
    method Add(tx: Tx, bump: nat) returns (inserted: bool, previous: Option<Tx>)
      requires Valid()
      modifies this, txs
      ensures Valid()
      ensures inserted == Accepts(old(View()), tx, bump)
      ensures View() == if inserted then Added(old(View()), tx) else old(View())
      ensures previous == if inserted && tx.nonce in old(txs.items) then Some(old(txs.items)[tx.nonce]) else None
      ensures previous.Some? ==> previous.value.price < tx.price
    {
      previous := txs.Get(tx.nonce);
      if previous.Some? {
        var threshold := previous.value.price * (100 + bump) / 100;
        if previous.value.price >= tx.price || threshold > tx.price {
          return false, None;
        }
      }
      txs.Put(tx);
      if costcap < tx.cost {
        costcap := tx.cost;
      }
      if gascap < tx.gas {
        gascap := tx.gas;
      }
      inserted := true;
    }

    /** Removes what cannot be paid; in a strict list also everything above the lowest of those. */
    method Filter(costLimit: nat, gasLimit: nat) returns (removed: seq<Tx>, invalids: seq<Tx>)
      requires Valid()
      modifies this, txs
      ensures Valid() && View() == Filtered(old(View()), costLimit, gasLimit)
      ensures var payable := PayableItems(old(txs.items), false, costLimit, gasLimit);
              multiset(removed) == multiset(Flat(old(txs.items) - payable.Keys)) &&
              multiset(invalids) == multiset(Flat(payable - txs.items.Keys))
    {
      EarlyExitIsFullScan(View(), costLimit, gasLimit);
      if costcap <= costLimit && gascap <= gasLimit {
        NothingToFilter(View(), costLimit, gasLimit);
        return [], [];
      }
      costcap, gascap := costLimit, gasLimit;
      removed, invalids := FilterItems(txs, strict, costLimit, gasLimit);
    }

    method Forward(threshold: nat) returns (removed: seq<Tx>)
      requires Valid()
      modifies txs
      ensures Valid() && View() == old(View()).(items := NotBelow(old(txs.items), threshold))
      ensures removed == Flat(Below(old(txs.items), threshold))
    {
      removed := txs.Forward(threshold);
    }

    method Cap(threshold: nat) returns (drops: seq<Tx>)
      requires Valid()
      modifies txs
      ensures Valid() && View() == old(View()).(items := Lowest(old(txs.items), threshold))
      ensures drops == Highest(old(txs.items), threshold) && DropsRest(old(txs.items), txs.items, drops)
    {
      drops := txs.Cap(threshold);
    }

    /** Removes by nonce; a strict list gives up every higher nonce too. */
    method Remove(tx: Tx) returns (ok: bool, invalids: seq<Tx>)
      requires Valid()
      modifies txs
      ensures Valid() && ok == (tx.nonce in old(txs.items)) && View() == Removed(old(View()), tx.nonce)
      ensures multiset(invalids) == multiset(Flat(old(txs.items) - {tx.nonce} - txs.items.Keys))
    {
      ok, invalids := RemoveItems(txs, strict, tx.nonce);
    }

    method Ready(start: nat) returns (ready: seq<Tx>)
      requires Valid()
      modifies txs
      ensures Valid() && View() == old(View()).(items := old(txs.items) - ReadyRun(old(txs.items), start).Keys)
      ensures ready == Flat(ReadyRun(old(txs.items), start))
    {
      ready := txs.Ready(start);
    }

    method Flatten() returns (all: seq<Tx>)
      requires Valid()
      modifies txs`cache
      ensures Valid() && View() == old(View()) && all == Flat(txs.items)
    {
      all := txs.Flatten();
    }
  }
}
