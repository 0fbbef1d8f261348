/** The global queue limit (core/tx_pool.go:1029-1067): non-local queues are emptied one account at a
    time until enough is dropped; the last one touched loses only its highest nonces. */
module PoolQueueLimit {
  import opened Transactions
  import opened NonceMaps
  import opened TxLists
  import opened PoolAccounts
  import opened PoolStates
  import opened PoolPromotion
  import opened PoolTruncation
  import opened Numbers

  /** How much each account keeps when `drop` transactions go, last account first. */
  ghost function Kept(sizes: seq<nat>, drop: nat): (kept: seq<nat>)
    ensures |kept| == |sizes|
  {
    if sizes == [] then []
    else
      var rest, n := sizes[..|sizes| - 1], sizes[|sizes| - 1];
      if n <= drop then Kept(rest, drop - n) + [0] else rest + [n - drop]
  }

  lemma SumInit(s: seq<nat>, n: nat)
    ensures Sum(s + [n]) == Sum(s) + n
  {
    assert (s + [n])[..|s|] == s;
  }

  /** Exactly `drop` transactions go, or everything if there are fewer. */
  lemma {:induction false} KeptTotal(sizes: seq<nat>, drop: nat)
    ensures Sum(Kept(sizes, drop)) == if Sum(sizes) <= drop then 0 else Sum(sizes) - drop
  {
    if sizes != [] {
      var rest, n := sizes[..|sizes| - 1], sizes[|sizes| - 1];
      if n <= drop {
        KeptTotal(rest, drop - n);
        SumInit(Kept(rest, drop - n), 0);
      } else {
        SumInit(rest, n - drop);
      }
    }
  }

  /** At most one account is neither emptied nor untouched. */
  lemma {:induction false} KeptPartial(sizes: seq<nat>, drop: nat, i: nat)
    requires i < |sizes|
    ensures Kept(sizes, drop)[i] <= sizes[i]
    ensures Kept(sizes, drop)[i] < sizes[i] ==> forall j :: i < j < |sizes| ==> Kept(sizes, drop)[j] == 0
  {
    var rest, n := sizes[..|sizes| - 1], sizes[|sizes| - 1];
    if n <= drop && i < |rest| {
      KeptPartial(rest, drop - n, i);
    }
  }

  /** `q` is `p` with the queue of `a` cut to its `k` lowest nonces. */
  ghost predicate QueueCut(p: Pool, q: Pool, a: Address, k: nat)
  {
    OnlyAccount(p, q, a) && ForgetsDropped(p, q, a) &&
    AccountOf(q, a) == AccountOf(p, a).(queue := Lowest(QueueOf(p, a), k))
  }

  /** Removing the highest queued nonce. */
  method DropLast(p: Pool, a: Address, bump: nat) returns (q: Pool)
    requires Inv(p) && QueueOf(p, a) != map[]
    ensures Inv(q) && QueueCut(p, q, a, |QueueOf(p, a)| - 1) && |QueueOf(q, a)| == |QueueOf(p, a)| - 1
  {
    var m := QueueOf(p, a);
    var tx := m[Max(m.Keys)];
    assert Sound(AccountOf(p, a), a) && Holds(AccountOf(p, a), tx);
    q := RemoveTx(p, tx, bump);
    assert (m - {tx.nonce}).Keys == m.Keys - {tx.nonce};
  }

  lemma CutFurther(p: Pool, q: Pool, r: Pool, a: Address, k: nat, j: nat)
    requires QueueCut(p, q, a, k) && QueueCut(q, r, a, j) && j <= k
    ensures QueueCut(p, r, a, j)
  {
    LowestOfLowest(QueueOf(p, a), k, j);
    QueueCutHolds(p, q, a, k);
    QueueCutHolds(q, r, a, j);
    ForgetsCompose(p, q, r, a);
  }

  lemma QueueCutHolds(p: Pool, q: Pool, a: Address, k: nat)
    requires AccountOf(q, a) == AccountOf(p, a).(queue := Lowest(QueueOf(p, a), k))
    ensures HoldsNoMore(AccountOf(q, a), AccountOf(p, a))
  {
  }

  lemma Uncut(p: Pool, a: Address, k: nat)
    requires |QueueOf(p, a)| <= k
    ensures QueueCut(p, p, a, k)
  {
  }

  /** `q` is `p` with `k` transactions left in the queue of `a`. */
  ghost predicate CutDown(p: Pool, q: Pool, a: Address, k: nat)
  {
    QueueCut(p, q, a, k) && |QueueOf(q, a)| == k
  }

  /** `stage` tells the pools that are `p` cut down. */
  ghost predicate Stages(p: Pool, a: Address, stage: (Pool, nat) -> bool)
  {
    forall q, k {:trigger CutDown(p, q, a, k)} :: stage(q, k) <==> Inv(q) && CutDown(p, q, a, k)
  }

  method DropNext(ghost p: Pool, q: Pool, a: Address, ghost k: nat, bump: nat, ghost stage: (Pool, nat) -> bool)
    returns (r: Pool)
    requires Stages(p, a, stage) && stage(q, k) && k > 0
    ensures stage(r, k - 1)
  {
    assert CutDown(p, q, a, k);
    r := DropLast(q, a, bump);
    CutFurther(p, q, r, a, k, k - 1);
    assert CutDown(p, r, a, k - 1);
  }

  /** Removes `count` transactions from the top of a queue, one by one. */
  method DropHighest(p: Pool, a: Address, count: nat, bump: nat) returns (q: Pool)
    requires Inv(p) && count <= |QueueOf(p, a)|
    ensures Inv(q) && QueueCut(p, q, a, |QueueOf(p, a)| - count)
  {
    ghost var size, stage := |QueueOf(p, a)|, (q: Pool, k: nat) => Inv(q) && CutDown(p, q, a, k);
    Uncut(p, a, size);
    q := DropEach(p, a, count, bump, size, stage);
  }

  method DropEach(p: Pool, a: Address, count: nat, bump: nat, ghost size: nat, ghost stage: (Pool, nat) -> bool)
    returns (q: Pool)
    requires count <= size && Stages(p, a, stage) && stage(p, size)
    ensures stage(q, size - count)
  {
    q := p;
    var n := count;
    while n > 0
      invariant 0 <= n <= count && stage(q, size - count + n)
    {
      q := DropNext(p, q, a, size - count + n, bump, stage);
      n := n - 1;
    }
  }

  lemma {:induction false} KeptNothingToDrop(sizes: seq<nat>)
    ensures Kept(sizes, 0) == sizes
  {
    if sizes != [] {
      KeptNothingToDrop(sizes[..|sizes| - 1]);
      assert sizes == sizes[..|sizes| - 1] + [sizes[|sizes| - 1]];
    }
  }

  function QueueSizes(p: Pool, order: seq<Address>): (s: seq<nat>)
    ensures |s| == |order| && forall i :: 0 <= i < |order| ==> s[i] == |QueueOf(p, order[i])|
  {
    seq(|order|, i requires 0 <= i < |order| => |QueueOf(p, order[i])|)
  }

  ghost predicate IsQueueCut(p: Pool, q: Pool, a: Address, k: nat)
  {
    AccountOf(q, a) == AccountOf(p, a).(queue := Lowest(QueueOf(p, a), k))
  }

  /** `q` is `p` with the queues of the accounts in `cuts` cut to those lengths. */
  ghost predicate CutQueues(p: Pool, q: Pool, cuts: map<Address, nat>)
  {
    SameSettings(p, q) && ForgetsLost(p, q) &&
    forall a {:trigger QueueState(p, q, a, cuts)} :: QueueState(p, q, a, cuts)
  }

  ghost predicate QueueState(p: Pool, q: Pool, a: Address, cuts: map<Address, nat>)
  {
    if a in cuts then IsQueueCut(p, q, a, cuts[a]) else AccountOf(q, a) == AccountOf(p, a)
  }

  /** One more account. */
  lemma CutOneMoreQueue(p: Pool, q: Pool, r: Pool, cuts: map<Address, nat>, a: Address, n: nat)
    requires Inv(p) && Inv(q) && CutQueues(p, q, cuts) && a !in cuts && QueueCut(q, r, a, n)
    ensures CutQueues(p, r, cuts[a := n])
  {
    CutMoreForgets(p, q, r, cuts, a, n);
    CutMoreStates(p, q, r, cuts, a, n);
  }

  lemma CutMoreStates(p: Pool, q: Pool, r: Pool, cuts: map<Address, nat>, a: Address, n: nat)
    requires CutQueues(p, q, cuts) && a !in cuts && QueueCut(q, r, a, n)
    ensures var more := cuts[a := n]; forall b {:trigger QueueState(p, r, b, more)} :: QueueState(p, r, b, more)
  {
    var more := cuts[a := n];
    assert QueueState(p, q, a, cuts);
    forall b ensures QueueState(p, r, b, more) {
      assert QueueState(p, q, b, cuts);
    }
  }

  lemma CutMoreForgets(p: Pool, q: Pool, r: Pool, cuts: map<Address, nat>, a: Address, n: nat)
    requires Inv(p) && Inv(q) && CutQueues(p, q, cuts) && QueueCut(q, r, a, n)
    ensures ForgetsLost(p, r)
  {
    ForgetsOne(q, r, a);
    CutHoldsLess(p, q, cuts);
    CutOneHoldsLess(q, r, a, n);
    ForgetsTwice(p, q, r);
  }

  lemma CutHoldsLess(p: Pool, q: Pool, cuts: map<Address, nat>)
    requires CutQueues(p, q, cuts)
    ensures forall b :: HoldsNoMore(AccountOf(q, b), AccountOf(p, b))
  {
    forall b ensures HoldsNoMore(AccountOf(q, b), AccountOf(p, b)) {
      assert QueueState(p, q, b, cuts);
    }
  }

  lemma CutOneHoldsLess(q: Pool, r: Pool, a: Address, n: nat)
    requires QueueCut(q, r, a, n)
    ensures forall b :: HoldsNoMore(AccountOf(r, b), AccountOf(q, b))
  {
  }

  /** Where the loop stands: `left` more transactions are to go from the first `k` accounts. */
  ghost predicate Dropping(sizes: seq<nat>, order: seq<Address>, drop: nat, k: nat, left: nat, cuts: map<Address, nat>)
  {
    |sizes| == |order| && k <= |order| && |Kept(sizes, drop)| == |order| && Distinct(order) &&
    Kept(sizes, drop)[..k] == Kept(sizes[..k], left) &&
    (forall i {:trigger order[i]} :: 0 <= i < |order| ==> (order[i] in cuts <==> k <= i)) &&
    (forall i {:trigger order[i]} :: k <= i < |order| ==> cuts[order[i]] == Kept(sizes, drop)[i]) &&
    forall a :: a in cuts ==> a in order
  }

  lemma DropStep(sizes: seq<nat>, order: seq<Address>, drop: nat, k: nat, left: nat, cuts: map<Address, nat>, n: nat,
                 rest: nat)
    requires Dropping(sizes, order, drop, k, left, cuts) && k > 0
    requires if sizes[k - 1] <= left then n == 0 && rest == left - sizes[k - 1]
             else n == sizes[k - 1] - left && rest == 0
    ensures Dropping(sizes, order, drop, k - 1, rest, cuts[order[k - 1] := n])
  {
    KeptSplit(sizes, drop, k, left, n, rest);
  }

  /** What is kept of some sizes followed by one more. */
  lemma KeptAppend(front: seq<nat>, last: nat, left: nat)
    ensures Kept(front + [last], left) == if last <= left then Kept(front, left - last) + [0] else front + [last - left]
  {
    assert (front + [last])[..|front|] == front;
  }

  lemma KeptSplit(sizes: seq<nat>, drop: nat, k: nat, left: nat, n: nat, rest: nat)
    requires 0 < k <= |sizes| && Kept(sizes, drop)[..k] == Kept(sizes[..k], left)
    requires if sizes[k - 1] <= left then n == 0 && rest == left - sizes[k - 1]
             else n == sizes[k - 1] - left && rest == 0
    ensures Kept(sizes, drop)[k - 1] == n && Kept(sizes, drop)[..k - 1] == Kept(sizes[..k - 1], rest)
  {
    var front := sizes[..k - 1];
    assert sizes[..k] == front + [sizes[k - 1]];
    KeptAppend(front, sizes[k - 1], left);
    KeptNothingToDrop(front);
    SplitLast(Kept(sizes, drop), k, Kept(front, rest), n);
  }

  lemma SplitLast(kept: seq<nat>, k: nat, front: seq<nat>, n: nat)
    requires 0 < k <= |kept| && kept[..k] == front + [n]
    ensures kept[k - 1] == n && kept[..k - 1] == front
  {
    TakeLess(kept, k);
    assert (front + [n])[..k - 1] == front;
  }

  /** Empties a queue if that many may go, otherwise takes that many off its top. */
  method CutOneQueue(q: Pool, a: Address, left: nat, bump: nat) returns (r: Pool, rest: nat, ghost n: nat)
    requires Inv(q)
    ensures Inv(r) && QueueCut(q, r, a, n)
    ensures var size := |QueueOf(q, a)|;
            if size <= left then n == 0 && rest == left - size else n == size - left && rest == 0
  {
    var size := |QueueOf(q, a)|;
    if size <= left {
      r := DropHighest(q, a, size, bump);
      rest, n := left - size, 0;
    } else {
      r := DropHighest(q, a, left, bump);
      rest, n := 0, size - left;
    }
  }

  /** The account at place `i` of `order` keeps its share after `drop` transactions are taken from the
      last accounts. */
  ghost predicate KeptAt(p: Pool, q: Pool, order: seq<Address>, drop: nat, i: nat)
    requires i < |order|
  {
    IsQueueCut(p, q, order[i], Kept(QueueSizes(p, order), drop)[i])
  }

  /** Only accounts of `order` are cut. */
  ghost predicate CutsWithin(cuts: map<Address, nat>, order: seq<Address>)
  {
    forall a {:trigger a in cuts} :: a in cuts ==> a in order
  }

  ghost predicate KeptAlong(p: Pool, q: Pool, order: seq<Address>, drop: nat)
  {
    forall i: nat {:trigger KeptAt(p, q, order, drop, i)} :: i < |order| ==> KeptAt(p, q, order, drop, i)
  }

  /** Where a queue has lost something, those of all later accounts are empty. */
  ghost predicate EmptiedFromEnd(p: Pool, q: Pool, order: seq<Address>)
  {
    forall i, j {:trigger order[i], order[j]} :: 0 <= i < j < |order| ==>
      QueueOf(q, order[i]) == QueueOf(p, order[i]) || QueueOf(q, order[j]) == map[]
  }

  lemma Emptied(p: Pool, q: Pool, order: seq<Address>, drop: nat)
    requires KeptAlong(p, q, order, drop)
    ensures EmptiedFromEnd(p, q, order)
  {
    var sizes := QueueSizes(p, order);
    forall i: nat, j: nat | i < j < |order| && QueueOf(q, order[i]) != QueueOf(p, order[i])
      ensures QueueOf(q, order[j]) == map[]
    {
      assert KeptAt(p, q, order, drop, i) && KeptAt(p, q, order, drop, j);
      KeptPartial(sizes, drop, i);
    }
  }

  /** Drops `drop` queued transactions, going through `order` from its end. */
  method LimitQueues(p: Pool, order: seq<Address>, drop: nat, bump: nat)
    returns (q: Pool, ghost cuts: map<Address, nat>)
    requires Inv(p) && Distinct(order)
    ensures Inv(q) && CutQueues(p, q, cuts) && CutsWithin(cuts, order)
    ensures KeptAlong(p, q, order, drop) && EmptiedFromEnd(p, q, order)
  {
    q, cuts := p, map[];
    var k: nat, left: nat := |order|, drop;
    ghost var sizes := QueueSizes(p, order);
    Begin(p, order, drop);
    while k > 0 && left > 0
      invariant Inv(q) && CutQueues(p, q, cuts) && Dropping(sizes, order, drop, k, left, cuts)
      decreases k
    {
      q, left, cuts := CutLast(p, q, order, sizes, drop, k, left, cuts, bump);
      k := k - 1;
    }
    Finish(p, q, order, drop, k, left, cuts);
    Emptied(p, q, order, drop);
  }

  /** The turn of the last of the first `k` accounts. */
  method CutLast(ghost p: Pool, q: Pool, order: seq<Address>, ghost sizes: seq<nat>, ghost drop: nat, k: nat, left: nat,
                 ghost cuts: map<Address, nat>, bump: nat)
    returns (r: Pool, rest: nat, ghost more: map<Address, nat>)
    requires Inv(p) && Inv(q) && CutQueues(p, q, cuts) && sizes == QueueSizes(p, order)
    requires Dropping(sizes, order, drop, k, left, cuts) && k > 0
    ensures Inv(r) && CutQueues(p, r, more) && Dropping(sizes, order, drop, k - 1, rest, more)
  {
    ghost var n;
    assert QueueState(p, q, order[k - 1], cuts);
    r, rest, n := CutOneQueue(q, order[k - 1], left, bump);
    CutOneMoreQueue(p, q, r, cuts, order[k - 1], n);
    DropStep(sizes, order, drop, k, left, cuts, n, rest);
    more := cuts[order[k - 1] := n];
  }

  lemma Begin(p: Pool, order: seq<Address>, drop: nat)
    requires Distinct(order)
    ensures CutQueues(p, p, map[]) && Dropping(QueueSizes(p, order), order, drop, |order|, drop, map[])
  {
    var sizes := QueueSizes(p, order);
    KeptTotal(sizes, drop);
    assert sizes[..|order|] == sizes && Kept(sizes, drop)[..|order|] == Kept(sizes, drop);
    forall x ensures Accounted(p, p, x) {}
  }

  lemma Finish(p: Pool, q: Pool, order: seq<Address>, drop: nat, k: nat, left: nat, cuts: map<Address, nat>)
    requires CutQueues(p, q, cuts) && Dropping(QueueSizes(p, order), order, drop, k, left, cuts)
    requires k == 0 || left == 0
    ensures |Kept(QueueSizes(p, order), drop)| == |order|
    ensures KeptAlong(p, q, order, drop)
  {
    var sizes := QueueSizes(p, order);
    KeptNothingToDrop(sizes[..k]);
    forall i: nat | i < |order| ensures KeptAt(p, q, order, drop, i) {
      assert QueueState(p, q, order[i], cuts);
      if i < k {
        assert Kept(sizes, drop)[i] == Kept(sizes, drop)[..k][i] == sizes[i];
      }
    }
  }
}
