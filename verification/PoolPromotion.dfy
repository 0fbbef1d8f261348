/** Moving an account's transactions between queue and pending list: the per-account part of
    promoteExecutables and demoteUnexecutables (core/tx_pool.go). */
module PoolPromotion {
  import opened Transactions
  import opened NonceMaps
  import opened TxLists
  import opened PricedLists
  import opened PoolAccounts
  import opened PoolStates

  lemma FlatElements(m: NonceMap)
    requires Keyed(m)
    ensures forall x :: x in Flat(m) <==> x.nonce in m && m[x.nonce] == x
  {
    forall x ensures x in Flat(m) <==> x.nonce in m && m[x.nonce] == x {
      FlatMember(m, x);
    }
  }

  /** Forgetting exactly what the queue of `a` lost. */
  lemma QueueLoss(p: Pool, q: Pool, a: Address, gone: NonceMap)
    requires Inv(p) && Keyed(gone) && q.all == p.all - Elements(Flat(gone))
    requires PendingOf(q, a) == PendingOf(p, a) && SubMap(QueueOf(q, a), QueueOf(p, a))
    requires gone == QueueOf(p, a) - QueueOf(q, a).Keys
    ensures ForgetsDropped(p, q, a)
  {
    FlatElements(gone);
    assert Sound(AccountOf(p, a), a);
  }

  lemma ForgetsCompose(p: Pool, q: Pool, r: Pool, a: Address)
    requires ForgetsDropped(p, q, a) && ForgetsDropped(q, r, a)
    requires HoldsNoMore(AccountOf(q, a), AccountOf(p, a)) && HoldsNoMore(AccountOf(r, a), AccountOf(q, a))
    ensures ForgetsDropped(p, r, a)
  {
  }

  /** Cuts the queue of `a` down to `l` and forgets the rest. */
  method CutQueue(p: Pool, a: Address, l: TxList) returns (q: Pool)
    requires Inv(p) && a in p.queue && ValidList(l) && !l.strict && SubMap(l.items, QueueOf(p, a))
    ensures Inv(q) && OnlyAccount(p, q, a) && ForgetsDropped(p, q, a) && a in q.queue && q.queue[a] == l
    ensures AccountOf(q, a) == AccountOf(p, a).(queue := l.items)
  {
    var gone := QueueOf(p, a) - l.items.Keys;
    assert Sound(AccountOf(p, a), a);
    FlatElements(gone);
    q := ShrinkQueue(p, a, l, Flat(gone));
    QueueLoss(p, q, a, gone);
  }

  /** Drops queued transactions below the state nonce, then those that cannot be paid for. */
  method DropUnusable(p: Pool, a: Address) returns (q: Pool)
    requires Inv(p) && a in p.queue
    ensures Inv(q) && OnlyAccount(p, q, a) && ForgetsDropped(p, q, a) && a in q.queue
    ensures AccountOf(q, a) == AccountOf(p, a).(queue := Usable(AccountOf(p, a), FundsOf(p.head, a)))
  {
    var f := FundsOf(p.head, a);
    var list := p.queue[a];
    var live := list.(items := NotBelow(list.items, f.nonce));
    var mid := CutQueue(p, a, live);
    EarlyExitIsFullScan(live, f.balance, f.maxGas);
    q := CutQueue(mid, a, Filtered(live, f.balance, f.maxGas));
    ForgetsCompose(p, mid, q, a);
  }

  /** Promotes the ready run in nonce order. */
  method MoveReady(p: Pool, a: Address, bump: nat) returns (q: Pool)
    requires Inv(p) && a in p.queue
    ensures Inv(q) && OnlyAccount(p, q, a) && q.all == p.all && a in q.queue
    ensures var run := ReadyRun(QueueOf(p, a), NextNonce(p, a));
            AccountOf(q, a) == Account(PendingOf(p, a) + run, QueueOf(p, a) - run.Keys,
                                       if run == map[] then NextNonce(p, a)
                                         else RunEnd(QueueOf(p, a), Min(QueueOf(p, a).Keys)))
  {
    var list := p.queue[a];
    var run := ReadyRun(list.items, NextNonce(p, a));
    q := ShrinkQueue(p, a, list.(items := list.items - run.Keys), []);
    assert Sound(AccountOf(p, a), a);
    if run == map[] {
      assert PendingOf(p, a) + run == PendingOf(p, a);
    } else {
      RunIsListed(p, a, run);
      q := PromoteRun(q, a, run, Min(list.items.Keys), RunEnd(list.items, Min(list.items.Keys)), bump);
    }
  }

  lemma RunIsListed(p: Pool, a: Address, run: NonceMap)
    requires Inv(p) && SubMap(run, QueueOf(p, a))
    ensures Keyed(run) && forall n :: n in run ==> run[n].from == a && run[n] in p.all
  {
    assert Sound(AccountOf(p, a), a);
    forall n | n in run ensures run[n] in p.all {
      assert Holds(AccountOf(p, a), run[n]);
    }
  }

  /** `now` is `pending` with the transactions of `run` below `n` added. */
  ghost predicate PartlyMoved(pending: NonceMap, now: NonceMap, run: NonceMap, n: nat)
  {
    forall k :: (k in now <==> k in pending || (k in run && k < n)) &&
                (k in now ==> now[k] == if k in run && k < n then run[k] else pending[k])
  }

  method PromoteRun(p: Pool, a: Address, run: NonceMap, lo: nat, hi: nat, bump: nat) returns (q: Pool)
    requires Inv(p) && Keyed(run) && IsInterval(run, lo, hi) && lo < hi
    requires run.Keys !! PendingOf(p, a).Keys && run.Keys !! QueueOf(p, a).Keys
    requires forall n :: n in run ==> run[n].from == a && run[n] in p.all
    ensures Inv(q) && OnlyAccount(p, q, a) && q.all == p.all && q.queue == p.queue
    ensures AccountOf(q, a) == Account(PendingOf(p, a) + run, QueueOf(p, a), hi)
  {
    q := p;
    var n := lo;
    while n < hi
      invariant lo <= n <= hi && Inv(q) && OnlyAccount(p, q, a) && q.all == p.all && q.queue == p.queue
      invariant PartlyMoved(PendingOf(p, a), PendingOf(q, a), run, n)
      invariant n > lo ==> NextNonce(q, a) == n
    {
      PartlyMovedNext(PendingOf(p, a), PendingOf(q, a), run, n);
      q := PromoteFresh(q, run[n], bump);
      n := n + 1;
    }
    PartlyMovedAll(PendingOf(p, a), PendingOf(q, a), run, n);
  }

  lemma PartlyMovedNext(pending: NonceMap, now: NonceMap, run: NonceMap, n: nat)
    requires PartlyMoved(pending, now, run, n) && n in run && run.Keys !! pending.Keys
    ensures n !in now && PartlyMoved(pending, now[n := run[n]], run, n + 1)
  {
  }

  lemma PartlyMovedAll(pending: NonceMap, now: NonceMap, run: NonceMap, n: nat)
    requires PartlyMoved(pending, now, run, n) && forall k :: k in run ==> k < n
    ensures now == pending + run
  {
  }

  /** Applies the per-account queue limit and drops an emptied queue. */
  method LimitQueue(p: Pool, a: Address, cfg: Config) returns (q: Pool)
    requires Inv(p) && a in p.queue
    ensures Inv(q) && OnlyAccount(p, q, a) && ForgetsDropped(p, q, a)
    ensures AccountOf(q, a) ==
      AccountOf(p, a).(queue := if a in p.locals then QueueOf(p, a) else Lowest(QueueOf(p, a), cfg.accountQueue))
  {
    q := p;
    if a !in p.locals {
      var list := p.queue[a];
      q := CutQueue(p, a, list.(items := Lowest(list.items, cfg.accountQueue)));
    }
    q := DropEmptyQueue(q, a);
  }

  /** The stages together forget exactly what the account lost: promotion itself loses nothing. */
  lemma PromotionForgets(p: Pool, u: Pool, m: Pool, q: Pool, a: Address)
    requires Inv(p) && ForgetsDropped(p, u, a) && m.all == u.all && ForgetsDropped(m, q, a)
    requires AccountOf(u, a) == AccountOf(p, a).(queue := QueueOf(u, a)) && SubMap(QueueOf(u, a), QueueOf(p, a))
    requires var run := ReadyRun(QueueOf(u, a), NextNonce(u, a));
             PendingOf(m, a) == PendingOf(u, a) + run && QueueOf(m, a) == QueueOf(u, a) - run.Keys
    requires PendingOf(q, a) == PendingOf(m, a) && SubMap(QueueOf(q, a), QueueOf(m, a))
    ensures ForgetsDropped(p, q, a)
  {
    assert Sound(AccountOf(p, a), a);
    ReadyRunIsPart(QueueOf(u, a), NextNonce(u, a));
    MoveKeeps(AccountOf(u, a), AccountOf(m, a), ReadyRun(QueueOf(u, a), NextNonce(u, a)));
  }

  /** Moving part of the queue to the pending list changes nothing about what the account holds. */
  lemma MoveKeeps(acc: Account, r: Account, run: NonceMap)
    requires SubMap(run, acc.queue) && acc.pending.Keys !! acc.queue.Keys
    requires r.pending == acc.pending + run && r.queue == acc.queue - run.Keys
    ensures forall x :: Holds(r, x) <==> Holds(acc, x)
  {
  }

  /** The usable transactions, then the ready run, then the limit. */
  method PromoteStages(p: Pool, a: Address, cfg: Config) returns (u: Pool, m: Pool, q: Pool)
    requires Inv(p) && a in p.queue
    ensures OnlyAccount(p, u, a) && ForgetsDropped(p, u, a)
    ensures AccountOf(u, a) == AccountOf(p, a).(queue := Usable(AccountOf(p, a), FundsOf(p.head, a)))
    ensures m.all == u.all
    ensures var run := ReadyRun(QueueOf(u, a), NextNonce(u, a));
            AccountOf(m, a) == Account(PendingOf(u, a) + run, QueueOf(u, a) - run.Keys,
                                       if run == map[] then NextNonce(u, a)
                                         else RunEnd(QueueOf(u, a), Min(QueueOf(u, a).Keys)))
    ensures Inv(q) && OnlyAccount(p, q, a) && ForgetsDropped(m, q, a)
    ensures AccountOf(q, a) ==
      AccountOf(m, a).(queue := if a in p.locals then QueueOf(m, a) else Lowest(QueueOf(m, a), cfg.accountQueue))
  {
    u := DropUnusable(p, a);
    m := MoveReady(u, a, cfg.priceBump);
    q := LimitQueue(m, a, cfg);
  }

  ghost function QueueLimit(p: Pool, a: Address, cfg: Config): Option<nat>
  {
    if a in p.locals then None else Some(cfg.accountQueue)
  }

  /** One account's turn in promoteExecutables. */
  method PromoteAccount(p: Pool, a: Address, cfg: Config) returns (q: Pool)
    requires Inv(p)
    ensures Inv(q) && OnlyAccount(p, q, a) && ForgetsDropped(p, q, a)
    ensures AccountOf(q, a) == Promoted(AccountOf(p, a), FundsOf(p.head, a), QueueLimit(p, a, cfg))
  {
    if a !in p.queue {
      PromotedNothing(AccountOf(p, a), FundsOf(p.head, a), QueueLimit(p, a, cfg));
      return p;
    }
    var u, m;
    u, m, q := PromoteStages(p, a, cfg);
    PromotionForgets(p, u, m, q, a);
  }

  // ---- demoteUnexecutables, one account ----

  /** Replaces an account's pending list by a part of it; `gone` leaves the pool, the rest of what
      was cut stays known. */
  method ShrinkPending(p: Pool, a: Address, l: TxList, gone: seq<Tx>) returns (q: Pool)
    requires Inv(p) && a in p.pending && ValidList(l) && l.strict && SubMap(l.items, PendingOf(p, a))
    requires forall x :: x in gone ==> x.from == a && x.nonce !in l.items && x.nonce !in QueueOf(p, a)
    ensures Inv(q) && OnlyAccount(p, q, a) && q.all == p.all - Elements(gone)
    ensures AccountOf(q, a) == AccountOf(p, a).(pending := l.items)
    ensures q.pending == SetPending(p.pending, a, l)
  {
    q := Forget(p, gone);
    q := q.(pending := SetPending(q.pending, a, l));
    assert Sound(AccountOf(p, a), a);
    forall x | Holds(AccountOf(q, a), x) ensures x in q.all {
      assert Holds(AccountOf(p, a), x);
    }
    AccountChange(p, q, a);
  }

  /** Moves the part `m` of an account's pending list back to its queue. */
  method Requeue(p: Pool, a: Address, l: TxList, m: NonceMap, gone: NonceMap, bump: nat) returns (q: Pool)
    requires Inv(p) && a in p.pending && ValidList(l) && l.strict
    requires SubMap(l.items, PendingOf(p, a)) && SubMap(m, PendingOf(p, a)) && SubMap(gone, PendingOf(p, a))
    requires l.items.Keys !! m.Keys && gone.Keys !! l.items.Keys && gone.Keys !! m.Keys
    ensures Inv(q) && OnlyAccount(p, q, a) && q.all == p.all - Elements(Flat(gone))
    ensures AccountOf(q, a) == AccountOf(p, a).(pending := l.items, queue := QueueOf(p, a) + m)
    ensures q.pending == SetPending(p.pending, a, l)
  {
    assert Sound(AccountOf(p, a), a);
    FlatElements(gone);
    q := ShrinkPending(p, a, l, Flat(gone));
    CutIsListed(p, q, a, m, gone);
    q := EnqueueAll(q, a, m, bump);
  }

  lemma CutIsListed(p: Pool, q: Pool, a: Address, m: NonceMap, gone: NonceMap)
    requires Inv(p) && SubMap(m, PendingOf(p, a)) && SubMap(gone, PendingOf(p, a)) && gone.Keys !! m.Keys
    requires q.all == p.all - Elements(Flat(gone))
    ensures Keyed(m) && m.Keys !! QueueOf(p, a).Keys && forall n :: n in m ==> m[n].from == a && m[n] in q.all
  {
    assert Sound(AccountOf(p, a), a);
    FlatElements(gone);
    forall n | n in m ensures m[n] in q.all {
      assert Holds(AccountOf(p, a), m[n]);
    }
  }

  /** Drops mined and unpayable transactions and queues again what the strict filter cut off. */
  method DemoteFiltered(p: Pool, a: Address, cfg: Config) returns (q: Pool, left: TxList)
    requires Inv(p) && a in p.pending
    ensures Inv(q) && OnlyAccount(p, q, a) && ValidList(left) && left.strict
    ensures q.pending == SetPending(p.pending, a, left)
    ensures var f := FundsOf(p.head, a);
            var live := NotBelow(PendingOf(p, a), f.nonce);
            var payable := PayableItems(live, false, f.balance, f.maxGas);
            left.items == PayableItems(live, true, f.balance, f.maxGas) &&
            q.all == p.all - Elements(Flat(PendingOf(p, a) - payable.Keys)) &&
            AccountOf(q, a) ==
              AccountOf(p, a).(pending := left.items, queue := QueueOf(p, a) + (payable - left.items.Keys))
  {
    var f := FundsOf(p.head, a);
    var list := p.pending[a];
    var live := list.(items := NotBelow(list.items, f.nonce));
    var payable := PayableItems(live.items, false, f.balance, f.maxGas);
    left := Filtered(live, f.balance, f.maxGas);
    EarlyExitIsFullScan(live, f.balance, f.maxGas);
    FilterParts(live.items, f.balance, f.maxGas);
    q := Requeue(p, a, left, payable - left.items.Keys, list.items - payable.Keys, cfg.priceBump);
  }

  lemma FilterParts(m: NonceMap, costLimit: nat, gasLimit: nat)
    ensures SubMap(PayableItems(m, false, costLimit, gasLimit), m)
    ensures SubMap(PayableItems(m, true, costLimit, gasLimit), PayableItems(m, false, costLimit, gasLimit))
  {
  }

  /** What demotion forgets is what the account lost. */
  lemma DemotionForgets(p: Pool, q: Pool, a: Address)
    requires Inv(p) && AccountOf(q, a) == Demoted(AccountOf(p, a), FundsOf(p.head, a))
    requires var f := FundsOf(p.head, a);
             var payable := PayableItems(NotBelow(PendingOf(p, a), f.nonce), false, f.balance, f.maxGas);
             q.all == p.all - Elements(Flat(PendingOf(p, a) - payable.Keys))
    ensures ForgetsDropped(p, q, a)
  {
    var acc, f := AccountOf(p, a), FundsOf(p.head, a);
    var live := NotBelow(acc.pending, f.nonce);
    var payable := PayableItems(live, false, f.balance, f.maxGas);
    var gone := acc.pending - payable.Keys;
    assert Sound(acc, a);
    FilterParts(live, f.balance, f.maxGas);
    FlatElements(gone);
    DemotedHolds(acc, a, f);
  }

  lemma DemotedHolds(acc: Account, a: Address, f: Funds)
    requires Sound(acc, a)
    ensures var payable := PayableItems(NotBelow(acc.pending, f.nonce), false, f.balance, f.maxGas);
            forall x :: Holds(Demoted(acc, f), x) <==> Holds(acc, x) && (x.nonce in acc.pending ==> x.nonce in payable)
  {
    FilterParts(NotBelow(acc.pending, f.nonce), f.balance, f.maxGas);
  }

  /** One account's turn in demoteUnexecutables. */
  method DemoteAccount(p: Pool, a: Address, cfg: Config) returns (q: Pool)
    requires Inv(p) && a in p.pending
    ensures Inv(q) && OnlyAccount(p, q, a) && ForgetsDropped(p, q, a)
    ensures AccountOf(q, a) == Demoted(AccountOf(p, a), FundsOf(p.head, a))
    ensures a in q.pending ==> PendingOf(q, a) != map[]
    ensures forall b :: b != a ==> (b in q.pending <==> b in p.pending)
  {
    var left;
    q, left := DemoteFiltered(p, a, cfg);
    if left.items != map[] && FundsOf(p.head, a).nonce !in left.items {
      q := Requeue(q, a, left.(items := map[]), left.items, map[], cfg.priceBump);
    }
    DemotionForgets(p, q, a);
  }
}
