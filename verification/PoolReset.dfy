/** A new chain head (core/tx_pool.go): the pool's state is replaced, transactions of a discarded branch
    are offered again, and pending ones that can no longer be executed go back to the queue. */
module PoolResets {
  import opened Transactions
  import opened NonceMaps
  import opened TxLists
  import opened PoolAccounts
  import opened PoolReorgs
  import opened PoolStates
  import opened PoolPromotion
  import opened PoolTruncation
  import opened PoolQueueLimit
  import opened PoolOperations

  // ---- demotion ----

  ghost predicate DemotedState(p: Pool, q: Pool, a: Address, done: set<Address>)
  {
    AccountOf(q, a) == if a in done then Demoted(AccountOf(p, a), FundsOf(p.head, a)) else AccountOf(p, a)
  }

  ghost predicate DemotedAll(p: Pool, q: Pool, done: set<Address>)
  {
    SameSettings(p, q) && ForgetsLost(p, q) && forall a {:trigger DemotedState(p, q, a, done)} ::
      DemotedState(p, q, a, done)
  }

  /** Gives every account with pending transactions its turn in demoteUnexecutables. */
  method DemoteUnexecutables(p: Pool, cfg: Config) returns (q: Pool)
    requires Inv(p)
    ensures Inv(q) && DemotedAll(p, q, p.pending.Keys) && NoneEmpty(q, q.pending.Keys)
  {
    q := p;
    var rest := p.pending.Keys;
    ghost var done: set<Address> := {};
    forall x ensures Accounted(p, p, x) {}
    while rest != {}
      invariant Inv(q) && DemotedAll(p, q, done) && NoneEmpty(q, done)
      invariant done + rest == p.pending.Keys && done !! rest && rest <= q.pending.Keys <= p.pending.Keys
      decreases rest
    {
      NonEmpty(rest);
      var a :| a in rest;
      ghost var before := q;
      q := DemoteAccount(q, a, cfg);
      DemoteOneMore(p, before, q, a, done);
      done, rest := done + {a}, rest - {a};
    }
    assert done == p.pending.Keys;
  }

  /** Of these accounts, those with a pending list have something in it. */
  ghost predicate NoneEmpty(p: Pool, done: set<Address>)
  {
    forall a {:trigger PendingOf(p, a)} :: a in done && a in p.pending ==> PendingOf(p, a) != map[]
  }

  lemma DemoteOneMore(p: Pool, q: Pool, r: Pool, a: Address, done: set<Address>)
    requires Inv(p) && Inv(q) && DemotedAll(p, q, done) && NoneEmpty(q, done) && a !in done
    requires OnlyAccount(q, r, a) && ForgetsDropped(q, r, a)
    requires AccountOf(r, a) == Demoted(AccountOf(q, a), FundsOf(q.head, a))
    requires a in r.pending ==> PendingOf(r, a) != map[]
    requires forall b :: b != a ==> (b in r.pending <==> b in q.pending)
    ensures DemotedAll(p, r, done + {a}) && NoneEmpty(r, done + {a})
  {
    DemotionHoldsLess(p, q, done);
    DemoteHoldsLess(q, r, a);
    ForgetsOne(q, r, a);
    ForgetsTwice(p, q, r);
    DemoteStates(p, q, r, a, done);
  }

  lemma DemoteStates(p: Pool, q: Pool, r: Pool, a: Address, done: set<Address>)
    requires DemotedAll(p, q, done) && NoneEmpty(q, done) && a !in done && OnlyAccount(q, r, a)
    requires AccountOf(r, a) == Demoted(AccountOf(q, a), FundsOf(q.head, a))
    requires a in r.pending ==> PendingOf(r, a) != map[]
    requires forall b :: b != a ==> (b in r.pending <==> b in q.pending)
    ensures NoneEmpty(r, done + {a})
    ensures forall b {:trigger DemotedState(p, r, b, done + {a})} :: DemotedState(p, r, b, done + {a})
  {
    assert DemotedState(p, q, a, done);
    forall b ensures DemotedState(p, r, b, done + {a}) {
      assert DemotedState(p, q, b, done);
    }
    forall b | b in done + {a} && b in r.pending ensures PendingOf(r, b) != map[] {
      if b != a {
        assert AccountOf(r, b) == AccountOf(q, b) && PendingOf(q, b) != map[];
      }
    }
  }

  lemma DemotionHoldsLess(p: Pool, q: Pool, done: set<Address>)
    requires Inv(p) && DemotedAll(p, q, done)
    ensures forall b :: HoldsNoMore(AccountOf(q, b), AccountOf(p, b))
  {
    forall b ensures HoldsNoMore(AccountOf(q, b), AccountOf(p, b)) {
      assert DemotedState(p, q, b, done) && Sound(AccountOf(p, b), b);
      DemotedIsSound(AccountOf(p, b), b, FundsOf(p.head, b));
    }
  }

  lemma DemoteHoldsLess(q: Pool, r: Pool, a: Address)
    requires Inv(q) && OnlyAccount(q, r, a) && AccountOf(r, a) == Demoted(AccountOf(q, a), FundsOf(q.head, a))
    ensures forall b :: HoldsNoMore(AccountOf(r, b), AccountOf(q, b))
  {
    assert Sound(AccountOf(q, a), a);
    DemotedIsSound(AccountOf(q, a), a, FundsOf(q.head, a));
  }

  ghost predicate ReindexedState(p: Pool, q: Pool, a: Address)
  {
    AccountOf(q, a) == Reindexed(AccountOf(p, a), FundsOf(p.head, a))
  }

  ghost predicate ReindexedAll(p: Pool, q: Pool)
  {
    SameSettings(p, q) && ForgetsLost(p, q) && forall a {:trigger ReindexedState(p, q, a)} :: ReindexedState(p, q, a)
  }

  lemma DemotedNothing(acc: Account, f: Funds)
    requires acc.pending == map[]
    ensures Demoted(acc, f) == acc
  {
    var live := NotBelow(acc.pending, f.nonce);
    assert live == map[];
    var kept, payable := PayableItems(live, true, f.balance, f.maxGas), PayableItems(live, false, f.balance, f.maxGas);
    assert kept == map[] && acc.queue + (payable - kept.Keys) == acc.queue;
  }

  /** The nonce after the last pending one becomes the next expected nonce. */
  method TrackNonces(p: Pool) returns (q: Pool)
    requires Inv(p) && NoneEmpty(p, p.pending.Keys)
    ensures Inv(q) && SameSettings(p, q) && q.all == p.all
    ensures forall a {:trigger AccountOf(q, a)} :: AccountOf(q, a) ==
              if PendingOf(p, a) == map[] then AccountOf(p, a) else Renumbered(AccountOf(p, a), FundsOf(p.head, a))
  {
    var ends := map a | a in p.pending :: (assert PendingOf(p, a) != map[]; Max(p.pending[a].items.Keys) + 1);
    q := p.(tracked := p.tracked + ends);
    SameListsKeep(p, q);
  }

  method Reindex(p: Pool, cfg: Config) returns (q: Pool)
    requires Inv(p)
    ensures Inv(q) && ReindexedAll(p, q) && (Floored(p) ==> Floored(q))
  {
    var d := DemoteUnexecutables(p, cfg);
    q := TrackNonces(d);
    forall x ensures Accounted(p, q, x) {
      assert Accounted(p, d, x);
    }
    LostIsFewer(p, q);
    forall a ensures ReindexedState(p, q, a) {
      assert DemotedState(p, d, a, p.pending.Keys);
      if a !in p.pending {
        DemotedNothing(AccountOf(p, a), FundsOf(p.head, a));
      }
      assert AccountOf(q, a) == if PendingOf(d, a) == map[] then AccountOf(d, a)
        else Renumbered(AccountOf(d, a), FundsOf(p.head, a));
    }
  }

  // ---- the accounts while the discarded branch is offered again ----

  /** Account `a` is as a change of head from `before` left it, but for what was added and removed since. */
  ghost predicate ReloadedAt(p: Pool, a: Address, before: Head)
  {
    Reloaded(AccountOf(p, a), FundsOf(before, a).nonce, FundsOf(p.head, a))
  }

  ghost predicate ExecutableAt(p: Pool, a: Address)
  {
    Executable(AccountOf(p, a), FundsOf(p.head, a))
  }

  lemma ReloadOf(p: Pool, m: Pool, a: Address)
    requires ExecutableAt(p, a) && m == p.(head := m.head, tracked := map[])
    ensures ReloadedAt(m, a, p.head)
  {
    var f := FundsOf(m.head, a);
    ReloadedFromExecutable(AccountOf(p, a), FundsOf(p.head, a), f);
    assert AccountOf(m, a) == AccountOf(p, a).(next := f.nonce);
  }

  lemma {:induction false} RemovedByIsReloaded(acc: Account, all: set<Tx>, a: Address, txs: seq<Tx>, from: nat,
                                               f: Funds)
    requires Reloaded(acc, from, f)
    ensures Reloaded(RemovedBy(acc, all, a, txs), from, f)
  {
    if txs != [] {
      var init := txs[..|txs| - 1];
      RemovedByIsReloaded(acc, all, a, init, from, f);
      RemovedIsReloaded(RemovedBy(acc, all, a, init), from, f, txs[|txs| - 1].nonce);
    }
  }

  lemma RemovalsReloaded(p: Pool, q: Pool, txs: seq<Tx>, a: Address, before: Head)
    requires ReloadedAt(p, a, before) && RemovesAll(p, q, txs) && q.head == p.head
    ensures ReloadedAt(q, a, before)
  {
    assert RemovedState(p, q, a, txs);
    RemovedByIsReloaded(AccountOf(p, a), p.all, a, txs, FundsOf(before, a).nonce, FundsOf(p.head, a));
  }

  lemma PlacedReloaded(p: Pool, q: Pool, tx: Tx, local: bool, cfg: Config, result: AddResult, a: Address, before: Head)
    requires ReloadedAt(p, a, before) && Placed(p, q, tx, local, cfg, result)
    ensures ReloadedAt(q, a, before)
  {
    if a == tx.from && tx.nonce in PendingOf(p, a) {
      ReplacedIsReloaded(AccountOf(p, a), FundsOf(before, a).nonce, FundsOf(p.head, a), tx);
    }
  }

  lemma AddReloaded(p: Pool, q: Pool, tx: Tx, local: bool, facts: Facts, cfg: Config, result: AddResult, a: Address,
                    before: Head)
    requires ReloadedAt(p, a, before) && AddStep(p, q, tx, local, facts, cfg, result)
    ensures ReloadedAt(q, a, before)
  {
    var m, drop :| Adds(p, m, drop, q, tx, local, facts, cfg, result);
    if tx in p.all || Validate(p, tx, local, facts).Some? {
    } else if Full(p, cfg) && !WorthIt(p, tx) {
      assert AccountOf(q, a) == AccountOf(p, a);
    } else {
      if Full(p, cfg) {
        RemovalsReloaded(p, m, drop, a, before);
      }
      PlacedReloaded(m, q, tx, local, cfg, result, a, before);
    }
  }

  /** Offering transactions keeps an account as the change of head left it. */
  lemma BatchReloaded(trace: seq<Pool>, txs: seq<Tx>, local: bool, factsOf: Tx -> Facts, cfg: Config,
                      results: seq<AddResult>, a: Address, before: Head)
    requires Batch(trace, txs, local, factsOf, cfg, results) && ReloadedAt(trace[0], a, before)
    ensures ReloadedAt(trace[|results|], a, before)
  {
    for i := 0 to |results|
      invariant ReloadedAt(trace[i], a, before)
    {
      AddReloaded(trace[i], trace[i + 1], txs[i], local, factsOf(txs[i]), cfg, results[i], a, before);
    }
  }

  // ---- reset ----

  /** What a reset went through: the pools while the discarded branch was offered and the answers, the
      promotion of the senders that gained a nonce, the pool demoted and renumbered, and the
      promotion at the end. */
  datatype Stages = Stages(trace: seq<Pool>, results: seq<AddResult>, first: Promotion, reinjected: Pool,
                           reindexed: Pool, last: Promotion)

  /** The stages of a reset from `p` to `q`. */
  ghost predicate ResetsBy(p: Pool, q: Pool, head: Head, reinject: seq<Tx>, factsOf: Tx -> Facts, cfg: Config,
                           stages: Stages)
  {
    Batch(stages.trace, reinject, false, factsOf, cfg, stages.results) && |stages.results| == |reinject| &&
    stages.trace[0] == p.(head := head, tracked := map[]) &&
    Reoffers(stages.trace[|reinject|], stages.reinjected, Dirty(reinject, stages.results), cfg, stages.first) &&
    ReindexedAll(stages.reinjected, stages.reindexed) &&
    Promotes(stages.reindexed, q, stages.reindexed.queue.Keys, cfg, stages.last)
  }

  ghost predicate Reoffers(p: Pool, q: Pool, dirty: set<Address>, cfg: Config, way: Promotion)
  {
    if dirty == {} then q == p else Promotes(p, q, dirty, cfg, way)
  }

  /** How far the pending limit of a promotion cut an account, if it did. */
  ghost function CutLevel(way: Promotion, a: Address, cfg: Config): Option<nat>
  {
    if PendingTotal(way.promoted) <= cfg.globalSlots || a in way.promoted.locals then None else Some(way.level)
  }

  /** The same for the promotion while the discarded branch was reinjected; there is none if nobody gained a nonce. */
  ghost function FirstLevel(dirty: set<Address>, way: Promotion, a: Address, cfg: Config): Option<nat>
  {
    if dirty == {} then None else CutLevel(way, a, cfg)
  }

  lemma CappedAccount(way: Promotion, cfg: Config, a: Address)
    requires PendingLimited(way.promoted, way.capped, cfg, way.level)
    ensures AccountOf(way.capped, a) == Capped(AccountOf(way.promoted, a), CutLevel(way, a, cfg))
    ensures way.capped.head == way.promoted.head
  {
    if PendingTotal(way.promoted) > cfg.globalSlots {
      assert IsCut(way.promoted, way.capped, a, way.level, {});
    }
  }

  lemma LimitedAccount(p: Pool, q: Pool, cfg: Config, order: seq<Address>, cuts: map<Address, nat>, a: Address)
    requires QueueLimited(p, q, cfg, order, cuts)
    ensures SameButQueue(AccountOf(q, a), AccountOf(p, a)) && q.head == p.head
  {
    if q != p {
      assert QueueState(p, q, a, cuts);
    }
  }

  /** An account after a promotion: its turn if it has one, the pending limit, and a queue that may have been cut. */
  lemma PromotesAccount(p: Pool, q: Pool, accounts: set<Address>, cfg: Config, way: Promotion, a: Address, m: Account)
    requires Promotes(p, q, accounts, cfg, way)
    requires m == if a in accounts then Promoted(AccountOf(p, a), FundsOf(p.head, a), QueueLimit(p, a, cfg))
      else AccountOf(p, a)
    ensures SameButQueue(AccountOf(q, a), Capped(m, CutLevel(way, a, cfg))) && FundsOf(q.head, a) == FundsOf(p.head, a)
  {
    assert PromotedState(p, way.promoted, a, accounts, cfg);
    CappedAccount(way, cfg, a);
    LimitedAccount(way.capped, q, cfg, way.order, way.cuts, a);
  }

  /** Demotion looks at what is pending and at the next nonce; what is queued makes no difference to these. */
  lemma QueueMakesNoDifference(x: Account, y: Account, f: Funds)
    requires SameButQueue(x, y)
    ensures SameButQueue(Reindexed(x, f), Reindexed(y, f))
  {
  }

  /** Whether an account that was executable is so when the reset is through, and before the last promotion,
      decided by the account as it was when the discarded branch had been offered and by how far the
      pending limits cut. */
  ghost predicate ResetOutcome(p: Pool, q: Pool, stages: Stages, reinject: seq<Tx>, a: Address, cfg: Config)
    requires |stages.results| == |reinject| && |stages.trace| == |reinject| + 1
  {
    var added, dirty := stages.trace[|reinject|], Dirty(reinject, stages.results);
    var acc, from, f := AccountOf(added, a), FundsOf(p.head, a).nonce, FundsOf(added.head, a);
    var level := FirstLevel(dirty, stages.first, a, cfg);
    Reloaded(acc, from, f) &&
    (ExecutableAt(stages.reindexed, a) <==> StaysExecutable(acc, from, f, a in dirty, level)) &&
    (ExecutableAt(q, a) <==> EndsExecutable(acc, from, f, a in dirty, level, CutLevel(stages.last, a, cfg)))
  }

  /** The account after reinjection, demotion and renumbering is that of the account-level stages. */
  lemma SettledAt(added: Pool, m: Pool, q: Pool, dirty: set<Address>, cfg: Config, way: Promotion, a: Address)
    requires Reoffers(added, m, dirty, cfg, way) && ReindexedAll(m, q)
    ensures var f := FundsOf(added.head, a);
            FundsOf(q.head, a) == f &&
            SameButQueue(AccountOf(q, a), PoolReorgs.Settled(AccountOf(added, a), f, a in dirty,
              QueueLimit(added, a, cfg), FirstLevel(dirty, way, a, cfg)))
  {
    var acc, f, level := AccountOf(added, a), FundsOf(added.head, a), FirstLevel(dirty, way, a, cfg);
    var turn := if a in dirty then Promoted(acc, f, QueueLimit(added, a, cfg)) else acc;
    if dirty != {} {
      PromotesAccount(added, m, dirty, cfg, way, a, turn);
    }
    QueueMakesNoDifference(AccountOf(m, a), Capped(turn, level), f);
    assert ReindexedState(m, q, a);
  }

  /** The account when the reset is through; where nothing is queued there is nothing to promote. */
  lemma EndedAt(p: Pool, q: Pool, cfg: Config, way: Promotion, a: Address)
    requires Promotes(p, q, p.queue.Keys, cfg, way)
    ensures var f := FundsOf(p.head, a);
            FundsOf(q.head, a) == f &&
            SameButQueue(AccountOf(q, a), Ended(AccountOf(p, a), f, QueueLimit(p, a, cfg), CutLevel(way, a, cfg)))
  {
    var turn := Promoted(AccountOf(p, a), FundsOf(p.head, a), QueueLimit(p, a, cfg));
    if a !in p.queue {
      PromotedNothing(AccountOf(p, a), FundsOf(p.head, a), QueueLimit(p, a, cfg));
    }
    PromotesAccount(p, q, p.queue.Keys, cfg, way, a, turn);
  }

  lemma ResetOutcomeAt(p: Pool, q: Pool, head: Head, reinject: seq<Tx>, factsOf: Tx -> Facts, cfg: Config,
                       stages: Stages, a: Address)
    requires ExecutableAt(p, a) && ResetsBy(p, q, head, reinject, factsOf, cfg, stages)
    requires Inv(stages.trace[|reinject|]) && Inv(stages.reindexed)
    ensures ResetOutcome(p, q, stages, reinject, a, cfg)
  {
    var added, dirty := stages.trace[|reinject|], Dirty(reinject, stages.results);
    ReloadOf(p, stages.trace[0], a);
    BatchReloaded(stages.trace, reinject, false, factsOf, cfg, stages.results, a, p.head);
    assert Sound(AccountOf(added, a), a) && Sound(AccountOf(stages.reindexed, a), a);
    SettledAt(added, stages.reinjected, stages.reindexed, dirty, cfg, stages.first, a);
    EndedAt(stages.reindexed, q, cfg, stages.last, a);
    OutcomeOf(AccountOf(added, a), a, FundsOf(p.head, a).nonce, FundsOf(added.head, a), a in dirty,
              QueueLimit(added, a, cfg), FirstLevel(dirty, stages.first, a, cfg), AccountOf(stages.reindexed, a),
              QueueLimit(stages.reindexed, a, cfg), CutLevel(stages.last, a, cfg));
  }

  lemma OutcomeOf(acc: Account, a: Address, from: nat, f: Funds, gained: bool, limit: Option<nat>, level: Option<nat>,
                  r: Account, limit2: Option<nat>, last: Option<nat>)
    requires Sound(acc, a) && Reloaded(acc, from, f)
    requires Sound(r, a) && SameButQueue(r, PoolReorgs.Settled(acc, f, gained, limit, level))
    ensures Executable(r, f) <==> StaysExecutable(acc, from, f, gained, level)
    ensures Executable(Ended(r, f, limit2, last), f) <==> EndsExecutable(acc, from, f, gained, level, last)
  {
    SettledIsExecutable(acc, a, from, f, gained, limit, level);
    ResetIsExecutable(acc, a, from, f, gained, limit, level, r, limit2, last);
  }

  /** The outcome of a reset for every account that was executable before. */
  ghost predicate ResetOutcomes(p: Pool, q: Pool, stages: Stages, reinject: seq<Tx>, cfg: Config)
    requires |stages.results| == |reinject| && |stages.trace| == |reinject| + 1
  {
    forall a {:trigger ResetOutcome(p, q, stages, reinject, a, cfg)} :: ExecutableAt(p, a) ==>
      ResetOutcome(p, q, stages, reinject, a, cfg)
  }

  lemma ResetOutcomesOf(p: Pool, q: Pool, head: Head, reinject: seq<Tx>, factsOf: Tx -> Facts, cfg: Config,
                        stages: Stages)
    requires ResetsBy(p, q, head, reinject, factsOf, cfg, stages)
    requires Inv(stages.trace[|reinject|]) && Inv(stages.reindexed)
    ensures ResetOutcomes(p, q, stages, reinject, cfg)
  {
    forall a | ExecutableAt(p, a) ensures ResetOutcome(p, q, stages, reinject, a, cfg) {
      ResetOutcomeAt(p, q, head, reinject, factsOf, cfg, stages, a);
    }
  }

  ghost predicate StillExecutable(p: Pool, q: Pool)
  {
    forall a {:trigger ExecutableAt(q, a)} :: ExecutableAt(p, a) ==> ExecutableAt(q, a)
  }

  /** Where nothing is reinjected, no pending list gets a gap, wherever the head goes. */
  lemma NothingReinjected(p: Pool, q: Pool, head: Head, factsOf: Tx -> Facts, cfg: Config, stages: Stages)
    requires ResetsBy(p, q, head, [], factsOf, cfg, stages) && Inv(stages.trace[0]) && Inv(stages.reindexed)
    ensures StillExecutable(p, stages.reindexed) && StillExecutable(p, q)
  {
    forall a | ExecutableAt(p, a) ensures ExecutableAt(stages.reindexed, a) && ExecutableAt(q, a) {
      ResetOutcomeAt(p, q, head, [], factsOf, cfg, stages, a);
      assert AccountOf(stages.trace[0], a).next == FundsOf(head, a).nonce;
    }
  }

  lemma StillGapFree(p: Pool, q: Pool)
    requires StillExecutable(p, q) && GapFreePool(p)
    ensures GapFreePool(q)
  {
    forall a ensures Executable(AccountOf(q, a), FundsOf(q.head, a)) {
      assert ExecutableAt(p, a) && ExecutableAt(q, a);
    }
  }

  /** A new head. For each account that had no gap before, `EndsExecutable` decides whether it has one now. */
  method Reset(p: Pool, head: Head, reinject: seq<Tx>, factsOf: Tx -> Facts, cfg: Config)
    returns (q: Pool, ghost stages: Stages)
    requires Stable(p)
    ensures Stable(q) && q.head == head && q.gasPrice == p.gasPrice && (Floored(p) ==> Floored(q))
    ensures ResetsBy(p, q, head, reinject, factsOf, cfg, stages) && ResetOutcomes(p, q, stages, reinject, cfg)
    ensures GapFreePool(stages.reindexed) ==> GapFreePool(q)
    ensures reinject == [] ==> StillExecutable(p, q)
    ensures GapFreePool(p) && reinject == [] ==> GapFreePool(q)
  {
    var m := Reload(p, head);
    var results;
    ghost var trace, first, last;
    q, results, trace, first := AddTxs(m, reinject, false, factsOf, cfg);
    ghost var reinjected := q;
    q := Reindex(q, cfg);
    ghost var reindexed := q;
    q, last := PromoteExecutables(q, q.queue.Keys, cfg);
    stages := Stages(trace, results, first, reinjected, reindexed, last);
    ResetOutcomesOf(p, q, head, reinject, factsOf, cfg, stages);
    if reinject == [] {
      NothingReinjected(p, q, head, factsOf, cfg, stages);
      if GapFreePool(p) {
        StillGapFree(p, q);
      }
    }
  }

  method Reload(p: Pool, head: Head) returns (q: Pool)
    requires Stable(p)
    ensures Stable(q) && q == p.(head := head, tracked := map[])
  {
    q := p.(head := head, tracked := map[]);
    SameListsKeep(p, q);
  }
}
