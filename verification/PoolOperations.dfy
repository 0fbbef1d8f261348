/** The pool's operations over all accounts (core/tx_pool.go). Each is one step under the pool lock. */
module PoolOperations {
  import opened Transactions
  import opened NonceMaps
  import opened TxLists
  import opened PricedLists
  import opened PoolAccounts
  import opened PoolStates
  import opened PoolPromotion
  import opened PoolTruncation
  import opened PoolQueueLimit
  import opened WaterLevel
  import MapSums

  /** Between operations nothing is being removed. */
  ghost predicate Stable(p: Pool)
  {
    Inv(p) && p.leaving == {}
  }

  // ---- gap-freedom of the steps ----

  lemma PromotedGap(p: Pool, q: Pool, a: Address, cfg: Config)
    requires Inv(p) && OnlyAccount(p, q, a) && GapFreePool(p)
    requires AccountOf(q, a) == Promoted(AccountOf(p, a), FundsOf(p.head, a), QueueLimit(p, a, cfg))
    ensures GapFreePool(q)
  {
    assert Sound(AccountOf(p, a), a) && Executable(AccountOf(p, a), FundsOf(p.head, a));
    PromotedIsExecutable(AccountOf(p, a), a, FundsOf(p.head, a), QueueLimit(p, a, cfg));
    AccountGap(p, q, a);
  }

  lemma RemovedGap(p: Pool, q: Pool, tx: Tx)
    requires OnlyAccount(p, q, tx.from) && GapFreePool(p)
    requires AccountOf(q, tx.from) == PoolAccounts.Removed(AccountOf(p, tx.from), tx.nonce)
    ensures GapFreePool(q)
  {
    assert Executable(AccountOf(p, tx.from), FundsOf(p.head, tx.from));
    RemovedIsExecutable(AccountOf(p, tx.from), FundsOf(p.head, tx.from), tx.nonce);
    AccountGap(p, q, tx.from);
  }

  lemma CutGap(p: Pool, q: Pool, level: nat)
    requires CutTo(p, q, level, {}) && GapFreePool(p)
    ensures GapFreePool(q)
  {
    forall a ensures Executable(AccountOf(q, a), FundsOf(q.head, a)) {
      assert Executable(AccountOf(p, a), FundsOf(p.head, a)) && IsCut(p, q, a, level, {});
      TruncatedIsExecutable(AccountOf(p, a), FundsOf(p.head, a), level);
    }
  }

  lemma CutQueuesGap(p: Pool, q: Pool, cuts: map<Address, nat>)
    requires CutQueues(p, q, cuts) && GapFreePool(p)
    ensures GapFreePool(q)
  {
    forall a ensures Executable(AccountOf(q, a), FundsOf(q.head, a)) {
      assert Executable(AccountOf(p, a), FundsOf(p.head, a)) && QueueState(p, q, a, cuts);
    }
  }

  // ---- promoteExecutables ----

  ghost predicate PromotedState(p: Pool, q: Pool, a: Address, done: set<Address>, cfg: Config)
  {
    AccountOf(q, a) == if a in done then Promoted(AccountOf(p, a), FundsOf(p.head, a), QueueLimit(p, a, cfg))
      else AccountOf(p, a)
  }

  /** The accounts in `done` have been promoted, the others are untouched. */
  ghost predicate PromotedAll(p: Pool, q: Pool, done: set<Address>, cfg: Config)
  {
    SameSettings(p, q) && ForgetsLost(p, q) &&
    forall a {:trigger PromotedState(p, q, a, done, cfg)} :: PromotedState(p, q, a, done, cfg)
  }

  lemma PromoteOneMore(p: Pool, q: Pool, r: Pool, a: Address, done: set<Address>, cfg: Config)
    requires Inv(p) && Inv(q) && PromotedAll(p, q, done, cfg) && a !in done
    requires OnlyAccount(q, r, a) && ForgetsDropped(q, r, a)
    requires AccountOf(r, a) == Promoted(AccountOf(q, a), FundsOf(q.head, a), QueueLimit(q, a, cfg))
    ensures PromotedAll(p, r, done + {a}, cfg)
  {
    assert PromotedState(p, q, a, done, cfg);
    PromotionHolds(p, q, done, cfg);
    PromoteHolds(q, r, a, cfg);
    ForgetsOne(q, r, a);
    ForgetsTwice(p, q, r);
    PromoteStates(p, q, r, a, done, cfg);
  }

  lemma PromoteStates(p: Pool, q: Pool, r: Pool, a: Address, done: set<Address>, cfg: Config)
    requires PromotedAll(p, q, done, cfg) && a !in done && OnlyAccount(q, r, a)
    requires AccountOf(r, a) == Promoted(AccountOf(q, a), FundsOf(q.head, a), QueueLimit(q, a, cfg))
    ensures forall b {:trigger PromotedState(p, r, b, done + {a}, cfg)} :: PromotedState(p, r, b, done + {a}, cfg)
  {
    forall b ensures PromotedState(p, r, b, done + {a}, cfg) {
      assert PromotedState(p, q, b, done, cfg);
    }
  }

  lemma PromotionHolds(p: Pool, q: Pool, done: set<Address>, cfg: Config)
    requires Inv(p) && PromotedAll(p, q, done, cfg)
    ensures forall b :: HoldsNoMore(AccountOf(q, b), AccountOf(p, b))
  {
    forall b ensures HoldsNoMore(AccountOf(q, b), AccountOf(p, b)) {
      assert PromotedState(p, q, b, done, cfg) && Sound(AccountOf(p, b), b);
      PromotedIsSound(AccountOf(p, b), b, FundsOf(p.head, b), QueueLimit(p, b, cfg));
    }
  }

  lemma PromoteHolds(q: Pool, r: Pool, a: Address, cfg: Config)
    requires Inv(q) && OnlyAccount(q, r, a)
    requires AccountOf(r, a) == Promoted(AccountOf(q, a), FundsOf(q.head, a), QueueLimit(q, a, cfg))
    ensures forall b :: HoldsNoMore(AccountOf(r, b), AccountOf(q, b))
  {
    assert Sound(AccountOf(q, a), a);
    PromotedIsSound(AccountOf(q, a), a, FundsOf(q.head, a), QueueLimit(q, a, cfg));
  }

  /** Gives every account its turn, in any order. */
  method PromoteAccounts(p: Pool, accounts: set<Address>, cfg: Config) returns (q: Pool)
    requires Inv(p)
    ensures Inv(q) && PromotedAll(p, q, accounts, cfg) && (GapFreePool(p) ==> GapFreePool(q))
  {
    q := p;
    var rest := accounts;
    ghost var done: set<Address> := {};
    forall x ensures Accounted(p, p, x) {}
    while rest != {}
      invariant Inv(q) && PromotedAll(p, q, done, cfg) && (GapFreePool(p) ==> GapFreePool(q))
      invariant done + rest == accounts && done !! rest
      decreases rest
    {
      NonEmpty(rest);
      var a :| a in rest;
      ghost var before := q;
      q := PromoteAccount(q, a, cfg);
      PromoteOneMore(p, before, q, a, done, cfg);
      if GapFreePool(before) {
        PromotedGap(before, q, a, cfg);
      }
      done, rest := done + {a}, rest - {a};
    }
    assert done == accounts;
  }

  ghost predicate IsOrderOf(order: seq<Address>, accounts: set<Address>)
  {
    Distinct(order) && forall a :: a in order <==> a in accounts
  }

  /** Some order of a set of accounts; the source sorts them by last heartbeat. */
  method AnyOrder(accounts: set<Address>) returns (order: seq<Address>)
    ensures IsOrderOf(order, accounts)
  {
    order := [];
    var rest := accounts;
    while rest != {}
      invariant rest <= accounts && Distinct(order) && forall a :: a in order <==> a in accounts && a !in rest
    {
      NonEmpty(rest);
      var a :| a in rest;
      order, rest := order + [a], rest - {a};
    }
  }

  function QueueLens(p: Pool): map<Address, nat>
  {
    map a | a in p.queue :: |p.queue[a].items|
  }

  ghost function QueueTotal(p: Pool): int
  {
    MapSums.MapSum(AsInts(QueueLens(p)))
  }

  /** The accounts with a queue that may be cut. */
  function NonLocal(p: Pool): set<Address>
  {
    set a | a in p.queue && a !in p.locals
  }

  /** The queues, `total` transactions together, after the global limit: if they hold too much, the
      excess is taken from non-local accounts, whole queues first. */
  ghost predicate QueuesCut(p: Pool, q: Pool, cfg: Config, order: seq<Address>, cuts: map<Address, nat>, total: int)
  {
    if total <= cfg.globalQueue then q == p
    else
      IsOrderOf(order, NonLocal(p)) && CutQueues(p, q, cuts) && CutsWithin(cuts, order) &&
      KeptAlong(p, q, order, total - cfg.globalQueue)
  }

  ghost predicate QueueLimited(p: Pool, q: Pool, cfg: Config, order: seq<Address>, cuts: map<Address, nat>)
  {
    QueuesCut(p, q, cfg, order, cuts, QueueTotal(p))
  }

  method TruncateQueue(p: Pool, cfg: Config) returns (q: Pool, ghost order: seq<Address>, ghost cuts: map<Address, nat>)
    requires Inv(p)
    ensures Inv(q) && QueueLimited(p, q, cfg, order, cuts) && (GapFreePool(p) ==> GapFreePool(q)) && SameSettings(p, q)
  {
    var queued := CountLens(QueueLens(p));
    q, order, cuts := CutToLimit(p, cfg, queued);
  }

  method CutAlong(p: Pool, order: seq<Address>, excess: nat, cfg: Config)
    returns (q: Pool, ghost cuts: map<Address, nat>)
    requires Inv(p) && Distinct(order)
    ensures Inv(q) && CutQueues(p, q, cuts) && CutsWithin(cuts, order) && KeptAlong(p, q, order, excess)
    ensures GapFreePool(p) ==> GapFreePool(q)
  {
    q, cuts := LimitQueues(p, order, excess, cfg.priceBump);
    if GapFreePool(p) {
      CutQueuesGap(p, q, cuts);
    }
  }

  method CutToLimit(p: Pool, cfg: Config, queued: int)
    returns (q: Pool, ghost order: seq<Address>, ghost cuts: map<Address, nat>)
    requires Inv(p)
    ensures Inv(q) && QueuesCut(p, q, cfg, order, cuts, queued) && (GapFreePool(p) ==> GapFreePool(q))
    ensures SameSettings(p, q)
  {
    q, order, cuts := p, [], map[];
    if queued > cfg.globalQueue {
      var accounts := AnyOrder(NonLocal(p));
      order := accounts;
      q, cuts := CutAlong(p, accounts, queued - cfg.globalQueue, cfg);
    }
  }

  /** The pending lists after the global limit. */
  ghost predicate PendingLimited(p: Pool, q: Pool, cfg: Config, level: nat)
  {
    if PendingTotal(p) <= cfg.globalSlots then q == p
    else CutTo(p, q, level, {}) && IsFairLevel(Lens(p), p.locals, cfg.accountSlots, cfg.globalSlots, level)
  }

  /** What promoteExecutables went through: promotion, then the pending limit, then the queue limit. */
  datatype Promotion = Promotion(promoted: Pool, capped: Pool, level: nat, order: seq<Address>, cuts: map<Address, nat>)

  ghost predicate Promotes(p: Pool, q: Pool, accounts: set<Address>, cfg: Config, way: Promotion)
  {
    PromotedAll(p, way.promoted, accounts, cfg) &&
    PendingLimited(way.promoted, way.capped, cfg, way.level) &&
    QueueLimited(way.capped, q, cfg, way.order, way.cuts)
  }

  method PromoteExecutables(p: Pool, accounts: set<Address>, cfg: Config) returns (q: Pool, ghost way: Promotion)
    requires Inv(p)
    ensures Inv(q) && SameSettings(p, q) && Promotes(p, q, accounts, cfg, way) && (GapFreePool(p) ==> GapFreePool(q))
    ensures Floored(p) ==> Floored(q)
  {
    var m := PromoteAccounts(p, accounts, cfg);
    var c;
    ghost var level, order, cuts;
    c, level := LimitPending(m, cfg);
    q, order, cuts := TruncateQueue(c, cfg);
    way := Promotion(m, c, level, order, cuts);
    if Floored(p) {
      PromotesFloored(p, q, accounts, cfg, way);
    }
  }

  method LimitPending(p: Pool, cfg: Config) returns (q: Pool, ghost level: nat)
    requires Inv(p)
    ensures Inv(q) && SameSettings(p, q) && PendingLimited(p, q, cfg, level) && (GapFreePool(p) ==> GapFreePool(q))
  {
    q, level := TruncatePending(p, cfg);
    if PendingTotal(p) > cfg.globalSlots && GapFreePool(p) {
      CutGap(p, q, level);
    }
  }

  // ---- removing several transactions ----

  /** An account after the transactions `txs` were removed one by one; what is not in `all` (any more) is
      not there to be removed. */
  ghost function RemovedBy(acc: Account, all: set<Tx>, a: Address, txs: seq<Tx>): Account
  {
    if txs == [] then acc
    else
      var init, tx := txs[..|txs| - 1], txs[|txs| - 1];
      var r := RemovedBy(acc, all, a, init);
      if tx.from == a && tx in all - Elements(init) then PoolAccounts.Removed(r, tx.nonce) else r
  }

  ghost predicate RemovedState(p: Pool, q: Pool, a: Address, txs: seq<Tx>)
  {
    AccountOf(q, a) == RemovedBy(AccountOf(p, a), p.all, a, txs)
  }

  /** `txs` have been removed and nothing else has changed in the lists. */
  ghost predicate RemovesAll(p: Pool, q: Pool, txs: seq<Tx>)
  {
    q.all == p.all - Elements(txs) && forall a {:trigger RemovedState(p, q, a, txs)} :: RemovedState(p, q, a, txs)
  }

  lemma RemovesOneMore(p: Pool, q: Pool, r: Pool, txs: seq<Tx>, i: nat)
    requires i < |txs| && RemovesAll(p, q, txs[..i]) && OnlyAccount(q, r, txs[i].from)
    requires txs[i] !in q.all ==> r == q
    requires txs[i] in q.all ==> Removes(q, r, txs[i])
    ensures RemovesAll(p, r, txs[..i + 1])
  {
    ElementsNext(txs, i);
    assert txs[..i + 1][..i] == txs[..i];
    var next := txs[..i + 1];
    forall a ensures RemovedState(p, r, a, next) {
      assert RemovedState(p, q, a, txs[..i]);
    }
  }

  method RemoveAll(p: Pool, txs: seq<Tx>, cfg: Config) returns (q: Pool)
    requires Inv(p)
    ensures Inv(q) && SameSettings(p, q) && RemovesAll(p, q, txs) && (GapFreePool(p) ==> GapFreePool(q))
  {
    q := p;
    forall a ensures RemovedState(p, p, a, txs[..0]) {}
    for i := 0 to |txs|
      invariant Inv(q) && SameSettings(p, q) && RemovesAll(p, q, txs[..i]) && (GapFreePool(p) ==> GapFreePool(q))
    {
      ghost var before := q;
      q := RemoveOne(q, txs[i], cfg);
      RemovesOneMore(p, before, q, txs, i);
    }
    assert txs[..|txs|] == txs;
  }

  lemma ElementsNext(s: seq<Tx>, i: nat)
    requires i < |s|
    ensures Elements(s[..i + 1]) == Elements(s[..i]) + {s[i]}
  {
    assert s[..i + 1] == s[..i] + [s[i]];
  }

  method RemoveOne(p: Pool, tx: Tx, cfg: Config) returns (q: Pool)
    requires Inv(p)
    ensures Inv(q) && OnlyAccount(p, q, tx.from) && (GapFreePool(p) ==> GapFreePool(q))
    ensures tx !in p.all ==> q == p
    ensures tx in p.all ==> Removes(p, q, tx)
  {
    q := RemoveTx(p, tx, cfg.priceBump);
    if tx in p.all && GapFreePool(p) {
      RemovedGap(p, q, tx);
    }
  }

  // ---- the price floor ----

  /** Everything that is known is local or meets the pool's price floor. */
  ghost predicate Floored(p: Pool)
  {
    forall x {:trigger x in p.all} :: x in p.all ==> IsLocal(p.locals, x) || x.price >= p.gasPrice
  }

  lemma FewerFloored(p: Pool, q: Pool)
    requires Floored(p) && q.all <= p.all && q.locals == p.locals && q.gasPrice == p.gasPrice
    ensures Floored(q)
  {
  }

  lemma LostIsFewer(p: Pool, q: Pool)
    requires ForgetsLost(p, q)
    ensures q.all <= p.all
  {
    forall x | x in q.all ensures x in p.all {
      assert Accounted(p, q, x);
    }
  }

  lemma PromotesFloored(p: Pool, q: Pool, accounts: set<Address>, cfg: Config, way: Promotion)
    requires Floored(p) && Promotes(p, q, accounts, cfg, way) && q.locals == p.locals && q.gasPrice == p.gasPrice
    ensures Floored(q)
  {
    LostIsFewer(p, way.promoted);
    if way.capped != way.promoted {
      LostIsFewer(way.promoted, way.capped);
    }
    if q != way.capped {
      LostIsFewer(way.capped, q);
    }
    FewerFloored(p, q);
  }

  // ---- SetGasPrice ----

  /** The invariants look at the lists, `all` and the price list, not at heads, nonces or settings. */
  lemma SameListsKeep(p: Pool, q: Pool)
    requires Inv(p) && q.pending == p.pending && q.queue == p.queue && q.all == p.all && Priced(q)
    ensures Inv(q)
  {
    forall a ensures Sound(AccountOf(q, a), a) {
      assert Sound(AccountOf(p, a), a);
    }
    forall a, x | Holds(AccountOf(q, a), x) ensures x in q.all {
      assert Holds(AccountOf(p, a), x);
    }
  }

  /** Changing the price list or the settings leaves the account invariants alone. */
  lemma SameAccounts(p: Pool, q: Pool)
    requires Inv(p) && q.pending == p.pending && q.queue == p.queue && q.tracked == p.tracked && q.head == p.head
    requires q.all == p.all && Priced(q)
    ensures Inv(q) && (GapFreePool(p) ==> GapFreePool(q))
  {
    SameListsKeep(p, q);
    if GapFreePool(p) {
      forall a ensures Executable(AccountOf(q, a), FundsOf(q.head, a)) {
        assert Executable(AccountOf(p, a), FundsOf(p.head, a));
      }
    }
  }

  /** Raising the price floor removes exactly the non-local transactions below it. */
  method SetGasPrice(p: Pool, price: nat, cfg: Config) returns (q: Pool, ghost drop: seq<Tx>)
    requires Stable(p)
    ensures Stable(q) && (GapFreePool(p) ==> GapFreePool(q))
    ensures q.gasPrice == price && q.head == p.head && q.locals == p.locals
    ensures forall x :: x in q.all <==> x in p.all && (IsLocal(p.locals, x) || x.price >= price)
    ensures RemovesAll(p, q, drop) && Floored(q)
  {
    var h, n, out := CapPrices(p.heap, p.stales, price, p.all, p.locals);
    drop := out;
    q := TakeOut(p, p.(gasPrice := price, heap := h, stales := n, leaving := set x | x in out), out, cfg);
  }

  /** Removes what the price list has handed out; `m` is the pool with the price list after that. */
  method TakeOut(p: Pool, m: Pool, drop: seq<Tx>, cfg: Config) returns (q: Pool)
    requires Stable(p) && Priced(m)
    requires m == p.(gasPrice := m.gasPrice, heap := m.heap, stales := m.stales, leaving := Elements(drop))
    ensures Stable(q) && q.head == p.head && q.locals == p.locals && q.gasPrice == m.gasPrice
    ensures RemovesAll(p, q, drop) && (GapFreePool(p) ==> GapFreePool(q))
  {
    SameAccounts(p, m);
    q := RemoveAll(m, drop, cfg);
    ghost var removed := q;
    q := Settle(q);
    forall a ensures RemovedState(p, q, a, drop) {
      assert RemovedState(m, removed, a, drop);
      assert AccountOf(m, a) == AccountOf(p, a) && AccountOf(q, a) == AccountOf(removed, a);
    }
  }

  /** The handed-out transactions are gone: nothing is being removed any more. */
  method Settle(p: Pool) returns (q: Pool)
    requires Inv(p) && p.all !! p.leaving
    ensures Stable(q) && q == p.(leaving := {}) && (GapFreePool(p) ==> GapFreePool(q))
  {
    q := p.(leaving := {});
    assert p.all - p.leaving == p.all;
    SameAccounts(p, q);
  }

  // ---- add ----

  datatype AddError =
    | Known | OversizedData | NegativeValue | GasLimit | InvalidSender | Underpriced | NonceTooLow
    | InsufficientFunds | IntrinsicGas | ReplaceUnderpriced

  datatype AddResult = Added(replaced: bool) | Refused(error: AddError)

  /** What is checked of a transaction without looking at the pool. */
  datatype Facts = Facts(oversized: bool, negative: bool, signed: bool, intrinsicGas: nat)

  /** The checks of validateTx in their order. */
  function Validate(p: Pool, tx: Tx, local: bool, facts: Facts): Option<AddError>
  {
    var f := FundsOf(p.head, tx.from);
    if facts.oversized then Some(OversizedData)
    else if facts.negative then Some(NegativeValue)
    else if f.maxGas < tx.gas then Some(GasLimit)
    else if !facts.signed then Some(InvalidSender)
    else if !local && tx.from !in p.locals && p.gasPrice > tx.price then Some(Underpriced)
    else if f.nonce > tx.nonce then Some(NonceTooLow)
    else if f.balance < tx.cost then Some(InsufficientFunds)
    else if tx.gas < facts.intrinsicGas then Some(IntrinsicGas)
    else None
  }

  /** Makes room in a full pool: either the newcomer is no better than the cheapest transaction, or
      the cheapest non-local ones go. */
  method MakeRoom(p: Pool, tx: Tx, cfg: Config) returns (q: Pool, room: bool, drop: seq<Tx>)
    requires Stable(p) && |p.all| >= cfg.globalSlots + cfg.globalQueue
    ensures Stable(q) && SameSettings(p, q) && (GapFreePool(p) ==> GapFreePool(q))
    ensures room <==> WorthIt(p, tx)
    ensures !room ==> SameLists(p, q) && q.all == p.all
    ensures room ==> RemovesAll(p, q, drop) && Cheapest(p, drop, |p.all| - cfg.globalSlots - cfg.globalQueue + 1)
  {
    drop := [];
    var h, n, under := IsUnderpriced(p.heap, p.stales, tx, p.all, p.locals);
    var m := p.(heap := h, stales := n);
    SameAccounts(p, m);
    room := !under;
    if under {
      return m, room, drop;
    }
    q, drop := DropCheapest(m, |p.all| - cfg.globalSlots - cfg.globalQueue + 1, cfg);
    forall a ensures RemovedState(p, q, a, drop) {
      assert RemovedState(m, q, a, drop) && AccountOf(m, a) == AccountOf(p, a);
    }
  }

  /** `drop` are known non-local transactions, at most `count`; none that stays is cheaper, and fewer
      than `count` only if all non-local ones go. */
  ghost predicate Cheapest(p: Pool, drop: seq<Tx>, count: nat)
  {
    |drop| <= count && (forall x :: x in drop ==> x in p.all && !IsLocal(p.locals, x)) &&
    (forall d, x :: d in drop && x in p.all && x !in drop && !IsLocal(p.locals, x) ==> d.price <= x.price) &&
    (|drop| < count ==> forall x :: x in p.all && !IsLocal(p.locals, x) ==> x in drop)
  }

  method DropCheapest(p: Pool, count: nat, cfg: Config) returns (q: Pool, drop: seq<Tx>)
    requires Stable(p)
    ensures Stable(q) && SameSettings(p, q) && RemovesAll(p, q, drop) && (GapFreePool(p) ==> GapFreePool(q))
    ensures Cheapest(p, drop, count)
  {
    var h, n;
    h, n, drop := DiscardCheapest(p.heap, p.stales, count, p.all, p.locals);
    q := TakeOut(p, p.(heap := h, stales := n, leaving := set x | x in drop), drop, cfg);
  }

  /** Replaces a pending transaction of the same nonce, or is refused. */
  method ReplacePending(p: Pool, tx: Tx, cfg: Config) returns (q: Pool, result: AddResult)
    requires Stable(p) && tx.nonce in PendingOf(p, tx.from)
    ensures Stable(q) && OnlyAccount(p, q, tx.from) && (GapFreePool(p) ==> GapFreePool(q))
    ensures var previous := PendingOf(p, tx.from)[tx.nonce];
            if Accepts(PendingList(p, tx.from), tx, cfg.priceBump) then
              result == Added(true) && q.all == p.all - {previous} + {tx} && previous.price < tx.price &&
              AccountOf(q, tx.from) == AccountOf(p, tx.from).(pending := PendingOf(p, tx.from)[tx.nonce := tx])
            else result == Refused(ReplaceUnderpriced) && q == p
  {
    var list := p.pending[tx.from];
    if !Accepts(list, tx, cfg.priceBump) {
      return p, Refused(ReplaceUnderpriced);
    }
    var previous := list.items[tx.nonce];
    q := p.(pending := p.pending[tx.from := TxLists.Added(list, tx)]);
    q := Forget(q, [previous]);
    q := Remember(q, tx);
    ReplacedChange(p, q, tx);
    result := Added(true);
  }

  lemma ReplacedChange(p: Pool, q: Pool, tx: Tx)
    requires Inv(p) && tx.nonce in PendingOf(p, tx.from) && Priced(q) && SameSettings(p, q)
    requires q.tracked == p.tracked && q.queue == p.queue
    requires q.pending == p.pending[tx.from := TxLists.Added(p.pending[tx.from], tx)]
    requires q.all == p.all - {PendingOf(p, tx.from)[tx.nonce]} + {tx}
    ensures Inv(q) && OnlyAccount(p, q, tx.from) && (GapFreePool(p) ==> GapFreePool(q))
    ensures AccountOf(q, tx.from) == AccountOf(p, tx.from).(pending := PendingOf(p, tx.from)[tx.nonce := tx])
  {
    var a := tx.from;
    assert Sound(AccountOf(p, a), a);
    AddedIsValid(p.pending[a], tx);
    forall x | Holds(AccountOf(q, a), x) ensures x in q.all {
      if x != tx {
        assert Holds(AccountOf(p, a), x);
      }
    }
    AccountChange(p, q, a);
    if GapFreePool(p) {
      assert Executable(AccountOf(p, a), FundsOf(p.head, a));
      AccountGap(p, q, a);
    }
  }

  /** What filing a transaction does: it goes to the list that has its nonce pending, or to the queue,
      unless it meets one of that nonce that it does not outbid. */
  ghost predicate Placed(p: Pool, q: Pool, tx: Tx, local: bool, cfg: Config, result: AddResult)
  {
    var acc := AccountOf(p, tx.from);
    var pending := tx.nonce in acc.pending;
    var list := if pending then PendingList(p, tx.from) else QueueList(p, tx.from);
    q.head == p.head && q.gasPrice == p.gasPrice &&
    (forall b {:trigger AccountOf(q, b)} :: b != tx.from ==> AccountOf(q, b) == AccountOf(p, b)) &&
    if Accepts(list, tx, cfg.priceBump) then
      result == Added(tx.nonce in list.items) &&
      q.all == p.all - (if tx.nonce in list.items then {list.items[tx.nonce]} else {}) + {tx} &&
      AccountOf(q, tx.from) == (if pending then acc.(pending := acc.pending[tx.nonce := tx])
        else acc.(queue := acc.queue[tx.nonce := tx])) &&
      q.locals == p.locals + (if local && !pending then {tx.from} else {})
    else
      result == Refused(ReplaceUnderpriced) && q.all == p.all && q.locals == p.locals && AccountOf(q, tx.from) == acc
  }

  /** A replacement costs more than what it replaces, and a cheap newcomer is local. */
  lemma PlacedFloored(p: Pool, q: Pool, tx: Tx, local: bool, cfg: Config, result: AddResult)
    requires Inv(p) && Floored(p) && Placed(p, q, tx, local, cfg, result)
    requires local || tx.from in p.locals || tx.price >= p.gasPrice
    ensures Floored(q)
  {
    if tx.nonce in PendingOf(p, tx.from) {
      var previous := PendingOf(p, tx.from)[tx.nonce];
      assert Sound(AccountOf(p, tx.from), tx.from) && Holds(AccountOf(p, tx.from), previous);
    }
  }

  /** Queues a transaction whose nonce is not pending, and notes its sender as local if asked to. */
  method QueueNew(p: Pool, tx: Tx, local: bool, cfg: Config) returns (q: Pool, result: AddResult)
    requires Stable(p) && tx.nonce !in PendingOf(p, tx.from)
    ensures Stable(q) && (GapFreePool(p) ==> GapFreePool(q)) && Placed(p, q, tx, local, cfg, result)
  {
    var accepted, previous;
    q, accepted, previous := EnqueueTx(p, tx, cfg.priceBump);
    if GapFreePool(p) {
      assert Executable(AccountOf(p, tx.from), FundsOf(p.head, tx.from));
      AccountGap(p, q, tx.from);
    }
    if !accepted {
      return q, Refused(ReplaceUnderpriced);
    }
    result := Added(previous.Some?);
    if local {
      q := NoteLocal(q, tx.from);
    }
  }

  method NoteLocal(p: Pool, a: Address) returns (q: Pool)
    requires Stable(p)
    ensures Stable(q) && q == p.(locals := p.locals + {a}) && (GapFreePool(p) ==> GapFreePool(q))
    ensures forall b {:trigger AccountOf(q, b)} :: AccountOf(q, b) == AccountOf(p, b)
  {
    q := p.(locals := p.locals + {a});
    SameAccounts(p, q);
  }

  /** Files the transaction in the list that already has its nonce, or in the queue. */
  method Place(p: Pool, tx: Tx, local: bool, cfg: Config) returns (q: Pool, result: AddResult)
    requires Stable(p)
    ensures Stable(q) && (GapFreePool(p) ==> GapFreePool(q)) && Placed(p, q, tx, local, cfg, result)
    ensures Floored(p) && (local || tx.from in p.locals || tx.price >= p.gasPrice) ==> Floored(q)
  {
    if tx.nonce in PendingOf(p, tx.from) {
      q, result := ReplacePending(p, tx, cfg);
    } else {
      q, result := QueueNew(p, tx, local, cfg);
    }
    if Floored(p) && (local || tx.from in p.locals || tx.price >= p.gasPrice) {
      PlacedFloored(p, q, tx, local, cfg, result);
    }
  }

  /** A full pool. */
  predicate Full(p: Pool, cfg: Config)
  {
    |p.all| >= cfg.globalSlots + cfg.globalQueue
  }

  /** The newcomer is local, the first, or dearer than some known transaction. */
  ghost predicate WorthIt(p: Pool, tx: Tx)
  {
    IsLocal(p.locals, tx) || p.all == {} || exists x :: x in p.all && x.price < tx.price
  }

  /** How the pool takes an offered transaction; `m` is the pool after room was made and `drop` what
      had to go for it. */
  ghost predicate Adds(p: Pool, m: Pool, drop: seq<Tx>, q: Pool, tx: Tx, local: bool, facts: Facts, cfg: Config,
                       result: AddResult)
  {
    var invalid := Validate(p, tx, local, facts);
    if tx in p.all then q == p && result == Refused(Known)
    else if invalid.Some? then q == p && result == Refused(invalid.value)
    else if Full(p, cfg) && !WorthIt(p, tx) then SameLists(p, q) && q.all == p.all && result == Refused(Underpriced)
    else
      (if Full(p, cfg) then
         SameSettings(p, m) && RemovesAll(p, m, drop) &&
         Cheapest(p, drop, |p.all| - cfg.globalSlots - cfg.globalQueue + 1)
       else m == p) &&
      Placed(m, q, tx, local, cfg, result)
  }

  /** One transaction offered to the pool. */
  method Add(p: Pool, tx: Tx, local: bool, facts: Facts, cfg: Config)
    returns (q: Pool, result: AddResult, ghost m: Pool, ghost drop: seq<Tx>)
    requires Stable(p)
    ensures Stable(q) && (GapFreePool(p) ==> GapFreePool(q)) && Adds(p, m, drop, q, tx, local, facts, cfg, result)
    ensures Floored(p) ==> Floored(q)
  {
    q, m, drop := p, p, [];
    if tx in p.all {
      return q, Refused(Known), m, drop;
    }
    var invalid := Validate(p, tx, local, facts);
    if invalid.Some? {
      return q, Refused(invalid.value), m, drop;
    }
    if Full(p, cfg) {
      var room, gone;
      q, room, gone := MakeRoom(p, tx, cfg);
      m, drop := q, gone;
      if !room {
        return q, Refused(Underpriced), m, drop;
      }
    }
    q, result := Place(q, tx, local, cfg);
  }

  /** Whatever is taken is held, and nothing but the sender of a local one becomes local. */
  lemma AddedIsHeld(p: Pool, m: Pool, drop: seq<Tx>, q: Pool, tx: Tx, local: bool, facts: Facts, cfg: Config,
                    result: AddResult)
    requires Adds(p, m, drop, q, tx, local, facts, cfg, result)
    ensures q.head == p.head && q.gasPrice == p.gasPrice
    ensures p.locals <= q.locals <= p.locals + (if local then {tx.from} else {})
    ensures result.Added? ==> tx in q.all && Holds(AccountOf(q, tx.from), tx)
  {
  }

  /** The checks pass exactly what is well-formed, can still be included and paid for at the head, and is local or at
      the price floor; an error names what is wrong. */
  lemma ValidExactly(p: Pool, tx: Tx, local: bool, facts: Facts)
    ensures var f := FundsOf(p.head, tx.from);
            Validate(p, tx, local, facts).None? <==>
              !facts.oversized && !facts.negative && facts.signed && facts.intrinsicGas <= tx.gas <= f.maxGas &&
              f.nonce <= tx.nonce && tx.cost <= f.balance &&
              (local || tx.from in p.locals || p.gasPrice <= tx.price)
    ensures var f, r := FundsOf(p.head, tx.from), Validate(p, tx, local, facts);
            (r == Some(NonceTooLow) ==> tx.nonce < f.nonce) && (r == Some(InsufficientFunds) ==> f.balance < tx.cost) &&
            (r == Some(GasLimit) ==> f.maxGas < tx.gas) && (r == Some(IntrinsicGas) ==> tx.gas < facts.intrinsicGas) &&
            (r == Some(Underpriced) ==> !local && tx.from !in p.locals && tx.price < p.gasPrice) &&
            (r == Some(OversizedData) ==> facts.oversized) && (r == Some(NegativeValue) ==> facts.negative) &&
            (r == Some(InvalidSender) ==> !facts.signed) && r != Some(Known) && r != Some(ReplaceUnderpriced)
  {
  }

  /** Whatever is taken can still be included and paid for at the head, and is local or at the price floor. */
  lemma AddedIsSane(p: Pool, m: Pool, drop: seq<Tx>, q: Pool, tx: Tx, local: bool, facts: Facts, cfg: Config,
                    result: AddResult)
    requires Adds(p, m, drop, q, tx, local, facts, cfg, result) && result.Added?
    ensures var f := FundsOf(p.head, tx.from);
            f.nonce <= tx.nonce && tx.cost <= f.balance && facts.intrinsicGas <= tx.gas <= f.maxGas
    ensures !facts.oversized && !facts.negative && facts.signed
    ensures local || tx.from in p.locals || p.gasPrice <= tx.price
  {
  }

  lemma OneGone(all: set<Tx>, gone: set<Tx>, x: Tx)
    requires x in all && x in gone
    ensures |all - gone| < |all|
  {
    SubsetSize(all - gone, all - {x});
    assert |all - {x}| == |all| - 1;
  }

  lemma {:induction false} SubsetSize(a: set<Tx>, b: set<Tx>)
    requires a <= b
    ensures |a| <= |b|
    decreases a
  {
    if a != {} {
      var x :| x in a;
      SubsetSize(a - {x}, b - {x});
    }
  }

  /** A pool below its limit gives up nothing for a newcomer, and one at the limit does not grow as long as it has
      something that is not local. */
  lemma AddKeepsWithin(p: Pool, m: Pool, drop: seq<Tx>, q: Pool, tx: Tx, local: bool, facts: Facts, cfg: Config,
                       result: AddResult)
    requires Adds(p, m, drop, q, tx, local, facts, cfg, result) && result.Added?
    ensures |p.all| < cfg.globalSlots + cfg.globalQueue ==> m == p
    ensures |p.all| >= cfg.globalSlots + cfg.globalQueue && (exists x :: x in p.all && !IsLocal(p.locals, x)) ==>
              |q.all| <= |p.all|
  {
    if |p.all| >= cfg.globalSlots + cfg.globalQueue && exists x :: x in p.all && !IsLocal(p.locals, x) {
      var x :| x in p.all && !IsLocal(p.locals, x);
      assert drop != [] by {
        assert |drop| == 0 ==> x in drop;
      }
      assert drop[0] in drop && drop[0] in Elements(drop);
      OneGone(p.all, Elements(drop), drop[0]);
      SubsetSize(q.all, m.all + {tx});
    }
  }

  /** The senders that gained a nonce they did not have in either list. */
  function Dirty(txs: seq<Tx>, results: seq<AddResult>): set<Address>
    requires |results| == |txs|
  {
    set i | 0 <= i < |txs| && results[i] == Added(false) :: txs[i].from
  }

  ghost predicate AddStep(p: Pool, q: Pool, tx: Tx, local: bool, facts: Facts, cfg: Config, result: AddResult)
  {
    exists m, drop {:trigger Adds(p, m, drop, q, tx, local, facts, cfg, result)} ::
      Adds(p, m, drop, q, tx, local, facts, cfg, result)
  }

  /** The pools a batch goes through, one step for each transaction. */
  ghost predicate Batch(trace: seq<Pool>, txs: seq<Tx>, local: bool, factsOf: Tx -> Facts, cfg: Config,
                        results: seq<AddResult>)
  {
    |trace| == |results| + 1 && |results| <= |txs| &&
    forall i {:trigger results[i]} :: 0 <= i < |results| ==>
      AddStep(trace[i], trace[i + 1], txs[i], local, factsOf(txs[i]), cfg, results[i])
  }

  method AddEach(p: Pool, txs: seq<Tx>, local: bool, factsOf: Tx -> Facts, cfg: Config)
    returns (q: Pool, results: seq<AddResult>, ghost trace: seq<Pool>)
    requires Stable(p)
    ensures Stable(q) && (GapFreePool(p) ==> GapFreePool(q)) && q.head == p.head && q.gasPrice == p.gasPrice
    ensures Batch(trace, txs, local, factsOf, cfg, results) && |results| == |txs| && trace[0] == p && trace[|txs|] == q
    ensures Floored(p) ==> Floored(q)
  {
    q, results, trace := p, [], [p];
    for i := 0 to |txs|
      invariant Stable(q) && (GapFreePool(p) ==> GapFreePool(q)) && q.head == p.head && q.gasPrice == p.gasPrice
      invariant Batch(trace, txs, local, factsOf, cfg, results) && |results| == i && trace[0] == p && trace[i] == q
      invariant Floored(p) ==> Floored(q)
    {
      var result;
      ghost var before, m, drop := q, q, [];
      q, result, m, drop := Add(q, txs[i], local, factsOf(txs[i]), cfg);
      AddedIsHeld(before, m, drop, q, txs[i], local, factsOf(txs[i]), cfg, result);
      assert AddStep(before, q, txs[i], local, factsOf(txs[i]), cfg, result);
      results, trace := results + [result], trace + [q];
    }
  }

  /** Offering leaves the head alone. */
  lemma {:induction false} BatchHead(trace: seq<Pool>, txs: seq<Tx>, local: bool, factsOf: Tx -> Facts, cfg: Config,
                                     results: seq<AddResult>, i: nat)
    requires Batch(trace, txs, local, factsOf, cfg, results) && i <= |results|
    ensures trace[i].head == trace[0].head
  {
    if i > 0 {
      BatchHead(trace, txs, local, factsOf, cfg, results, i - 1);
      assert AddStep(trace[i - 1], trace[i], txs[i - 1], local, factsOf(txs[i - 1]), cfg, results[i - 1]);
      var m, drop :| Adds(trace[i - 1], m, drop, trace[i], txs[i - 1], local, factsOf(txs[i - 1]), cfg, results[i - 1]);
      AddedIsHeld(trace[i - 1], m, drop, trace[i], txs[i - 1], local, factsOf(txs[i - 1]), cfg, results[i - 1]);
    }
  }

  lemma TakenIsPayable(trace: seq<Pool>, txs: seq<Tx>, local: bool, factsOf: Tx -> Facts, cfg: Config,
                       results: seq<AddResult>, i: nat)
    requires Batch(trace, txs, local, factsOf, cfg, results) && i < |results| && results[i].Added?
    ensures var f := FundsOf(trace[|results|].head, txs[i].from); Payable(txs[i], f.balance, f.maxGas)
  {
    BatchHead(trace, txs, local, factsOf, cfg, results, i);
    BatchHead(trace, txs, local, factsOf, cfg, results, |results|);
    assert AddStep(trace[i], trace[i + 1], txs[i], local, factsOf(txs[i]), cfg, results[i]);
    var m, drop :| Adds(trace[i], m, drop, trace[i + 1], txs[i], local, factsOf(txs[i]), cfg, results[i]);
    AddedIsSane(trace[i], m, drop, trace[i + 1], txs[i], local, factsOf(txs[i]), cfg, results[i]);
  }

  /** The sender of `tx` has been promoted on the way from `p` to `q`: nothing that is queued could be executed next,
      the queue is within its limit, and `tx` is pending if it was at the next nonce of a gap-free account. */
  ghost predicate Executed(p: Pool, q: Pool, tx: Tx, cfg: Config)
  {
    var a := tx.from;
    (forall n :: n in QueueOf(q, a) ==> NextNonce(q, a) < n) &&
    (a !in p.locals ==> |QueueOf(q, a)| <= cfg.accountQueue) &&
    (Executable(AccountOf(p, a), FundsOf(p.head, a)) && tx.nonce == NextNonce(p, a) && tx.nonce in QueueOf(p, a) &&
     QueueOf(p, a)[tx.nonce] == tx ==>
       tx.nonce in PendingOf(q, a) && PendingOf(q, a)[tx.nonce] == tx)
  }

  /** No transaction of `a` was taken as a new one. */
  ghost predicate NothingNew(txs: seq<Tx>, results: seq<AddResult>, a: Address)
    requires |results| == |txs|
  {
    forall i {:trigger txs[i]} :: 0 <= i < |txs| && txs[i].from == a ==> results[i] != AddResult.Added(false)
  }

  /** What is promoted after a batch, before the limits: the senders of new transactions and nobody else. */
  ghost predicate PromotesNew(p: Pool, q: Pool, txs: seq<Tx>, results: seq<AddResult>, cfg: Config)
    requires |results| == |txs|
  {
    (forall i {:trigger txs[i]} :: 0 <= i < |txs| && results[i] == AddResult.Added(false) ==>
       Executed(p, q, txs[i], cfg)) &&
    forall a {:trigger NothingNew(txs, results, a)} ::
      NothingNew(txs, results, a) ==> AccountOf(q, a) == AccountOf(p, a)
  }

  lemma DirtyIsNew(txs: seq<Tx>, results: seq<AddResult>, a: Address)
    requires |results| == |txs|
    ensures a in Dirty(txs, results) <==> !NothingNew(txs, results, a)
  {
    if !NothingNew(txs, results, a) {
      var i :| 0 <= i < |txs| && txs[i].from == a && results[i] == AddResult.Added(false);
      assert txs[i].from in Dirty(txs, results);
    }
  }

  lemma ExecutedBy(p: Pool, q: Pool, dirty: set<Address>, tx: Tx, cfg: Config)
    requires Inv(p) && PromotedState(p, q, tx.from, dirty, cfg) && tx.from in dirty
    requires var f := FundsOf(p.head, tx.from); Payable(tx, f.balance, f.maxGas)
    ensures Executed(p, q, tx, cfg)
  {
    var a := tx.from;
    var acc, f, limit := AccountOf(p, a), FundsOf(p.head, a), QueueLimit(p, a, cfg);
    assert Sound(acc, a);
    PromotedIsClean(acc, f, limit);
    if Executable(acc, f) && tx.nonce == acc.next && tx.nonce in acc.queue && acc.queue[tx.nonce] == tx {
      NextIsPromoted(acc, a, f, limit);
    }
  }

  lemma PromotesNewOf(trace: seq<Pool>, q: Pool, txs: seq<Tx>, local: bool, factsOf: Tx -> Facts, cfg: Config,
                      results: seq<AddResult>)
    requires Batch(trace, txs, local, factsOf, cfg, results) && |results| == |txs| && Inv(trace[|txs|])
    requires var dirty := Dirty(txs, results);
             if dirty == {} then q == trace[|txs|] else PromotedAll(trace[|txs|], q, dirty, cfg)
    ensures PromotesNew(trace[|txs|], q, txs, results, cfg)
  {
    var p, dirty := trace[|txs|], Dirty(txs, results);
    forall i | 0 <= i < |txs| && results[i] == AddResult.Added(false) ensures Executed(p, q, txs[i], cfg) {
      assert txs[i].from in dirty && PromotedState(p, q, txs[i].from, dirty, cfg);
      TakenIsPayable(trace, txs, local, factsOf, cfg, results, i);
      ExecutedBy(p, q, dirty, txs[i], cfg);
    }
    forall a | NothingNew(txs, results, a) ensures AccountOf(q, a) == AccountOf(p, a) {
      DirtyIsNew(txs, results, a);
      assert dirty != {} ==> PromotedState(p, q, a, dirty, cfg);
    }
  }

  /** A batch of transactions; the senders that gained a new nonce are then promoted. */
  method AddTxs(p: Pool, txs: seq<Tx>, local: bool, factsOf: Tx -> Facts, cfg: Config)
    returns (q: Pool, results: seq<AddResult>, ghost trace: seq<Pool>, ghost way: Promotion)
    requires Stable(p)
    ensures Stable(q) && (GapFreePool(p) ==> GapFreePool(q)) && q.head == p.head && q.gasPrice == p.gasPrice
    ensures Batch(trace, txs, local, factsOf, cfg, results) && |results| == |txs| && trace[0] == p && Inv(trace[|txs|])
    ensures if Dirty(txs, results) == {} then q == trace[|txs|]
      else Promotes(trace[|txs|], q, Dirty(txs, results), cfg, way)
    ensures PromotesNew(trace[|txs|], way.promoted, txs, results, cfg)
    ensures (forall i {:trigger results[i]} :: 0 <= i < |results| ==> results[i] != AddResult.Added(false)) ==>
              q == way.promoted == trace[|txs|]
    ensures Floored(p) ==> Floored(q)
  {
    q, results, trace := AddEach(p, txs, local, factsOf, cfg);
    var dirty := Dirty(txs, results);
    way := Promotion(q, q, 0, [], map[]);
    if dirty != {} {
      q, way := PromoteExecutables(q, dirty, cfg);
    }
    PromotesNewOf(trace, way.promoted, txs, local, factsOf, cfg, results);
  }

  // ---- eviction ----

  ghost predicate Queued(p: Pool, a: Address, x: Tx)
  {
    x.nonce in QueueOf(p, a) && QueueOf(p, a)[x.nonce] == x
  }

  ghost function NoncesOf(txs: seq<Tx>): set<nat>
  {
    set x | x in txs :: x.nonce
  }

  /** Removing queued transactions of different nonces leaves everything else of the account alone. */
  lemma {:induction false} RemovedByQueued(acc: Account, all: set<Tx>, a: Address, txs: seq<Tx>)
    requires Sound(acc, a) && forall x :: x in txs ==> x.from == a && x in all && x.nonce in acc.queue
    requires forall i, j :: 0 <= i < j < |txs| ==> txs[i].nonce < txs[j].nonce
    ensures RemovedBy(acc, all, a, txs) == acc.(queue := acc.queue - NoncesOf(txs))
  {
    if txs == [] {
      assert acc.queue - {} == acc.queue;
    } else {
      var init, tx := txs[..|txs| - 1], txs[|txs| - 1];
      RemovedByQueued(acc, all, a, init);
      assert txs == init + [tx];
      LastIsNew(txs, init, tx);
      MinusTwice(acc.queue, NoncesOf(init), tx.nonce);
    }
  }

  lemma LastIsNew(txs: seq<Tx>, init: seq<Tx>, tx: Tx)
    requires txs == init + [tx] && forall i, j :: 0 <= i < j < |txs| ==> txs[i].nonce < txs[j].nonce
    ensures tx !in init && NoncesOf(txs) == NoncesOf(init) + {tx.nonce}
  {
    forall x | x in init ensures x.nonce < tx.nonce {
      var i :| 0 <= i < |init| && init[i] == x;
      assert txs[i] == x && txs[|init|] == tx;
    }
    forall n | n in NoncesOf(init) + {tx.nonce} ensures n in NoncesOf(txs) {
      if n == tx.nonce {
        assert tx in txs;
      } else {
        var x :| x in init && x.nonce == n;
        assert x in txs;
      }
    }
  }

  lemma MinusTwice(m: NonceMap, gone: set<nat>, n: nat)
    ensures m - (gone + {n}) == m - gone - {n}
  {
  }

  lemma {:induction false} RemovedByOthers(acc: Account, all: set<Tx>, a: Address, b: Address, txs: seq<Tx>)
    requires a != b && forall x :: x in txs ==> x.from == a
    ensures RemovedBy(acc, all, b, txs) == acc
  {
    if txs != [] {
      RemovedByOthers(acc, all, a, b, txs[..|txs| - 1]);
    }
  }

  lemma EvictedAccounts(p: Pool, q: Pool, a: Address)
    requires Inv(p) && RemovesAll(p, q, Flat(QueueOf(p, a)))
    ensures AccountOf(q, a) == AccountOf(p, a).(queue := map[])
    ensures forall b :: b != a ==> AccountOf(q, b) == AccountOf(p, b)
  {
    var acc, txs := AccountOf(p, a), Flat(QueueOf(p, a));
    assert Sound(acc, a);
    FlatElements(acc.queue);
    FlatAscends(acc.queue);
    assert forall x :: x in txs ==> Holds(acc, x);
    RemovedByQueued(acc, p.all, a, txs);
    assert RemovedState(p, q, a, txs);
    forall n | n in acc.queue ensures n in NoncesOf(txs) {
      assert acc.queue[n] in txs;
    }
    assert acc.queue - NoncesOf(txs) == map[];
    forall b | b != a ensures AccountOf(q, b) == AccountOf(p, b) {
      assert RemovedState(p, q, b, txs);
      RemovedByOthers(AccountOf(p, b), p.all, a, b, txs);
    }
  }

  /** Drops a non-local account's queue once its lifetime has passed. */
  method Evict(p: Pool, a: Address, cfg: Config) returns (q: Pool)
    requires Stable(p)
    ensures Stable(q) && SameSettings(p, q) && (GapFreePool(p) ==> GapFreePool(q))
    ensures if a in p.locals then q == p else forall x :: x in q.all <==> x in p.all && !Queued(p, a, x)
    ensures a !in p.locals ==> OnlyAccount(p, q, a) && AccountOf(q, a) == AccountOf(p, a).(queue := map[])
    ensures Floored(p) ==> Floored(q)
  {
    if a in p.locals {
      return p;
    }
    assert Sound(AccountOf(p, a), a);
    FlatElements(QueueOf(p, a));
    q := RemoveAll(p, Flat(QueueOf(p, a)), cfg);
    EvictedAccounts(p, q, a);
  }
}
