/** The transaction pool's state and its single-account operations (core/tx_pool.go). Loops work on
    a local copy of the state; what they leave behind is stated account by account. */
module PoolStates {
  import opened Transactions
  import opened NonceMaps
  import opened TxLists
  import opened PricedLists
  import opened PoolAccounts

  /** The chain state the pool validates against. */
  datatype Head = Head(nonces: map<Address, nat>, balances: map<Address, nat>, maxGas: nat)

  datatype Config = Config(priceBump: nat, accountSlots: nat, globalSlots: nat, accountQueue: nat, globalQueue: nat)

  /** `tracked` holds the nonces that the managed state overrides; `heap` and `stales` are the price
      list; `leaving` are the transactions that the price list has handed out and that are being
      removed. */
  datatype Pool = Pool(head: Head, tracked: map<Address, nat>,
                       pending: map<Address, TxList>, queue: map<Address, TxList>,
                       all: set<Tx>, heap: seq<Tx>, stales: int,
                       locals: set<Address>, gasPrice: nat, leaving: set<Tx>)

  function FundsOf(head: Head, a: Address): Funds
  {
    Funds(if a in head.nonces then head.nonces[a] else 0,
          if a in head.balances then head.balances[a] else 0,
          head.maxGas)
  }

  function NextNonce(p: Pool, a: Address): nat
  {
    if a in p.tracked then p.tracked[a] else FundsOf(p.head, a).nonce
  }

  function PendingOf(p: Pool, a: Address): NonceMap
  {
    if a in p.pending then p.pending[a].items else map[]
  }

  function QueueOf(p: Pool, a: Address): NonceMap
  {
    if a in p.queue then p.queue[a].items else map[]
  }

  function AccountOf(p: Pool, a: Address): Account
  {
    Account(PendingOf(p, a), QueueOf(p, a), NextNonce(p, a))
  }

  // ---- invariants ----

  ghost predicate ListsValid(p: Pool)
  {
    (forall a :: a in p.pending ==> ValidList(p.pending[a]) && p.pending[a].strict) &&
    (forall a :: a in p.queue ==> ValidList(p.queue[a]) && !p.queue[a].strict)
  }

  /** No account has a nonce in both of its lists. */
  ghost predicate AccountsSound(p: Pool)
  {
    forall a {:trigger Sound(AccountOf(p, a), a)} :: Sound(AccountOf(p, a), a)
  }

  /** Every listed transaction is in `all`. */
  ghost predicate Listed(p: Pool)
  {
    forall a, x {:trigger Holds(AccountOf(p, a), x)} :: Holds(AccountOf(p, a), x) ==> x in p.all
  }

  /** Every transaction in `all` that is not being removed has an entry in the price heap. */
  ghost predicate Priced(p: Pool)
  {
    IsPriceHeap(p.heap) && Covers(p.heap, p.all - p.leaving)
  }

  ghost predicate Inv(p: Pool)
  {
    ListsValid(p) && AccountsSound(p) && Listed(p) && Priced(p)
  }

  /** Every account's pending nonces are exactly those from its state nonce up to the next one. */
  ghost predicate GapFreePool(p: Pool)
  {
    forall a {:trigger Executable(AccountOf(p, a), FundsOf(p.head, a))} ::
      Executable(AccountOf(p, a), FundsOf(p.head, a))
  }

  ghost predicate SameSettings(p: Pool, q: Pool)
  {
    q.head == p.head && q.locals == p.locals && q.gasPrice == p.gasPrice && q.leaving == p.leaving
  }

  /** Apart from account `a`, the lists and nonces are as before, and so are the settings. */
  ghost predicate OnlyAccount(p: Pool, q: Pool, a: Address)
  {
    SameSettings(p, q) &&
    forall b :: b != a ==> AccountOf(q, b) == AccountOf(p, b)
  }

  /** Everything but the price list and `all` is as before. */
  ghost predicate SameLists(p: Pool, q: Pool)
  {
    SameSettings(p, q) &&
    q.tracked == p.tracked && q.pending == p.pending && q.queue == p.queue
  }

  ghost function Elements(s: seq<Tx>): set<Tx>
  {
    set x | x in s
  }

  /** A change to one account that only drops transactions of that account keeps the invariants. */
  lemma AccountChange(p: Pool, q: Pool, a: Address)
    requires Inv(p) && OnlyAccount(p, q, a) && ListsValid(q) && Priced(q)
    requires Sound(AccountOf(q, a), a)
    requires forall x :: Holds(AccountOf(q, a), x) ==> x in q.all
    requires forall x :: x in p.all && x !in q.all ==> x.from == a
    ensures Inv(q)
  {
    forall b ensures Sound(AccountOf(q, b), b) {}
    forall b, x | Holds(AccountOf(q, b), x) ensures x in q.all {
      if b != a {
        assert Holds(AccountOf(p, b), x) && x.from == b;
      }
    }
  }

  lemma AccountGap(p: Pool, q: Pool, a: Address)
    requires GapFreePool(p) && OnlyAccount(p, q, a)
    requires Executable(AccountOf(q, a), FundsOf(q.head, a))
    ensures GapFreePool(q)
  {
    forall b ensures Executable(AccountOf(q, b), FundsOf(q.head, b)) {
      assert Executable(AccountOf(p, b), FundsOf(p.head, b));
    }
  }

  // ---- forgetting transactions ----

  /** delete(all, tx) followed by priced.Removed(), for each transaction. */
  method Forget(p: Pool, txs: seq<Tx>) returns (q: Pool)
    requires Priced(p)
    ensures SameLists(p, q) && q.all == p.all - Elements(txs) && Priced(q)
  {
    q := p;
    for i := 0 to |txs|
      invariant SameLists(p, q) && q.all == p.all - Elements(txs[..i]) && Priced(q)
    {
      var all := q.all - {txs[i]};
      var h, n := CountRemoved(q.heap, q.stales, all);
      q := q.(all := all, heap := h, stales := n);
      assert txs[..i + 1] == txs[..i] + [txs[i]];
    }
    assert txs[..|txs|] == txs;
  }

  /** all[tx] = tx followed by priced.Put(tx). */
  method Remember(p: Pool, tx: Tx) returns (q: Pool)
    requires Priced(p)
    ensures SameLists(p, q) && q.all == p.all + {tx} && Priced(q)
  {
    var h := PushOne(p.heap, tx);
    q := p.(all := p.all + {tx}, heap := h);
  }

  // ---- enqueueTx ----

  function QueueList(p: Pool, a: Address): TxList
  {
    if a in p.queue then p.queue[a] else EmptyList(false)
  }

  function PendingList(p: Pool, a: Address): TxList
  {
    if a in p.pending then p.pending[a] else EmptyList(true)
  }

  /** Queues a transaction unless one of the same nonce is queued and not outbid. */
  method EnqueueTx(p: Pool, tx: Tx, bump: nat) returns (q: Pool, accepted: bool, replaced: Option<Tx>)
    requires Inv(p) && tx.nonce !in PendingOf(p, tx.from)
    ensures Inv(q) && OnlyAccount(p, q, tx.from)
    ensures accepted == Accepts(QueueList(p, tx.from), tx, bump)
    ensures replaced == if accepted && tx.nonce in QueueOf(p, tx.from) then Some(QueueOf(p, tx.from)[tx.nonce])
      else None
    ensures AccountOf(q, tx.from) ==
            if accepted then AccountOf(p, tx.from).(queue := QueueOf(p, tx.from)[tx.nonce := tx])
              else AccountOf(p, tx.from)
    ensures q.all == if accepted then p.all - (if replaced.Some? then {replaced.value} else {}) + {tx} else p.all
    ensures q.pending == p.pending
  {
    var list := QueueList(p, tx.from);
    accepted, replaced := Accepts(list, tx, bump), None;
    q := p.(queue := p.queue[tx.from := list]);
    if !accepted {
      assert p.queue[tx.from := list] == p.queue;
      return;
    }
    AddedIsValid(list, tx);
    q := q.(queue := q.queue[tx.from := Added(list, tx)]);
    if tx.nonce in list.items {
      replaced := Some(list.items[tx.nonce]);
      q := Forget(q, [replaced.value]);
    }
    q := Remember(q, tx);
    EnqueuedChange(p, q, tx);
  }

  lemma EnqueuedChange(p: Pool, q: Pool, tx: Tx)
    requires Inv(p) && tx.nonce !in PendingOf(p, tx.from) && Priced(q)
    requires SameSettings(p, q)
    requires q.tracked == p.tracked && q.pending == p.pending
    requires q.queue == p.queue[tx.from := Added(QueueList(p, tx.from), tx)]
    requires tx in q.all && q.all <= p.all + {tx}
    requires forall x ::
      x in p.all && x !in q.all ==> tx.nonce in QueueOf(p, tx.from) && x == QueueOf(p, tx.from)[tx.nonce]
    ensures Inv(q) && OnlyAccount(p, q, tx.from)
    ensures AccountOf(q, tx.from) == AccountOf(p, tx.from).(queue := QueueOf(p, tx.from)[tx.nonce := tx])
  {
    var a := tx.from;
    assert Sound(AccountOf(p, a), a);
    AddedIsValid(QueueList(p, a), tx);
    forall x | Holds(AccountOf(q, a), x) ensures x in q.all {
      if x != tx {
        assert Holds(AccountOf(p, a), x);
      }
    }
    AccountChange(p, q, a);
  }

  /** Queues a known transaction whose nonce is in neither list. */
  method EnqueueFresh(p: Pool, tx: Tx, bump: nat) returns (q: Pool)
    requires Inv(p) && tx in p.all && tx.nonce !in PendingOf(p, tx.from) && tx.nonce !in QueueOf(p, tx.from)
    ensures Inv(q) && OnlyAccount(p, q, tx.from) && q.all == p.all && q.pending == p.pending
    ensures AccountOf(q, tx.from) == AccountOf(p, tx.from).(queue := QueueOf(p, tx.from)[tx.nonce := tx])
  {
    var accepted, replaced;
    q, accepted, replaced := EnqueueTx(p, tx, bump);
  }

  lemma MergeStep(queue: NonceMap, m: NonceMap, rest: NonceMap, n: nat)
    requires n in rest && SubMap(rest, m)
    ensures (queue + (m - rest.Keys))[n := m[n]] == queue + (m - (rest - {n}).Keys)
    ensures n !in queue ==> n !in queue + (m - rest.Keys)
  {
    assert (rest - {n}).Keys == rest.Keys - {n};
  }

  /** Queues the transactions of `m` one by one, in any order. */
  method EnqueueAll(p: Pool, a: Address, m: NonceMap, bump: nat) returns (q: Pool)
    requires Inv(p) && Keyed(m)
    requires m.Keys !! PendingOf(p, a).Keys && m.Keys !! QueueOf(p, a).Keys
    requires forall n :: n in m ==> m[n].from == a && m[n] in p.all
    ensures Inv(q) && OnlyAccount(p, q, a) && q.all == p.all && q.pending == p.pending
    ensures AccountOf(q, a) == AccountOf(p, a).(queue := QueueOf(p, a) + m)
  {
    q := p;
    var rest := m;
    assert QueueOf(p, a) + (m - rest.Keys) == QueueOf(p, a);
    while rest != map[]
      invariant SubMap(rest, m) && Inv(q) && OnlyAccount(p, q, a) && q.all == p.all && q.pending == p.pending
      invariant AccountOf(q, a) == AccountOf(p, a).(queue := QueueOf(p, a) + (m - rest.Keys))
      decreases rest.Keys
    {
      NonEmpty(rest.Keys);
      var n :| n in rest;
      MergeStep(QueueOf(p, a), m, rest, n);
      q := EnqueueFresh(q, rest[n], bump);
      rest := rest - {n};
    }
    assert m - rest.Keys == m;
  }

  /** pendingState.SetNonce when the tracked nonce is above `nonce`. */
  method LowerNext(p: Pool, a: Address, nonce: nat) returns (q: Pool)
    requires Inv(p)
    ensures Inv(q) && OnlyAccount(p, q, a) && q.all == p.all && q.pending == p.pending
    ensures AccountOf(q, a) == AccountOf(p, a).(next := if NextNonce(p, a) > nonce then nonce else NextNonce(p, a))
  {
    q := p;
    if NextNonce(p, a) > nonce {
      q := p.(tracked := p.tracked[a := nonce]);
      assert Sound(AccountOf(p, a), a);
      forall x | Holds(AccountOf(q, a), x) ensures x in q.all {
        assert Holds(AccountOf(p, a), x);
      }
      AccountChange(p, q, a);
    }
  }

  // ---- removeTx ----

  function SetPending(pending: map<Address, TxList>, a: Address, l: TxList): map<Address, TxList>
  {
    if l.items == map[] then pending - {a} else pending[a := l]
  }

  /** Taking a transaction out of `all` and its nonce out of one list of its sender. */
  lemma CutChange(p: Pool, q: Pool, tx: Tx, pending: NonceMap, queue: NonceMap)
    requires Inv(p) && ListsValid(q) && Priced(q) && OnlyAccount(p, q, tx.from) && q.all == p.all - {tx}
    requires AccountOf(q, tx.from) == Account(pending, queue, NextNonce(q, tx.from))
    requires SubMap(pending, PendingOf(p, tx.from)) && SubMap(queue, QueueOf(p, tx.from))
    requires tx.nonce !in pending && tx.nonce !in queue
    ensures Inv(q)
  {
    var a := tx.from;
    assert Sound(AccountOf(p, a), a);
    forall x | Holds(AccountOf(q, a), x) ensures x in q.all {
      assert Holds(AccountOf(p, a), x) && x.nonce != tx.nonce;
    }
    AccountChange(p, q, a);
  }

  /** `q` is `p` after the known transaction `tx` was removed. */
  ghost predicate Removes(p: Pool, q: Pool, tx: Tx)
  {
    OnlyAccount(p, q, tx.from) && q.all == p.all - {tx} &&
    AccountOf(q, tx.from) == PoolAccounts.Removed(AccountOf(p, tx.from), tx.nonce)
  }

  /** Removes a known transaction, by its nonce, from whichever list of its sender has that nonce. */
  method RemoveTx(p: Pool, tx: Tx, bump: nat) returns (q: Pool)
    requires Inv(p)
    ensures Inv(q) && OnlyAccount(p, q, tx.from)
    ensures tx !in p.all ==> q == p
    ensures tx in p.all ==> Removes(p, q, tx)
  {
    q := p;
    if tx !in p.all {
      return;
    }
    assert Sound(AccountOf(p, tx.from), tx.from);
    q := Forget(p, [tx]);
    if tx.from in p.pending && tx.nonce in p.pending[tx.from].items {
      q := CutPending(p, q, tx, bump);
    } else {
      q := CutQueued(p, q, tx);
    }
  }

  /** The part of removeTx for a nonce that is not pending. */
  method CutQueued(p: Pool, q0: Pool, tx: Tx) returns (q: Pool)
    requires Inv(p) && SameLists(p, q0) && Priced(q0) && q0.all == p.all - {tx}
    requires tx.nonce !in PendingOf(p, tx.from)
    ensures Inv(q) && Removes(p, q, tx)
  {
    q := q0;
    if tx.from in p.queue {
      var list := p.queue[tx.from];
      q := q0.(queue := SetPending(q0.queue, tx.from, list.(items := list.items - {tx.nonce})));
      CutChange(p, q, tx, PendingOf(p, tx.from), list.items - {tx.nonce});
    } else {
      assert QueueOf(p, tx.from) - {tx.nonce} == QueueOf(p, tx.from);
      CutChange(p, q, tx, PendingOf(p, tx.from), map[]);
    }
  }

  ghost predicate Held(p: Pool, x: Tx)
  {
    Holds(AccountOf(p, x.from), x)
  }

  /** Every known transaction is on its sender's lists, so that `all` counts what the lists hold. */
  ghost predicate AllHeld(p: Pool)
  {
    forall x {:trigger Held(p, x)} :: x in p.all ==> Held(p, x)
  }

  /** Exactly when removing a known transaction takes another one off the lists. */
  lemma RemovalForgets(p: Pool, q: Pool, tx: Tx)
    requires Inv(p) && tx in p.all && Removes(p, q, tx)
    ensures (exists x :: x != tx && Held(p, x) && !Held(q, x)) <==> LosesOthers(AccountOf(p, tx.from), tx)
  {
    var acc, r := AccountOf(p, tx.from), AccountOf(q, tx.from);
    assert Sound(acc, tx.from);
    RemovedForgets(acc, tx.from, tx);
    if LosesOthers(acc, tx) {
      var x :| x != tx && Holds(acc, x) && !Holds(r, x);
      assert x.from == tx.from;
      assert Held(p, x) && !Held(q, x);
    } else {
      forall x | x != tx && Held(p, x) ensures Held(q, x) {
        assert x.from != tx.from ==> AccountOf(q, x.from) == AccountOf(p, x.from);
      }
    }
  }

  /** Where everything known is listed, removal keeps it so exactly if `tx` is not the lowest of several
      pending nonces. */
  lemma RemovalKeepsAllHeld(p: Pool, q: Pool, tx: Tx)
    requires Inv(p) && AllHeld(p) && tx in p.all && Removes(p, q, tx)
    ensures AllHeld(q) <==> !LosesAbove(AccountOf(p, tx.from), tx.nonce)
  {
    var acc := AccountOf(p, tx.from);
    assert Sound(acc, tx.from) && Held(p, tx);
    RemovalForgets(p, q, tx);
    if LosesAbove(acc, tx.nonce) {
      var x :| x != tx && Held(p, x) && !Held(q, x);
      assert Holds(AccountOf(p, x.from), x);
      assert x in q.all;
    } else {
      assert !LosesOthers(acc, tx);
      forall x | x in q.all ensures Held(q, x) {
        assert Held(p, x);
      }
    }
  }

  /** Nonces 5 and 6 are pending and 5 is removed: 6 leaves the lists but stays known. Another
      transaction of nonce 6 is then queued; removing the forgotten one takes it off the queue, and it
      stays known too. */
  lemma RemovalForgetsTwice(p: Pool, q: Pool, r: Pool, s: Pool, five: Tx, six: Tx, other: Tx)
    requires five.from == six.from == other.from && five.nonce == 5 && six.nonce == other.nonce == 6 && six != other
    requires AccountOf(p, five.from) == Account(map[5 := five, 6 := six], map[], 7) && {five, six} <= p.all
    requires Removes(p, q, five)
    requires AccountOf(r, five.from) == AccountOf(q, five.from).(queue := map[6 := other]) && r.all == q.all + {other}
    requires Removes(r, s, six)
    ensures six in q.all && !Held(q, six) && Held(r, other) && other in s.all && !Held(s, other)
  {
    var acc := AccountOf(p, five.from);
    assert Below(acc.pending, 5) == map[];
    assert AccountOf(q, five.from) == Account(map[], map[], 5);
    assert AccountOf(r, five.from) == Account(map[], map[6 := other], 5);
  }

  /** Cuts the sender's pending list below a transaction that has just been forgotten. */
  method CutList(p: Pool, q0: Pool, tx: Tx) returns (q: Pool)
    requires Inv(p) && SameLists(p, q0) && Priced(q0) && q0.all == p.all - {tx}
    requires tx.nonce in PendingOf(p, tx.from)
    ensures Inv(q) && OnlyAccount(p, q, tx.from) && q.all == p.all - {tx}
    ensures AccountOf(q, tx.from) == AccountOf(p, tx.from).(pending := Below(PendingOf(p, tx.from), tx.nonce))
  {
    var a, list := tx.from, p.pending[tx.from];
    assert Sound(AccountOf(p, a), a);
    var kept := Below(list.items, tx.nonce);
    q := q0.(pending := SetPending(q0.pending, a, list.(items := kept)));
    CutChange(p, q, tx, kept, QueueOf(p, a));
  }

  /** The pending branch of removeTx: `q0` is `p` with the transaction already forgotten. */
  method CutPending(p: Pool, q0: Pool, tx: Tx, bump: nat) returns (q: Pool)
    requires Inv(p) && SameLists(p, q0) && Priced(q0) && q0.all == p.all - {tx}
    requires tx.nonce in PendingOf(p, tx.from)
    ensures Inv(q) && Removes(p, q, tx)
  {
    q := CutList(p, q0, tx);
    if PendingOf(q, tx.from) != map[] {
      var above := NotBelow(PendingOf(p, tx.from), tx.nonce + 1);
      AboveIsListed(p, q, tx, above);
      q := EnqueueAll(q, tx.from, above, bump);
    }
    q := LowerNext(q, tx.from, tx.nonce);
  }

  lemma AboveIsListed(p: Pool, q: Pool, tx: Tx, above: NonceMap)
    requires Inv(p) && q.all == p.all - {tx} && above == NotBelow(PendingOf(p, tx.from), tx.nonce + 1)
    ensures Keyed(above) && above.Keys !! QueueOf(p, tx.from).Keys
    ensures forall n :: n in above ==> above[n].from == tx.from && above[n] in q.all
  {
    assert Sound(AccountOf(p, tx.from), tx.from);
    forall n | n in above ensures above[n] in q.all {
      assert Holds(AccountOf(p, tx.from), above[n]);
    }
  }

  // ---- promoteTx ----

  /** Adds a transaction to its sender's pending list unless one of that nonce is there and not
      outbid, in which case the transaction is forgotten. */
  method PromoteTx(p: Pool, tx: Tx, bump: nat) returns (q: Pool, accepted: bool, replaced: Option<Tx>)
    requires Inv(p) && tx.nonce !in QueueOf(p, tx.from) && !Holds(AccountOf(p, tx.from), tx)
    ensures Inv(q) && OnlyAccount(p, q, tx.from)
    ensures accepted == Accepts(PendingList(p, tx.from), tx, bump)
    ensures replaced == if accepted && tx.nonce in PendingOf(p, tx.from) then Some(PendingOf(p, tx.from)[tx.nonce])
      else None
    ensures AccountOf(q, tx.from) ==
            if accepted then AccountOf(p, tx.from).(pending := PendingOf(p, tx.from)[tx.nonce := tx],
              next := tx.nonce + 1)
            else AccountOf(p, tx.from)
    ensures q.all == if accepted then p.all - (if replaced.Some? then {replaced.value} else {}) + {tx} else p.all - {tx}
    ensures q.queue == p.queue
  {
    var a, list := tx.from, PendingList(p, tx.from);
    accepted, replaced := Accepts(list, tx, bump), None;
    if !accepted {
      q := Forget(p, [tx]);
      assert Sound(AccountOf(p, a), a);
      AccountChange(p, q, a);
      return;
    }
    q := p.(pending := p.pending[a := Added(list, tx)], tracked := p.tracked[a := tx.nonce + 1]);
    if tx.nonce in list.items {
      replaced := Some(list.items[tx.nonce]);
      q := Forget(q, [replaced.value]);
    }
    if tx !in q.all {
      q := Remember(q, tx);
    }
    PromotedChange(p, q, tx);
  }

  lemma PromotedChange(p: Pool, q: Pool, tx: Tx)
    requires Inv(p) && tx.nonce !in QueueOf(p, tx.from) && Priced(q)
    requires SameSettings(p, q) && q.queue == p.queue
    requires q.tracked == p.tracked[tx.from := tx.nonce + 1]
    requires q.pending == p.pending[tx.from := Added(PendingList(p, tx.from), tx)]
    requires tx in q.all && q.all <= p.all + {tx}
    requires forall x :: x in p.all && x !in q.all ==>
               tx.nonce in PendingOf(p, tx.from) && x == PendingOf(p, tx.from)[tx.nonce]
    ensures Inv(q) && OnlyAccount(p, q, tx.from)
    ensures AccountOf(q, tx.from) ==
            AccountOf(p, tx.from).(pending := PendingOf(p, tx.from)[tx.nonce := tx], next := tx.nonce + 1)
  {
    var a := tx.from;
    assert Sound(AccountOf(p, a), a);
    AddedIsValid(PendingList(p, a), tx);
    forall x | Holds(AccountOf(q, a), x) ensures x in q.all {
      if x != tx {
        assert Holds(AccountOf(p, a), x);
      }
    }
    AccountChange(p, q, a);
  }

  /** What promotion actually meets: a nonce that is in neither list, so nothing is replaced. */
  method PromoteFresh(p: Pool, tx: Tx, bump: nat) returns (q: Pool)
    requires Inv(p) && tx in p.all && tx.nonce !in PendingOf(p, tx.from) && tx.nonce !in QueueOf(p, tx.from)
    ensures Inv(q) && OnlyAccount(p, q, tx.from) && q.all == p.all && q.queue == p.queue
    ensures AccountOf(q, tx.from) ==
            AccountOf(p, tx.from).(pending := PendingOf(p, tx.from)[tx.nonce := tx], next := tx.nonce + 1)
  {
    var accepted, replaced;
    q, accepted, replaced := PromoteTx(p, tx, bump);
  }

  // ---- promoteExecutables, one account ----

  /** The transactions that left account `a` have left `all`, and nothing else has. */
  ghost predicate ForgetsDropped(p: Pool, q: Pool, a: Address)
  {
    forall x :: x in q.all <==> x in p.all && (Holds(AccountOf(p, a), x) ==> Holds(AccountOf(q, a), x))
  }

  /** Replaces an account's queue by a part of it; `gone` leaves the pool. */
  method ShrinkQueue(p: Pool, a: Address, l: TxList, gone: seq<Tx>) returns (q: Pool)
    requires Inv(p) && a in p.queue && ValidList(l) && !l.strict && SubMap(l.items, QueueOf(p, a))
    requires forall x :: x in gone ==> x.from == a && x.nonce !in l.items && x.nonce !in PendingOf(p, a)
    ensures Inv(q) && OnlyAccount(p, q, a) && q.all == p.all - Elements(gone) && a in q.queue && q.queue[a] == l
    ensures AccountOf(q, a) == AccountOf(p, a).(queue := l.items)
  {
    q := Forget(p, gone);
    q := q.(queue := q.queue[a := l]);
    assert Sound(AccountOf(p, a), a);
    forall x | Holds(AccountOf(q, a), x) ensures x in q.all {
      assert Holds(AccountOf(p, a), x);
    }
    AccountChange(p, q, a);
  }

  /** Deletes an emptied queue. */
  method DropEmptyQueue(p: Pool, a: Address) returns (q: Pool)
    requires Inv(p) && a in p.queue
    ensures Inv(q) && OnlyAccount(p, q, a) && q.all == p.all && AccountOf(q, a) == AccountOf(p, a)
    ensures a in q.queue ==> QueueOf(q, a) != map[]
  {
    q := p;
    if p.queue[a].items == map[] {
      q := p.(queue := p.queue - {a});
      assert Sound(AccountOf(p, a), a);
      forall x | Holds(AccountOf(q, a), x) ensures x in q.all {
        assert Holds(AccountOf(p, a), x);
      }
      AccountChange(p, q, a);
    }
  }
}
