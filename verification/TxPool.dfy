/** The transaction pool as the node uses it: an object whose operations follow each other in any order
    (core/tx_pool.go). */
module TxPools {
  import opened Transactions
  import opened NonceMaps
  import opened TxLists
  import opened PricedLists
  import opened PoolAccounts
  import opened PoolStates
  import opened PoolOperations
  import opened PoolResets
  import opened Traces
  import Chains
  import ChainWalks

  /** A pool that has seen nothing but the head. */
  function EmptyPool(head: Head, gasPrice: nat): Pool
  {
    Pool(head, map[], map[], map[], {}, [], 0, {}, gasPrice, {})
  }

  lemma EmptyIsStable(head: Head, gasPrice: nat)
    ensures Stable(EmptyPool(head, gasPrice)) && GapFreePool(EmptyPool(head, gasPrice))
    ensures Floored(EmptyPool(head, gasPrice))
  {
    var p := EmptyPool(head, gasPrice);
    forall a, x ensures !Holds(AccountOf(p, a), x) {}
  }

  /** What can happen to the pool. A reset carries the transactions of the discarded branch. */
  datatype Operation =
    | Offer(txs: seq<Tx>, local: bool)
    | Reprice(price: nat)
    | NewHead(head: Head, reinject: seq<Tx>)
    | Expire(account: Address)

  /** A head change that brings transactions of a discarded branch back. */
  predicate Reinjects(op: Operation)
  {
    op.NewHead? && op.reinject != []
  }

  /** A batch that was offered: the pools between its transactions and the answers. */
  ghost predicate Offers(p: Pool, q: Pool, txs: seq<Tx>, local: bool, factsOf: Tx -> Facts, cfg: Config,
                         results: seq<AddResult>, trace: seq<Pool>, way: Promotion)
  {
    Batch(trace, txs, local, factsOf, cfg, results) && |results| == |txs| && trace[0] == p &&
    Reoffers(trace[|txs|], q, Dirty(txs, results), cfg, way) &&
    PromotesNew(trace[|txs|], way.promoted, txs, results, cfg)
  }

  ghost predicate Reprices(p: Pool, q: Pool, price: nat, drop: seq<Tx>)
  {
    RemovesAll(p, q, drop) && q.gasPrice == price && q.head == p.head && q.locals == p.locals &&
    forall x :: x in q.all <==> x in p.all && (IsLocal(p.locals, x) || x.price >= price)
  }

  /** A reset with its stages, and which accounts it leaves executable. */
  ghost predicate Resets(p: Pool, q: Pool, head: Head, reinject: seq<Tx>, factsOf: Tx -> Facts, cfg: Config,
                         stages: Stages)
  {
    ResetsBy(p, q, head, reinject, factsOf, cfg, stages) && ResetOutcomes(p, q, stages, reinject, cfg) &&
    (GapFreePool(stages.reindexed) ==> GapFreePool(q))
  }

  ghost predicate Expires(p: Pool, q: Pool, a: Address)
  {
    if a in p.locals then q == p
    else OnlyAccount(p, q, a) && AccountOf(q, a) == AccountOf(p, a).(queue := map[]) &&
         forall x :: x in q.all <==> x in p.all && !Queued(p, a, x)
  }

  /** What an operation makes of the pool. */
  ghost predicate Step(p: Pool, op: Operation, q: Pool, factsOf: Tx -> Facts, cfg: Config)
  {
    match op
    case Offer(txs, local) =>
      exists results, trace, way {:trigger Offers(p, q, txs, local, factsOf, cfg, results, trace, way)} ::
        Offers(p, q, txs, local, factsOf, cfg, results, trace, way)
    case Reprice(price) => exists drop {:trigger Reprices(p, q, price, drop)} :: Reprices(p, q, price, drop)
    case NewHead(head, reinject) =>
      exists stages {:trigger Resets(p, q, head, reinject, factsOf, cfg, stages)} ::
        Resets(p, q, head, reinject, factsOf, cfg, stages)
    case Expire(a) => Expires(p, q, a)
  }

  ghost function StepIn(factsOf: Tx -> Facts, cfg: Config): (Pool, Operation, Pool) -> bool
  {
    (p, op, q) => Step(p, op, q, factsOf, cfg)
  }

  /** None of the first `n` operations reinjects anything. */
  ghost predicate NoneReinjects(ops: seq<Operation>, n: nat)
    requires n <= |ops|
  {
    forall j :: 0 <= j < n ==> !Reinjects(ops[j])
  }

  /** The invariants at every point of a run. Pending lists are gap-free until a reset reinjects transactions. */
  ghost predicate InvariantsAlong(trace: seq<Pool>, ops: seq<Operation>)
  {
    |trace| == |ops| + 1 &&
    (forall i {:trigger trace[i]} :: 0 <= i < |trace| ==>
       Stable(trace[i]) && (Floored(trace[0]) ==> Floored(trace[i]))) &&
    forall i {:trigger trace[i]} :: 0 <= i < |trace| && GapFreePool(trace[0]) && NoneReinjects(ops, i) ==>
      GapFreePool(trace[i])
  }

  lemma KeptMore(trace: seq<Pool>, ops: seq<Operation>, i: nat, q: Pool)
    requires i < |ops| && InvariantsAlong(trace, ops[..i]) && Stable(q) && (Floored(trace[i]) ==> Floored(q))
    requires GapFreePool(trace[i]) && !Reinjects(ops[i]) ==> GapFreePool(q)
    ensures InvariantsAlong(trace + [q], ops[..i + 1])
  {
    var more := trace + [q];
    forall k | 0 <= k < |more| ensures Stable(more[k]) && (Floored(more[0]) ==> Floored(more[k])) {
      assert k <= i ==> more[k] == trace[k];
      assert Stable(trace[i]);
    }
    forall k | 0 <= k < |more| && GapFreePool(more[0]) && NoneReinjects(ops[..i + 1], k)
      ensures GapFreePool(more[k])
    {
      var low := if k <= i then k else i;
      forall j | 0 <= j < low ensures !Reinjects(ops[..i][j]) {
        assert ops[..i + 1][j] == ops[..i][j];
      }
      assert NoneReinjects(ops[..i], low);
      assert trace[low] == more[low] && GapFreePool(trace[low]);
      assert k == i + 1 ==> ops[..i + 1][i] == ops[i];
    }
  }

  class TxPool {
    var state: Pool
    const cfg: Config
    const factsOf: Tx -> Facts

    constructor (head: Head, gasPrice: nat, cfg: Config, factsOf: Tx -> Facts)
      ensures state == EmptyPool(head, gasPrice) && this.cfg == cfg && this.factsOf == factsOf
      ensures Stable(state) && GapFreePool(state) && Floored(state)
    {
      EmptyIsStable(head, gasPrice);
      this.cfg, this.factsOf := cfg, factsOf;
      state := EmptyPool(head, gasPrice);
    }

    method AddTxs(txs: seq<Tx>, local: bool)
      returns (results: seq<AddResult>, ghost trace: seq<Pool>, ghost way: Promotion)
      requires Stable(state)
      modifies this
      ensures Stable(state) && (old(GapFreePool(state)) ==> GapFreePool(state))
      ensures old(Floored(state)) ==> Floored(state)
      ensures state.head == old(state.head) && state.gasPrice == old(state.gasPrice)
      ensures Offers(old(state), state, txs, local, factsOf, cfg, results, trace, way)
    {
      state, results, trace, way := PoolOperations.AddTxs(state, txs, local, factsOf, cfg);
    }

    method SetGasPrice(price: nat) returns (ghost drop: seq<Tx>)
      requires Stable(state)
      modifies this
      ensures Stable(state) && (old(GapFreePool(state)) ==> GapFreePool(state)) && Floored(state)
      ensures Reprices(old(state), state, price, drop)
    {
      state, drop := PoolOperations.SetGasPrice(state, price, cfg);
    }

    method Reset(head: Head, reinject: seq<Tx>) returns (ghost stages: Stages)
      requires Stable(state)
      modifies this
      ensures Stable(state) && state.head == head && state.gasPrice == old(state.gasPrice)
      ensures old(Floored(state)) ==> Floored(state)
      ensures Resets(old(state), state, head, reinject, factsOf, cfg, stages)
      ensures old(GapFreePool(state)) && reinject == [] ==> GapFreePool(state)
    {
      state, stages := PoolResets.Reset(state, head, reinject, factsOf, cfg);
    }

    /** A new head of the chain: what only the old branch has is reinjected. A head that descends from
        the old one reinjects nothing, and then no pending list gets a gap. */
    method NewBlock(store: set<Chains.Block>, genesis: Chains.Block, was: Option<Chains.Block>, now: Chains.Block,
                    head: Head, txOf: Chains.TxId -> Tx)
      returns (reinject: seq<Chains.TxId>, ghost common: Chains.Block, ghost stages: Stages)
      requires Stable(state) && Chains.Rooted(store, genesis) && ChainWalks.Connected(store, genesis, now)
      requires was.Some? ==> ChainWalks.Connected(store, genesis, was.value)
      modifies this
      ensures Stable(state) && state.head == head && (old(Floored(state)) ==> Floored(state))
      ensures Resets(old(state), state, head, seq(|reinject|, i requires 0 <= i < |reinject| => txOf(reinject[i])),
        factsOf, cfg, stages)
      ensures was.Some? && ChainWalks.Distance(was.value.number, now.number) <= ChainWalks.MAX_REORG_DEPTH ==>
                forall t :: t in reinject <==> ChainWalks.Orphaned(was.value, now, common, t)
      ensures old(GapFreePool(state)) && (was.Some? ==> Chains.Ancestor(now, was.value.number) == was) ==>
        GapFreePool(state)
    {
      reinject, common := ChainWalks.Reinjected(store, genesis, was, now);
      var txs := seq(|reinject|, i requires 0 <= i < |reinject| => txOf(reinject[i]));
      stages := Reset(head, txs);
    }

    method Evict(a: Address)
      requires Stable(state)
      modifies this
      ensures Stable(state) && SameSettings(old(state), state) && (old(GapFreePool(state)) ==> GapFreePool(state))
      ensures old(Floored(state)) ==> Floored(state)
      ensures Expires(old(state), state, a)
    {
      state := PoolOperations.Evict(state, a, cfg);
    }

    method Do(op: Operation)
      requires Stable(state)
      modifies this
      ensures Step(old(state), op, state, factsOf, cfg)
      ensures Stable(state) && (old(Floored(state)) ==> Floored(state))
      ensures old(GapFreePool(state)) && !Reinjects(op) ==> GapFreePool(state)
    {
      match op
      case Offer(txs, local) =>
        var results;
        ghost var trace, way;
        results, trace, way := AddTxs(txs, local);
      case Reprice(price) => ghost var drop := SetGasPrice(price);
      case NewHead(head, reinject) => ghost var stages := Reset(head, reinject);
      case Expire(a) => Evict(a);
    }

    /** Every run does its operations one after the other, and at every point of it: no nonce in both
        lists, every listed transaction known, every known one in the price heap and local or at
        the price floor, and pending lists gap-free until a reset reinjects transactions. */
    method Run(ops: seq<Operation>) returns (ghost trace: seq<Pool>)
      requires Stable(state)
      modifies this
      ensures Follows(trace, ops, StepIn(factsOf, cfg)) && InvariantsAlong(trace, ops)
      ensures trace[0] == old(state) && trace[|ops|] == state
    {
      trace := [state];
      for i := 0 to |ops|
        invariant Follows(trace, ops[..i], StepIn(factsOf, cfg)) && InvariantsAlong(trace, ops[..i])
        invariant trace[0] == old(state) && trace[i] == state
      {
        assert Stable(trace[i]);
        Do(ops[i]);
        FollowsMore(trace, ops, i, state, StepIn(factsOf, cfg));
        KeptMore(trace, ops, i, state);
        trace := trace + [state];
      }
      assert ops[..|ops|] == ops;
    }
  }
}
