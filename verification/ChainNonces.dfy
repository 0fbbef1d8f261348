/** Nonces along a branch: in the state of a block the nonce of an account counts the transactions it has sent
    on the way there (core/state_transition.go). */
module ChainNonces {
  import opened Transactions
  import opened Chains
  import opened ChainWalks

  /** How many of these transactions `a` has sent. */
  function SentBy(txs: seq<TxId>, a: Address, txOf: TxId -> Tx): nat
  {
    if txs == [] then 0
    else SentBy(txs[..|txs| - 1], a, txOf) + if txOf(txs[|txs| - 1]).from == a then 1 else 0
  }

  /** The nonce of `a` in the state before block `b`. */
  function NonceBefore(b: Block, a: Address, txOf: TxId -> Tx): nat
    decreases b, 0
  {
    if b.parent.None? then 0 else StateNonce(b.parent.value, a, txOf)
  }

  /** The nonce of `a` in the state of block `b`. */
  function StateNonce(b: Block, a: Address, txOf: TxId -> Tx): nat
    decreases b, 1
  {
    NonceBefore(b, a, txOf) + SentBy(b.txs, a, txOf)
  }

  /** Transaction `i` of the block has the nonce that the state had when it was applied. */
  ghost predicate InTurn(b: Block, i: nat, txOf: TxId -> Tx)
    requires i < |b.txs|
  {
    var tx := txOf(b.txs[i]);
    tx.nonce == NonceBefore(b, tx.from, txOf) + SentBy(b.txs[..i], tx.from, txOf)
  }

  /** Every block up to `b` includes transactions only in their turn, as preCheck demands. */
  ghost predicate Nonced(b: Block, txOf: TxId -> Tx)
  {
    (b.parent.Some? ==> Nonced(b.parent.value, txOf)) &&
    forall i: nat {:trigger InTurn(b, i, txOf)} :: i < |b.txs| ==> InTurn(b, i, txOf)
  }

  lemma SentByNext(txs: seq<TxId>, i: nat, a: Address, txOf: TxId -> Tx)
    requires i < |txs|
    ensures SentBy(txs[..i + 1], a, txOf) == SentBy(txs[..i], a, txOf) + if txOf(txs[i]).from == a then 1 else 0
  {
    assert txs[..i + 1][..i] == txs[..i];
  }

  lemma {:induction false} SentByMore(txs: seq<TxId>, i: nat, j: nat, a: Address, txOf: TxId -> Tx)
    requires i <= j <= |txs|
    ensures SentBy(txs[..i], a, txOf) <= SentBy(txs[..j], a, txOf)
    decreases j
  {
    if i < j {
      SentByMore(txs, i, j - 1, a, txOf);
      SentByNext(txs, j - 1, a, txOf);
    }
  }

  /** A sender's nonce counts every transaction that a block includes. */
  lemma Counted(b: Block, i: nat, j: nat, txOf: TxId -> Tx)
    requires i < j <= |b.txs| && InTurn(b, i, txOf)
    ensures var tx := txOf(b.txs[i]);
            tx.nonce < NonceBefore(b, tx.from, txOf) + SentBy(b.txs[..j], tx.from, txOf)
  {
    var a := txOf(b.txs[i]).from;
    SentByNext(b.txs, i, a, txOf);
    SentByMore(b.txs, i + 1, j, a, txOf);
  }

  /** So no block includes a transaction twice. */
  lemma NoncedDistinct(b: Block, i: nat, j: nat, txOf: TxId -> Tx)
    requires Nonced(b, txOf) && i < j < |b.txs|
    ensures b.txs[i] != b.txs[j]
  {
    assert InTurn(b, i, txOf) && InTurn(b, j, txOf);
    Counted(b, i, j, txOf);
  }

  /** Nonces only grow along a branch. */
  lemma {:induction false} NonceGrows(b: Block, c: Block, a: Address, txOf: TxId -> Tx)
    requires Ancestor(b, c.number) == Some(c)
    ensures StateNonce(c, a, txOf) <= StateNonce(b, a, txOf)
    decreases b
  {
    if b != c {
      NonceGrows(b.parent.value, c, a, txOf);
    }
  }

  lemma {:induction false} NoncedBelow(b: Block, c: Block, txOf: TxId -> Tx)
    requires Nonced(b, txOf) && Ancestor(b, c.number) == Some(c)
    ensures Nonced(c, txOf)
    decreases b
  {
    if b != c {
      NoncedBelow(b.parent.value, c, txOf);
    }
  }

  /** A transaction that the branch to `b` includes has a nonce below the state's. */
  lemma IncludedIsBelow(b: Block, c: Block, t: TxId, txOf: TxId -> Tx)
    requires Nonced(b, txOf) && Ancestor(b, c.number) == Some(c) && t in c.txs
    ensures txOf(t).nonce < StateNonce(b, txOf(t).from, txOf)
  {
    NoncedBelow(b, c, txOf);
    var i :| 0 <= i < |c.txs| && c.txs[i] == t;
    assert InTurn(c, i, txOf);
    Counted(c, i, |c.txs|, txOf);
    assert c.txs[..|c.txs|] == c.txs;
    NonceGrows(b, c, txOf(t).from, txOf);
  }

  /** The last transaction of `a` in a list. */
  lemma {:induction false} LastOf(txs: seq<TxId>, n: nat, a: Address, txOf: TxId -> Tx) returns (i: nat)
    requires n <= |txs| && SentBy(txs[..n], a, txOf) > 0
    ensures i < n && txOf(txs[i]).from == a && SentBy(txs[..i], a, txOf) + 1 == SentBy(txs[..n], a, txOf)
  {
    SentByNext(txs, n - 1, a, txOf);
    if txOf(txs[n - 1]).from == a {
      i := n - 1;
    } else {
      i := LastOf(txs, n - 1, a, txOf);
    }
  }

  /** The last transaction of `a` on the branch to `b`, and the block that includes it. */
  lemma {:induction false} LastSent(store: set<Block>, genesis: Block, b: Block, a: Address, txOf: TxId -> Tx)
    returns (c: Block, t: TxId)
    requires Rooted(store, genesis) && Connected(store, genesis, b)
    requires Nonced(b, txOf) && StateNonce(b, a, txOf) > 0
    ensures Ancestor(b, c.number) == Some(c) && t in c.txs
    ensures txOf(t).from == a && txOf(t).nonce == StateNonce(b, a, txOf) - 1
    decreases b
  {
    if SentBy(b.txs, a, txOf) > 0 {
      assert b.txs[..|b.txs|] == b.txs;
      var i := LastOf(b.txs, |b.txs|, a, txOf);
      assert InTurn(b, i, txOf);
      c, t := b, b.txs[i];
    } else {
      c, t := LastSent(store, genesis, b.parent.value, a, txOf);
      NotAbove(b.parent.value, c.number);
    }
  }
}
