/** Nonces over processed blocks: what preCheck demands of each message (core/state_transition.go) makes a chain of
    processed blocks include every sender's transactions in their turn. */
module BlockNonces {
  import opened Transactions
  import opened Chains
  import opened ChainNonces
  import opened Gas
  import opened GasBlocks
  import opened Traces

  /** The accounts that send messages. They have no code, so the machine does not count for them, but for the sender
      of a message that creates a contract. */
  type Senders = Address -> bool

  ghost predicate Counting(vm: Vm, senders: Senders)
  {
    forall w, m, g, a {:trigger vm(w, m, g), senders(a)} :: senders(a) && vm(w, m, g).error != InsufficientBalance ==>
      NonceIn(vm(w, m, g).world, a) == NonceIn(w, a) + if m.creates && a == m.from then 1 else 0
  }

  /** A message that goes into a block raises its sender's nonce by one and no other sender's. */
  lemma AppliedCounts(p: Spot, m: Msg, q: Spot, env: Env, senders: Senders, a: Address)
    requires Lawful(env.vm) && Counting(env.vm, senders) && Applies(p, m, q, env) && senders(a)
    ensures NonceIn(q.world, a) == NonceIn(p.world, a) + if a == m.from then 1 else 0
  {
    var w := Bought(p.world, m);
    var run := RunOf(w, m, env.vm, env.homestead);
    assert run == env.vm(Called(w, m), m, m.gas - Intrinsic(m.data, m.creates, env.homestead));
    assert NonceIn(run.world, a) == NonceIn(Called(w, m), a) + if m.creates && a == m.from then 1 else 0;
  }

  /** How many of these messages `a` has sent. */
  ghost function Sent(msgs: seq<Msg>, a: Address): nat
  {
    if msgs == [] then 0 else Sent(msgs[..|msgs| - 1], a) + if msgs[|msgs| - 1].from == a then 1 else 0
  }

  /** In a processed block the nonces count the messages before. */
  lemma {:induction false} NoncesAt(spots: seq<Spot>, msgs: seq<Msg>, i: nat, env: Env, senders: Senders, a: Address)
    requires Lawful(env.vm) && Counting(env.vm, senders) && Follows(spots, msgs, AppliesIn(env)) && senders(a)
    requires i <= |msgs|
    ensures NonceIn(spots[i].world, a) == NonceIn(spots[0].world, a) + Sent(msgs[..i], a)
  {
    if i > 0 {
      NoncesAt(spots, msgs, i - 1, env, senders, a);
      assert AppliesIn(env)(spots[i - 1], msgs[i - 1], spots[i]);
      AppliedCounts(spots[i - 1], msgs[i - 1], spots[i], env, senders, a);
      assert msgs[..i][..i - 1] == msgs[..i - 1];
    }
  }

  /** So each message has the nonce that its sender had before the block, plus its messages before. */
  lemma InOrder(spots: seq<Spot>, msgs: seq<Msg>, i: nat, env: Env, senders: Senders)
    requires Lawful(env.vm) && Counting(env.vm, senders) && Follows(spots, msgs, AppliesIn(env)) && i < |msgs|
    requires msgs[i].checkNonce && senders(msgs[i].from)
    ensures msgs[i].nonce == NonceIn(spots[0].world, msgs[i].from) + Sent(msgs[..i], msgs[i].from)
  {
    AllCovered(spots, msgs, env);
    NoncesAt(spots, msgs, i, env, senders, msgs[i].from);
  }

  /** And no message goes in twice. */
  lemma NeverTwice(spots: seq<Spot>, msgs: seq<Msg>, i: nat, j: nat, env: Env, senders: Senders)
    requires Lawful(env.vm) && Counting(env.vm, senders) && Follows(spots, msgs, AppliesIn(env)) && i < j < |msgs|
    requires msgs[i].checkNonce && msgs[j].checkNonce && senders(msgs[i].from)
    ensures msgs[i] != msgs[j]
  {
    if msgs[i] == msgs[j] {
      InOrder(spots, msgs, i, env, senders);
      InOrder(spots, msgs, j, env, senders);
      SentMore(msgs, i, j, msgs[i].from);
    }
  }

  lemma {:induction false} SentMore(msgs: seq<Msg>, i: nat, j: nat, a: Address)
    requires i < j <= |msgs| && msgs[i].from == a
    ensures Sent(msgs[..i], a) < Sent(msgs[..j], a)
    decreases j
  {
    assert msgs[..j][..j - 1] == msgs[..j - 1];
    if i < j - 1 {
      SentMore(msgs, i, j - 1, a);
    }
  }

  // ---- whole chains ----

  /** What the blocks of a chain were processed with: the message of each transaction, the state after each block, and
      what each block brings. */
  datatype History = History(txOf: TxId -> Tx, msgOf: TxId -> Msg, stateOf: Block -> World, envOf: Block -> Env,
                             limitOf: Block -> nat, senders: Senders)

  /** A transaction's message has its sender and nonce, and its nonce is checked. */
  ghost predicate Carries(h: History, t: TxId)
  {
    var tx, m := h.txOf(t), h.msgOf(t);
    m.from == tx.from && m.nonce == tx.nonce && m.checkNonce && h.senders(tx.from)
  }

  ghost function Messages(h: History, txs: seq<TxId>): seq<Msg>
  {
    seq(|txs|, i requires 0 <= i < |txs| => h.msgOf(txs[i]))
  }

  /** The block's transactions have been processed on the state after its parent; whatever its end adds to the
      state, it leaves the senders' nonces alone. */
  ghost predicate ProcessedOn(h: History, before: World, b: Block, spots: seq<Spot>)
    requires Lawful(h.envOf(b).vm)
  {
    Follows(spots, Messages(h, b.txs), AppliesIn(h.envOf(b))) && spots[0] == Spot(before, h.limitOf(b)) &&
    forall a {:trigger h.senders(a)} :: h.senders(a) ==>
      NonceIn(h.stateOf(b), a) == NonceIn(spots[|b.txs|].world, a)
  }

  ghost predicate Processed(h: History, b: Block)
    requires b.parent.Some?
  {
    Lawful(h.envOf(b).vm) && Counting(h.envOf(b).vm, h.senders) &&
    (forall i {:trigger b.txs[i]} :: 0 <= i < |b.txs| ==> Carries(h, b.txs[i])) &&
    exists spots {:trigger ProcessedOn(h, h.stateOf(b.parent.value), b, spots)} ::
      ProcessedOn(h, h.stateOf(b.parent.value), b, spots)
  }

  /** Every block up to `b` has been processed; nobody has sent anything before the first one. */
  ghost predicate Executed(h: History, b: Block)
  {
    if b.parent.None? then
      b.txs == [] && forall a {:trigger h.senders(a)} :: h.senders(a) ==> NonceIn(h.stateOf(b), a) == 0
    else Executed(h, b.parent.value) && Processed(h, b)
  }

  lemma {:induction false} SameCount(h: History, txs: seq<TxId>, i: nat, a: Address)
    requires i <= |txs| && forall j {:trigger txs[j]} :: 0 <= j < |txs| ==> Carries(h, txs[j])
    ensures Sent(Messages(h, txs)[..i], a) == SentBy(txs[..i], a, h.txOf)
  {
    if i > 0 {
      SameCount(h, txs, i - 1, a);
      SentByNext(txs, i - 1, a, h.txOf);
      var msgs := Messages(h, txs);
      assert msgs[..i][..i - 1] == msgs[..i - 1] && msgs[i - 1] == h.msgOf(txs[i - 1]) && Carries(h, txs[i - 1]);
    }
  }

  /** A chain of processed blocks includes transactions only in their turn, and its states hold the senders' nonces. */
  lemma {:induction false} ExecutedIsNonced(h: History, b: Block)
    requires Executed(h, b)
    ensures Nonced(b, h.txOf)
    ensures forall a {:trigger h.senders(a)} :: h.senders(a) ==> NonceIn(h.stateOf(b), a) == StateNonce(b, a, h.txOf)
    decreases b
  {
    if b.parent.Some? {
      ExecutedIsNonced(h, b.parent.value);
      var before := h.stateOf(b.parent.value);
      var spots :| ProcessedOn(h, before, b, spots);
      forall i: nat | i < |b.txs| ensures InTurn(b, i, h.txOf) {
        TurnOf(h, b, spots, i);
      }
      forall a | h.senders(a) ensures NonceIn(h.stateOf(b), a) == StateNonce(b, a, h.txOf) {
        StateOf(h, b, spots, a);
      }
    }
  }

  lemma TurnOf(h: History, b: Block, spots: seq<Spot>, i: nat)
    requires b.parent.Some? && Processed(h, b) && ProcessedOn(h, h.stateOf(b.parent.value), b, spots) && i < |b.txs|
    requires forall a {:trigger h.senders(a)} :: h.senders(a) ==>
      NonceIn(h.stateOf(b.parent.value), a) == StateNonce(b.parent.value, a, h.txOf)
    ensures InTurn(b, i, h.txOf)
  {
    var msgs := Messages(h, b.txs);
    assert Carries(h, b.txs[i]) && msgs[i] == h.msgOf(b.txs[i]);
    InOrder(spots, msgs, i, h.envOf(b), h.senders);
    SameCount(h, b.txs, i, h.txOf(b.txs[i]).from);
  }

  lemma SameTotal(h: History, txs: seq<TxId>, a: Address)
    requires forall j {:trigger txs[j]} :: 0 <= j < |txs| ==> Carries(h, txs[j])
    ensures Sent(Messages(h, txs), a) == SentBy(txs, a, h.txOf)
  {
    SameCount(h, txs, |txs|, a);
    assert txs[..|txs|] == txs && Messages(h, txs)[..|txs|] == Messages(h, txs);
  }

  /** The nonces after a processed block. */
  lemma NoncesAfter(spots: seq<Spot>, msgs: seq<Msg>, env: Env, senders: Senders, a: Address)
    requires Lawful(env.vm) && Counting(env.vm, senders) && Follows(spots, msgs, AppliesIn(env)) && senders(a)
    ensures NonceIn(spots[|msgs|].world, a) == NonceIn(spots[0].world, a) + Sent(msgs, a)
  {
    NoncesAt(spots, msgs, |msgs|, env, senders, a);
    assert msgs[..|msgs|] == msgs;
  }

  lemma StateOf(h: History, b: Block, spots: seq<Spot>, a: Address)
    requires b.parent.Some? && Processed(h, b) && ProcessedOn(h, h.stateOf(b.parent.value), b, spots) && h.senders(a)
    requires NonceIn(h.stateOf(b.parent.value), a) == StateNonce(b.parent.value, a, h.txOf)
    ensures NonceIn(h.stateOf(b), a) == StateNonce(b, a, h.txOf)
  {
    NoncesAfter(spots, Messages(h, b.txs), h.envOf(b), h.senders, a);
    SameTotal(h, b.txs, a);
  }
}
