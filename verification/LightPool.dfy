/** The light client's pool on a new head (light/txpool.go): transactions go back and forth between
    pending and mined, and the relay is told the net change. */
module LightPools {
  import opened Transactions
  import opened Chains
  import opened ChainWalks
  import opened ChainNonces
  import opened Traces

  datatype Pool = Pool(head: Block, pending: set<TxId>, mined: map<Block, seq<TxId>>)

  /** Which transactions have changed state: to mined or back to pending. */
  type Changes = map<TxId, bool>

  ghost predicate MinedIn(p: Pool, b: Block, t: TxId)
  {
    b in p.mined && t in p.mined[b]
  }

  ghost predicate IsMined(p: Pool, t: TxId)
  {
    exists b {:trigger MinedIn(p, b, t)} :: MinedIn(p, b, t)
  }

  ghost predicate Tracked(p: Pool, t: TxId)
  {
    t in p.pending || IsMined(p, t)
  }

  ghost predicate NoRepeats(s: seq<TxId>)
  {
    forall i, j :: 0 <= i < j < |s| ==> s[i] != s[j]
  }

  /** A transaction is pending or mined in one block that includes it, never both. */
  ghost predicate Sorted(p: Pool)
  {
    (forall b, t {:trigger MinedIn(p, b, t)} :: MinedIn(p, b, t) ==> t !in p.pending && t in b.txs) &&
    (forall b, c, t {:trigger MinedIn(p, b, t), MinedIn(p, c, t)} :: MinedIn(p, b, t) && MinedIn(p, c, t) ==> b == c) &&
    (forall b {:trigger p.mined[b]} :: b in p.mined ==> NoRepeats(p.mined[b]))
  }

  /** The mined blocks are ancestors of `top` that are not above the head. */
  ghost predicate OnBranch(p: Pool, top: Block)
  {
    forall b {:trigger b in p.mined} :: b in p.mined ==> b.number <= p.head.number && Ancestor(top, b.number) == Some(b)
  }

  /** The changes are the difference between the two states of a transaction. */
  ghost predicate Net(p: Pool, q: Pool, txc: Changes, t: TxId)
  {
    (t in txc && txc[t] <==> t in p.pending && IsMined(q, t)) &&
    (t in txc && !txc[t] <==> IsMined(p, t) && t in q.pending) &&
    (Tracked(q, t) <==> Tracked(p, t))
  }

  ghost predicate NetChanges(p: Pool, q: Pool, txc: Changes)
  {
    forall t {:trigger Net(p, q, txc, t)} :: Net(p, q, txc, t)
  }

  /** Records a change; a change back cancels the one before. */
  function SetState(txc: Changes, t: TxId, mined: bool): Changes
  {
    if t in txc && txc[t] != mined then txc - {t} else txc[t := mined]
  }

  /** The change lists for the relay. */
  method GetLists(txc: Changes) returns (mined: seq<TxId>, rollback: seq<TxId>)
    ensures forall t :: t in mined <==> t in txc && txc[t]
    ensures forall t :: t in rollback <==> t in txc && !txc[t]
  {
    mined, rollback := [], [];
    var rest := txc.Keys;
    while rest != {}
      invariant rest <= txc.Keys
      invariant forall t :: t in mined <==> t in txc && t !in rest && txc[t]
      invariant forall t :: t in rollback <==> t in txc && t !in rest && !txc[t]
      decreases rest
    {
      var t :| t in rest;
      if txc[t] {
        mined := mined + [t];
      } else {
        rollback := rollback + [t];
      }
      rest := rest - {t};
    }
  }

  // ---- going back ----

  function Elements(s: seq<TxId>): set<TxId>
  {
    set t | t in s
  }

  lemma ElementsNext(s: seq<TxId>, i: nat)
    requires i < |s|
    ensures s[..i + 1][..i] == s[..i] && Elements(s[..i + 1]) == Elements(s[..i]) + {s[i]}
  {
    assert s[..i + 1] == s[..i] + [s[i]];
  }

  function Back(p: Pool, b: Block, txs: set<TxId>): Pool
  {
    p.(pending := p.pending + txs, mined := p.mined - {b})
  }

  ghost function ChangedAll(txc: Changes, txs: seq<TxId>, mined: bool): Changes
  {
    if txs == [] then txc else SetState(ChangedAll(txc, txs[..|txs| - 1], mined), txs[|txs| - 1], mined)
  }

  /** Recording the same change for a list of different transactions. */
  lemma {:induction false} ChangedAt(txc: Changes, txs: seq<TxId>, mined: bool, t: TxId)
    requires NoRepeats(txs)
    ensures var r := ChangedAll(txc, txs, mined);
            if t in txs then (if t in txc && txc[t] != mined then t !in r else t in r && r[t] == mined)
            else (t in r <==> t in txc) && (t in r ==> r[t] == txc[t])
  {
    if txs != [] {
      ChangedAt(txc, txs[..|txs| - 1], mined, t);
      assert txs[|txs| - 1] !in txs[..|txs| - 1];
    }
  }

  /** rollbackTxs: what was mined in a block that is no longer on the branch is pending again. */
  method RollbackTxs(p: Pool, b: Block, txc: Changes) returns (q: Pool, txc2: Changes)
    requires b in p.mined ==> NoRepeats(p.mined[b])
    ensures if b in p.mined then q == Back(p, b, Elements(p.mined[b])) && txc2 == ChangedAll(txc, p.mined[b], false)
            else q == p && txc2 == txc
  {
    q, txc2 := p, txc;
    if b in p.mined {
      var list := p.mined[b];
      for i := 0 to |list|
        invariant q == p.(pending := p.pending + Elements(list[..i]))
        invariant txc2 == ChangedAll(txc, list[..i], false)
      {
        ElementsNext(list, i);
        q := q.(pending := q.pending + {list[i]});
        txc2 := SetState(txc2, list[i], false);
      }
      assert list[..|list|] == list;
      q := q.(mined := q.mined - {b});
    }
  }

  /** Going back keeps the books. */
  lemma BackKeeps(start: Pool, p: Pool, q: Pool, b: Block, txc: Changes, txc2: Changes)
    requires Sorted(start) && Sorted(p) && NetChanges(start, p, txc) && b in p.mined
    requires q == Back(p, b, Elements(p.mined[b])) && txc2 == ChangedAll(txc, p.mined[b], false)
    ensures Sorted(q) && NetChanges(start, q, txc2)
  {
    forall c, t ensures MinedIn(q, c, t) <==> MinedIn(p, c, t) && c != b {}
    forall t ensures Net(start, q, txc2, t) {
      BackNet(start, p, q, b, txc, txc2, t);
    }
    forall c, t | MinedIn(q, c, t) ensures t !in q.pending && t in c.txs {
      assert MinedIn(p, c, t);
      assert t in p.mined[b] ==> MinedIn(p, b, t);
    }
  }

  lemma BackNet(start: Pool, p: Pool, q: Pool, b: Block, txc: Changes, txc2: Changes, t: TxId)
    requires Sorted(start) && Sorted(p) && NetChanges(start, p, txc) && b in p.mined
    requires q == Back(p, b, Elements(p.mined[b])) && txc2 == ChangedAll(txc, p.mined[b], false)
    ensures Net(start, q, txc2, t)
  {
    assert Net(start, p, txc, t);
    ChangedAt(txc, p.mined[b], false, t);
    Excluded(start, t);
    if t in p.mined[b] {
      assert MinedIn(p, b, t);
      forall c ensures !MinedIn(q, c, t) {
        assert MinedIn(q, c, t) ==> MinedIn(p, c, t);
      }
    } else {
      SameMined(p, q, b, t);
    }
  }

  lemma Excluded(p: Pool, t: TxId)
    requires Sorted(p)
    ensures !(t in p.pending && IsMined(p, t))
  {
  }

  lemma SameMined(p: Pool, q: Pool, b: Block, t: TxId)
    requires forall c :: c != b ==> (c in q.mined <==> c in p.mined) && (c in p.mined ==> q.mined[c] == p.mined[c])
    requires !MinedIn(p, b, t) && !MinedIn(q, b, t)
    ensures IsMined(q, t) <==> IsMined(p, t)
  {
    forall c ensures MinedIn(q, c, t) <==> MinedIn(p, c, t) {}
  }

  // ---- going forward ----

  /** The block's transactions that are pending, in their order. */
  function Found(pending: set<TxId>, txs: seq<TxId>): seq<TxId>
  {
    if txs == [] then []
    else Found(pending, txs[..|txs| - 1]) + if txs[|txs| - 1] in pending then [txs[|txs| - 1]] else []
  }

  lemma {:induction false} FoundIs(pending: set<TxId>, txs: seq<TxId>)
    requires NoRepeats(txs)
    ensures NoRepeats(Found(pending, txs))
    ensures forall t :: t in Found(pending, txs) <==> t in txs && t in pending
  {
    if txs != [] {
      FoundIs(pending, txs[..|txs| - 1]);
      assert txs[|txs| - 1] !in txs[..|txs| - 1];
    }
  }

  function Forth(p: Pool, b: Block, list: seq<TxId>): Pool
  {
    p.(pending := p.pending - Elements(list), mined := p.mined[b := list])
  }

  /** checkMinedTxs: what a new block includes of the pending transactions is mined. The block's body or
      receipts may not be available. */
  method CheckMinedTxs(p: Pool, b: Block, txc: Changes, bodyOk: bool, receiptsOk: bool)
    returns (q: Pool, txc2: Changes, ok: bool)
    requires b !in p.mined && NoRepeats(b.txs)
    ensures var list := Found(p.pending, b.txs);
            if ok && list != [] then q == Forth(p, b, list) && txc2 == ChangedAll(txc, list, true)
            else q == p && txc2 == txc
    ensures ok <==> p.pending == {} || (bodyOk && (Found(p.pending, b.txs) == [] || receiptsOk))
  {
    q, txc2, ok := p, txc, true;
    if p.pending == {} {
      NothingFound(b.txs);
      return;
    }
    if !bodyOk {
      return q, txc2, false;
    }
    var list := FindPending(p.pending, b.txs);
    if list != [] {
      if !receiptsOk {
        return q, txc2, false;
      }
      q, txc2 := MoveToMined(p, b, list, txc);
    }
  }

  lemma {:induction false} NothingFound(txs: seq<TxId>)
    ensures Found({}, txs) == []
  {
    if txs != [] {
      NothingFound(txs[..|txs| - 1]);
    }
  }

  method FindPending(pending: set<TxId>, txs: seq<TxId>) returns (list: seq<TxId>)
    ensures list == Found(pending, txs)
  {
    list := [];
    for i := 0 to |txs|
      invariant list == Found(pending, txs[..i])
    {
      assert txs[..i + 1][..i] == txs[..i];
      if txs[i] in pending {
        list := list + [txs[i]];
      }
    }
    assert txs[..|txs|] == txs;
  }

  method MoveToMined(p: Pool, b: Block, list: seq<TxId>, txc: Changes) returns (q: Pool, txc2: Changes)
    ensures q == Forth(p, b, list) && txc2 == ChangedAll(txc, list, true)
  {
    q, txc2 := p, txc;
    for i := 0 to |list|
      invariant q == p.(pending := p.pending - Elements(list[..i]))
      invariant txc2 == ChangedAll(txc, list[..i], true)
    {
      ElementsNext(list, i);
      q := q.(pending := q.pending - {list[i]});
      txc2 := SetState(txc2, list[i], true);
    }
    assert list[..|list|] == list;
    q := q.(mined := q.mined[b := list]);
  }

  /** Going forward keeps the books. */
  lemma ForthKeeps(start: Pool, p: Pool, q: Pool, b: Block, list: seq<TxId>, txc: Changes, txc2: Changes)
    requires Sorted(start) && Sorted(p) && NetChanges(start, p, txc) && b !in p.mined
    requires NoRepeats(list) && (forall t :: t in list ==> t in p.pending && t in b.txs)
    requires q == Forth(p, b, list) && txc2 == ChangedAll(txc, list, true)
    ensures Sorted(q) && NetChanges(start, q, txc2)
  {
    forall c, t ensures MinedIn(q, c, t) <==> MinedIn(p, c, t) || (c == b && t in list) {}
    forall t ensures Net(start, q, txc2, t) {
      assert Net(start, p, txc, t);
      ChangedAt(txc, list, true, t);
      Excluded(start, t);
      Excluded(p, t);
      if t in list {
        assert MinedIn(q, b, t);
      } else {
        SameMined(p, q, b, t);
      }
    }
  }

  // ---- a new head ----

  lemma NothingChanged(p: Pool)
    requires Sorted(p)
    ensures NetChanges(p, p, map[])
  {
    forall t ensures Net(p, p, map[], t) {
      Excluded(p, t);
    }
  }

  /** `t` is pending, or mined in one of these blocks. */
  ghost predicate PendingOrIn(p: Pool, blocks: seq<Block>, t: TxId)
  {
    t in p.pending || exists b {:trigger MinedIn(p, b, t)} :: b in blocks && MinedIn(p, b, t)
  }

  /** `q` is `start` with these blocks rolled back. */
  ghost predicate RolledTo(start: Pool, blocks: seq<Block>, q: Pool)
  {
    q.head == start.head && (forall t {:trigger t in q.pending} :: t in q.pending <==> PendingOrIn(start, blocks, t)) &&
    forall b {:trigger b in q.mined} :: (b in q.mined <==> b in start.mined && b !in blocks) &&
      (b in q.mined ==> q.mined[b] == start.mined[b])
  }

  lemma RolledMore(start: Pool, blocks: seq<Block>, p: Pool, b: Block, q: Pool)
    requires RolledTo(start, blocks, p) && q == if b in p.mined then Back(p, b, Elements(p.mined[b])) else p
    ensures RolledTo(start, blocks + [b], q)
  {
    forall t ensures t in q.pending <==> PendingOrIn(start, blocks + [b], t) {
      assert t in p.pending <==> PendingOrIn(start, blocks, t);
      if PendingOrIn(start, blocks + [b], t) && !PendingOrIn(start, blocks, t) {
        var c :| c in blocks + [b] && MinedIn(start, c, t);
        assert c == b && b !in blocks;
      }
      if b in p.mined && t in p.mined[b] {
        assert MinedIn(start, b, t) && b in blocks + [b];
      }
    }
  }

  /** Rolls back a list of blocks. */
  method RollbackAll(start: Pool, blocks: seq<Block>) returns (q: Pool, txc: Changes)
    requires Sorted(start)
    ensures Sorted(q) && NetChanges(start, q, txc) && RolledTo(start, blocks, q)
  {
    q, txc := start, map[];
    NothingChanged(start);
    for i := 0 to |blocks|
      invariant Sorted(q) && NetChanges(start, q, txc) && RolledTo(start, blocks[..i], q)
    {
      ghost var p, before := q, txc;
      q, txc := RollbackTxs(q, blocks[i], txc);
      if blocks[i] in p.mined {
        BackKeeps(start, p, q, blocks[i], before, txc);
      }
      RolledMore(start, blocks[..i], p, blocks[i], q);
      assert blocks[..i + 1] == blocks[..i] + [blocks[i]];
    }
    assert blocks[..|blocks|] == blocks;
  }

  // ---- what a new head makes of a pool ----

  /** `t` is pending once what is above `common` is rolled back. */
  ghost predicate Freed(p: Pool, common: Block, t: TxId)
  {
    t in p.pending || exists b: Block {:trigger MinedIn(p, b, t)} :: b.number > common.number && MinedIn(p, b, t)
  }

  /** `t` is still pending when the blocks of the branch from `common` to `top` are done up to height `h`. */
  ghost predicate Waits(p: Pool, common: Block, top: Block, h: nat, t: TxId)
  {
    Freed(p, common, t) &&
    forall c: Block {:trigger Between(c, top, common)} :: Between(c, top, common) && c.number <= h ==> t !in c.txs
  }

  /** `t` is mined in block `b` of the branch. */
  ghost predicate MinesIn(p: Pool, common: Block, top: Block, b: Block, t: TxId)
  {
    Between(b, top, common) && t in b.txs && Waits(p, common, top, b.number - 1, t)
  }

  /** Something is pending when block `b` comes, and the block cannot be fetched; or it can, includes something
      of it, and its receipts cannot. */
  ghost predicate Blocked(p: Pool, common: Block, top: Block, b: Block, bodyOk: Block -> bool,
                          receiptsOk: Block -> bool)
    requires b.number > common.number
  {
    (exists t {:trigger Waits(p, common, top, b.number - 1, t)} :: Waits(p, common, top, b.number - 1, t)) &&
    (!bodyOk(b) ||
     (!receiptsOk(b) && exists t {:trigger MinesIn(p, common, top, b, t)} :: MinesIn(p, common, top, b, t)))
  }

  ghost predicate PendingIs(p: Pool, common: Block, top: Block, q: Pool)
  {
    forall t {:trigger t in q.pending} :: t in q.pending <==> Waits(p, common, top, q.head.number, t)
  }

  ghost predicate MinedIs(p: Pool, common: Block, top: Block, q: Pool)
  {
    (forall b: Block, t: TxId {:trigger MinedIn(q, b, t)} :: MinedIn(q, b, t) <==>
       if b.number <= common.number then MinedIn(p, b, t)
       else b.number <= q.head.number && MinesIn(p, common, top, b, t)) &&
    forall b: Block {:trigger q.mined[b]} :: b in q.mined && b.number <= common.number ==>
      b in p.mined && q.mined[b] == p.mined[b]
  }

  ghost predicate Unblocked(p: Pool, common: Block, top: Block, h: nat, bodyOk: Block -> bool,
                            receiptsOk: Block -> bool)
  {
    forall b: Block {:trigger Between(b, top, common)} :: Between(b, top, common) && b.number <= h ==>
      !Blocked(p, common, top, b, bodyOk, receiptsOk)
  }

  /** The pool on the way from its head by `common` to `top`: pending is what was pending or mined above
      `common` and what no block up to the head includes, each such block has mined what it includes of what
      was pending when it came, and below `common` nothing has changed. */
  ghost predicate Reached(p: Pool, common: Block, top: Block, bodyOk: Block -> bool, receiptsOk: Block -> bool, q: Pool)
  {
    Ancestor(top, q.head.number) == Some(q.head) && common.number <= q.head.number &&
    PendingIs(p, common, top, q) && MinedIs(p, common, top, q) &&
    Unblocked(p, common, top, q.head.number, bodyOk, receiptsOk)
  }

  /** Block `b` comes after height `h` and is not available and needed. */
  ghost predicate StopsAt(p: Pool, common: Block, top: Block, h: nat, b: Block, bodyOk: Block -> bool,
                          receiptsOk: Block -> bool)
  {
    Between(b, top, common) && b.number == h + 1 && Blocked(p, common, top, b, bodyOk, receiptsOk)
  }

  /** It goes all the way, or stops before the first block that is not available and needed. */
  ghost predicate HeadMoved(p: Pool, common: Block, top: Block, bodyOk: Block -> bool, receiptsOk: Block -> bool,
                            q: Pool)
  {
    IsCommon(p.head, top, common) && Reached(p, common, top, bodyOk, receiptsOk, q) &&
    (q.head != top ==>
       exists b {:trigger StopsAt(p, common, top, q.head.number, b, bodyOk, receiptsOk)} ::
         StopsAt(p, common, top, q.head.number, b, bodyOk, receiptsOk))
  }

  lemma WaitsNext(p: Pool, common: Block, top: Block, b: Block, t: TxId)
    requires Between(b, top, common)
    ensures Waits(p, common, top, b.number, t) <==> Waits(p, common, top, b.number - 1, t) && t !in b.txs
  {
  }

  lemma SomeWait(p: Pool, common: Block, top: Block, q: Pool)
    requires PendingIs(p, common, top, q)
    ensures q.pending != {} <==>
            exists t {:trigger Waits(p, common, top, q.head.number, t)} :: Waits(p, common, top, q.head.number, t)
  {
    if t :| Waits(p, common, top, q.head.number, t) {
      assert t in q.pending;
    }
    if q.pending != {} {
      var t :| t in q.pending;
      assert Waits(p, common, top, q.head.number, t);
    }
  }

  lemma SomeMined(p: Pool, common: Block, top: Block, q: Pool, b: Block, list: seq<TxId>)
    requires PendingIs(p, common, top, q) && Between(b, top, common) && b.number == q.head.number + 1
    requires forall t :: t in list <==> t in b.txs && t in q.pending
    ensures (exists t {:trigger MinesIn(p, common, top, b, t)} :: MinesIn(p, common, top, b, t)) <==> list != []
  {
    if t :| MinesIn(p, common, top, b, t) {
      assert t in q.pending && t in list;
    }
    if list != [] {
      assert list[0] in list && list[0] in q.pending && MinesIn(p, common, top, b, list[0]);
    }
  }

  /** What is pending just before a block comes tells whether the block is needed. */
  lemma BlockedIs(p: Pool, common: Block, top: Block, q: Pool, b: Block, bodyOk: Block -> bool,
                  receiptsOk: Block -> bool)
    requires PendingIs(p, common, top, q) && Between(b, top, common) && b.number == q.head.number + 1
    requires NoRepeats(b.txs)
    ensures Blocked(p, common, top, b, bodyOk, receiptsOk) <==>
            q.pending != {} && (!bodyOk(b) || (!receiptsOk(b) && Found(q.pending, b.txs) != []))
  {
    FoundIs(q.pending, b.txs);
    SomeWait(p, common, top, q);
    SomeMined(p, common, top, q, b, Found(q.pending, b.txs));
  }

  /** The books after each step of a reorg towards `top`. */
  ghost predicate Kept(start: Pool, q: Pool, txc: Changes, top: Block)
  {
    Sorted(q) && NetChanges(start, q, txc) && OnBranch(q, top) && Ancestor(top, q.head.number) == Some(q.head)
  }

  /** One block further. */
  lemma ReachedNext(start: Pool, common: Block, top: Block, p: Pool, b: Block, list: seq<TxId>, bodyOk: Block -> bool,
                    receiptsOk: Block -> bool, q: Pool)
    requires Reached(start, common, top, bodyOk, receiptsOk, p) && Between(b, top, common)
    requires b.number == p.head.number + 1 && NoRepeats(b.txs) && b !in p.mined && list == Found(p.pending, b.txs)
    requires q == (if list == [] then p else Forth(p, b, list)).(head := b)
    requires !Blocked(start, common, top, b, bodyOk, receiptsOk)
    ensures Reached(start, common, top, bodyOk, receiptsOk, q)
  {
    FoundIs(p.pending, b.txs);
    forall t ensures t in q.pending <==> Waits(start, common, top, b.number, t) {
      assert t in p.pending <==> Waits(start, common, top, p.head.number, t);
      WaitsNext(start, common, top, b, t);
    }
    MinedNext(start, common, top, p, b, list, q);
  }

  lemma MinedNext(start: Pool, common: Block, top: Block, p: Pool, b: Block, list: seq<TxId>, q: Pool)
    requires PendingIs(start, common, top, p) && MinedIs(start, common, top, p) && Between(b, top, common)
    requires b.number == p.head.number + 1 && b !in p.mined
    requires forall t :: t in list <==> t in b.txs && t in p.pending
    requires q == (if list == [] then p else Forth(p, b, list)).(head := b)
    ensures MinedIs(start, common, top, q)
  {
    forall c: Block, t: TxId ensures MinedIn(q, c, t) <==>
                        if c.number <= common.number then MinedIn(start, c, t)
                        else c.number <= b.number && MinesIn(start, common, top, c, t)
    {
      assert MinedIn(q, c, t) <==> MinedIn(p, c, t) || (c == b && t in list);
      assert !MinedIn(p, b, t);
      if c == b {
        assert t in p.pending <==> Waits(start, common, top, p.head.number, t);
      }
    }
  }

  /** Goes on to the next block of the branch, or stops before it. */
  method MineNext(ghost start: Pool, ghost common: Block, p: Pool, txc: Changes, ghost header: Block, b: Block,
                  bodyOk: Block -> bool, receiptsOk: Block -> bool)
    returns (q: Pool, txc2: Changes, ok: bool)
    requires Sorted(start) && Kept(start, p, txc, header) && Reached(start, common, header, bodyOk, receiptsOk, p)
    requires Between(b, header, common) && b.number == p.head.number + 1 && NoRepeats(b.txs)
    ensures Kept(start, q, txc2, header) && Reached(start, common, header, bodyOk, receiptsOk, q)
    ensures q.head == (if ok then b else p.head) && (ok <==> !Blocked(start, common, header, b, bodyOk, receiptsOk))
  {
    assert b !in p.mined;
    q, txc2, ok := CheckMinedTxs(p, b, txc, bodyOk(b), receiptsOk(b));
    BlockedIs(start, common, header, p, b, bodyOk, receiptsOk);
    FoundIs(p.pending, b.txs);
    if ok {
      ghost var m := q;
      q := q.(head := b);
      if Found(p.pending, b.txs) != [] {
        ForthKeeps(start, p, m, b, Found(p.pending, b.txs), txc, txc2);
      }
      NetOfHead(start, m, q, txc2);
      ReachedNext(start, common, header, p, b, Found(p.pending, b.txs), bodyOk, receiptsOk, q);
    }
  }

  /** None of the block's transactions is still pending. */
  ghost predicate NonePending(p: Pool, b: Block)
  {
    forall t {:trigger t in p.pending} :: t in p.pending ==> t !in b.txs
  }

  /** Nothing of a branch that has been gone through is pending. */
  lemma NoneLeft(p: Pool, common: Block, top: Block, q: Pool)
    requires PendingIs(p, common, top, q) && q.head == top
    ensures forall b: Block {:trigger Between(b, top, common)} :: Between(b, top, common) ==> NonePending(q, b)
  {
    forall b: Block | Between(b, top, common) ensures NonePending(q, b) {
      NotAbove(top, b.number);
    }
  }

  /** Every block can be fetched. */
  ghost predicate Available(bodyOk: Block -> bool, receiptsOk: Block -> bool)
  {
    forall b: Block {:trigger bodyOk(b)} {:trigger receiptsOk(b)} :: bodyOk(b) && receiptsOk(b)
  }

  /** reorgOnNewHead up to the pruning: roll back the old branch, then go forward on the new one. What is
      tracked and that nothing is both pending and mined is kept, and the changes are exact, also if a
      block could not be fetched; then the head is the last block that was done. */
  method ReorgOnNewHead(store: set<Block>, genesis: Block, start: Pool, header: Block, bodyOk: Block -> bool,
                        receiptsOk: Block -> bool)
    returns (q: Pool, txc: Changes, ok: bool, ghost common: Block)
    requires Rooted(store, genesis) && Connected(store, genesis, start.head) && Connected(store, genesis, header)
    requires Sorted(start) && OnBranch(start, start.head)
    requires forall b: Block {:trigger Ancestor(header, b.number)} ::
      Ancestor(header, b.number) == Some(b) ==> NoRepeats(b.txs)
    ensures Kept(start, q, txc, header) && OnBranch(q, q.head)
    ensures HeadMoved(start, common, header, bodyOk, receiptsOk, q) && (ok <==> q.head == header)
    ensures Available(bodyOk, receiptsOk) ==> ok
    ensures ok ==>
      forall b: Block {:trigger Between(b, header, common)} :: Between(b, header, common) ==> NonePending(q, b)
  {
    var fork, oldChain, newChain := LightWalk(store, genesis, start.head, header);
    common := fork;
    q, txc := RollbackAll(start, oldChain);
    ghost var rolled := q;
    q := q.(head := fork);
    ReachedFork(start, rolled, q, header, common, oldChain, newChain, bodyOk, receiptsOk);
    NetOfHead(start, rolled, q, txc);
    ok := true;
    var i := |newChain|;
    while i > 0 && ok
      invariant 0 <= i <= |newChain| && Kept(start, q, txc, header) && q.head.number == header.number - i
      invariant Reached(start, common, header, bodyOk, receiptsOk, q)
      invariant !ok ==> i > 0 && StopsAt(start, common, header, q.head.number, newChain[i - 1], bodyOk, receiptsOk)
      decreases i, ok
    {
      var b := newChain[i - 1];
      NumberOfAncestor(header, header.number - (i - 1));
      q, txc, ok := MineNext(start, common, q, txc, header, b, bodyOk, receiptsOk);
      if ok {
        i := i - 1;
      }
    }
    BelowHead(q, header);
    if ok {
      NoneLeft(start, common, header, q);
    }
  }

  lemma NetOfHead(start: Pool, p: Pool, q: Pool, txc: Changes)
    requires Sorted(p) && NetChanges(start, p, txc) && q == p.(head := q.head)
    ensures Sorted(q) && NetChanges(start, q, txc)
  {
    forall b, t ensures MinedIn(q, b, t) <==> MinedIn(p, b, t) {}
    forall t ensures Net(start, q, txc, t) {
      assert Net(start, p, txc, t);
      SameLists(p, q, t);
    }
  }

  lemma SameLists(p: Pool, q: Pool, t: TxId)
    requires q.mined == p.mined
    ensures IsMined(q, t) <==> IsMined(p, t)
  {
    forall c ensures MinedIn(q, c, t) <==> MinedIn(p, c, t) {}
  }

  /** What is left after the rollback lies on both branches. */
  lemma RolledBack(start: Pool, q: Pool, header: Block, common: Block, oldChain: seq<Block>, newChain: seq<Block>)
    requires OnBranch(start, start.head) && IsFork(start.head, header, common, oldChain, newChain)
    requires (forall b :: b in q.mined <==> b in start.mined && b !in oldChain) && q.head == common
    ensures OnBranch(q, header)
    ensures forall b :: b in start.mined ==> (b in oldChain <==> b.number > common.number)
  {
    forall b | b in start.mined ensures b in oldChain <==> b.number > common.number {
      BranchMember(oldChain, start.head, common, b);
    }
    forall b | b in q.mined ensures b.number <= common.number && Ancestor(header, b.number) == Some(b) {
      SharedBelow(start.head, header, common.number, b.number);
    }
  }

  /** The pool at the fork point. */
  lemma ReachedFork(start: Pool, rolled: Pool, q: Pool, header: Block, common: Block, oldChain: seq<Block>,
                    newChain: seq<Block>, bodyOk: Block -> bool, receiptsOk: Block -> bool)
    requires OnBranch(start, start.head) && IsFork(start.head, header, common, oldChain, newChain)
    requires RolledTo(start, oldChain, rolled) && q == rolled.(head := common)
    ensures OnBranch(q, header) && Reached(start, common, header, bodyOk, receiptsOk, q)
  {
    RolledBack(start, q, header, common, oldChain, newChain);
    forall t ensures t in q.pending <==> Waits(start, common, header, common.number, t) {
      assert t in rolled.pending <==> PendingOrIn(start, oldChain, t);
      FreedIs(start, common, oldChain, t);
    }
    forall b, t ensures MinedIn(q, b, t) <==> b.number <= common.number && MinedIn(start, b, t) {}
  }

  lemma FreedIs(start: Pool, common: Block, oldChain: seq<Block>, t: TxId)
    requires forall b :: b in start.mined ==> (b in oldChain <==> b.number > common.number)
    ensures PendingOrIn(start, oldChain, t) <==> Freed(start, common, t)
  {
  }

  lemma BelowHead(q: Pool, top: Block)
    requires OnBranch(q, top) && Ancestor(top, q.head.number) == Some(q.head)
    ensures OnBranch(q, q.head)
  {
    forall b | b in q.mined ensures Ancestor(q.head, b.number) == Some(b) {
      AncestorOfAncestor(top, q.head.number, b.number);
    }
  }

  // ---- the life of a pool ----

  /** The nonce check of validateTx, which looks at the state of the chain's head. */
  predicate TooLow(chain: Block, t: TxId, txOf: TxId -> Tx)
  {
    txOf(t).nonce < StateNonce(chain, txOf(t).from, txOf)
  }

  /** A transaction that is new and passes the nonce check and the others is pending. */
  function Offered(p: Pool, t: TxId, chain: Block, othersOk: bool, txOf: TxId -> Tx): Pool
  {
    if t !in p.pending && !TooLow(chain, t, txOf) && othersOk then p.(pending := p.pending + {t}) else p
  }

  /** Exactly when an offer leaves the transaction in one place: it is refused, or not recorded as mined. */
  lemma OfferKeeps(p: Pool, t: TxId, chain: Block, othersOk: bool, txOf: TxId -> Tx)
    requires Sorted(p) && OnBranch(p, p.head)
    ensures Sorted(Offered(p, t, chain, othersOk, txOf)) <==>
            !othersOk || TooLow(chain, t, txOf) || t in p.pending || !IsMined(p, t)
    ensures OnBranch(Offered(p, t, chain, othersOk, txOf), p.head)
  {
    var q := Offered(p, t, chain, othersOk, txOf);
    forall b, x ensures MinedIn(q, b, x) <==> MinedIn(p, b, x) {}
    if q != p && IsMined(p, t) {
      var b :| MinedIn(p, b, t);
      assert MinedIn(q, b, t) && t in q.pending;
    }
  }

  /** In no account is the chain's head behind the pool's head. */
  ghost predicate NoneBehind(head: Block, chain: Block, txOf: TxId -> Tx)
  {
    forall a {:trigger StateNonce(head, a, txOf)} :: StateNonce(head, a, txOf) <= StateNonce(chain, a, txOf)
  }

  /** So it is for a chain that goes on from the pool's head. */
  lemma DescendantNotBehind(head: Block, chain: Block, txOf: TxId -> Tx)
    requires Ancestor(chain, head.number) == Some(head)
    ensures NoneBehind(head, chain, txOf)
  {
    forall a ensures StateNonce(head, a, txOf) <= StateNonce(chain, a, txOf) {
      NonceGrows(chain, head, a, txOf);
    }
  }

  /** A transaction that is recorded as mined has a nonce below that of the pool's head. */
  lemma MinedIsBelow(p: Pool, t: TxId, txOf: TxId -> Tx)
    requires Sorted(p) && OnBranch(p, p.head) && Nonced(p.head, txOf) && IsMined(p, t)
    ensures TooLow(p.head, t, txOf)
  {
    var b :| MinedIn(p, b, t);
    IncludedIsBelow(p.head, b, t, txOf);
  }

  /** Every offer to every pool at this head leaves the books in order. */
  ghost predicate OffersKeep(head: Block, chain: Block, txOf: TxId -> Tx)
  {
    forall p: Pool, t: TxId {:trigger Offered(p, t, chain, true, txOf)} ::
      p.head == head && Sorted(p) && OnBranch(p, head) ==> Sorted(Offered(p, t, chain, true, txOf))
  }

  /** Exactly then, whatever the pool holds and whatever is offered: no account is behind. */
  lemma OffersKeepExactly(store: set<Block>, genesis: Block, head: Block, chain: Block, txOf: TxId -> Tx)
    requires Rooted(store, genesis) && Connected(store, genesis, head) && Nonced(head, txOf)
    ensures OffersKeep(head, chain, txOf) <==> NoneBehind(head, chain, txOf)
  {
    if NoneBehind(head, chain, txOf) {
      forall p: Pool, t | p.head == head && Sorted(p) && OnBranch(p, head)
        ensures Sorted(Offered(p, t, chain, true, txOf))
      {
        OfferKeeps(p, t, chain, true, txOf);
        if IsMined(p, t) {
          MinedIsBelow(p, t, txOf);
        }
      }
    } else {
      var a :| StateNonce(head, a, txOf) > StateNonce(chain, a, txOf);
      var b, t := LastSent(store, genesis, head, a, txOf);
      LostBooks(head, chain, b, t, txOf);
    }
  }

  /** A mined transaction is offered while the chain's head is on a branch that is behind. */
  lemma LostBooks(head: Block, chain: Block, b: Block, t: TxId, txOf: TxId -> Tx)
    requires Ancestor(head, b.number) == Some(b) && t in b.txs && !TooLow(chain, t, txOf)
    ensures !OffersKeep(head, chain, txOf)
  {
    var p := Pool(head, {}, map[b := [t]]);
    NotAbove(head, b.number);
    assert MinedIn(p, b, t);
    OfferKeeps(p, t, chain, true, txOf);
  }

  lemma MinedSomewhere(p: Pool, t: TxId)
    ensures IsMined(p, t) <==> exists b :: b in p.mined && t in p.mined[b]
  {
    if b :| b in p.mined && t in p.mined[b] {
      assert MinedIn(p, b, t);
    }
  }

  /** Removed transactions are no longer pending; mined ones stay recorded. */
  lemma RemovalKeeps(p: Pool, ts: set<TxId>)
    requires Sorted(p) && OnBranch(p, p.head)
    ensures var q := p.(pending := p.pending - ts); Sorted(q) && OnBranch(q, q.head)
  {
    var q := p.(pending := p.pending - ts);
    forall b, x ensures MinedIn(q, b, x) <==> MinedIn(p, b, x) {}
  }

  datatype Event =
    | Offer(t: TxId, chain: Block, othersOk: bool)
    | Drop(ts: seq<TxId>)
    | NewHead(header: Block, bodyOk: Block -> bool, receiptsOk: Block -> bool)

  ghost predicate Step(p: Pool, e: Event, q: Pool, txOf: TxId -> Tx)
  {
    match e
    case Offer(t, chain, othersOk) => q == Offered(p, t, chain, othersOk, txOf)
    case Drop(ts) => q == p.(pending := p.pending - set t | t in ts)
    case NewHead(header, bodyOk, receiptsOk) =>
      (exists txc {:trigger Kept(p, q, txc, header)} :: Kept(p, q, txc, header)) &&
      (exists common {:trigger HeadMoved(p, common, header, bodyOk, receiptsOk, q)} ::
         HeadMoved(p, common, header, bodyOk, receiptsOk, q)) &&
      (Available(bodyOk, receiptsOk) ==> q.head == header)
  }

  ghost function StepIn(txOf: TxId -> Tx): (Pool, Event, Pool) -> bool
  {
    (p, e, q) => Step(p, e, q, txOf)
  }

  /** The first block includes a transaction that the pool has pending; before the pool hears of the second one,
      which replaces it and does not include the transaction, that is offered again. The pool then has it
      pending and mined. */
  lemma OfferedAgain(t: TxId, txOf: TxId -> Tx, genesis: Block, a: Block, b: Block, yes: Block -> bool)
    requires txOf(t).nonce == 0 && genesis == Block(0, None, 1, [], 0) && forall x :: yes(x)
    requires a == Block(1, Some(genesis), 1, [t], 0) && b == Block(1, Some(genesis), 1, [], 1)
    ensures var p, q := Pool(genesis, {t}, map[]), Pool(a, {}, map[a := [t]]);
            Sorted(p) && p == Offered(Pool(genesis, {}, map[]), t, genesis, true, txOf) &&
            Sorted(q) && HeadMoved(p, genesis, a, yes, yes, q) && Nonced(a, txOf) && Nonced(b, txOf) &&
            !Sorted(Offered(q, t, b, true, txOf))
  {
    var p, q := Pool(genesis, {t}, map[]), Pool(a, {}, map[a := [t]]);
    assert MinedIn(q, a, t);
    OfferKeeps(q, t, b, true, txOf);
    OneBlock(t, genesis, a, yes, p, q);
    assert SentBy([], txOf(t).from, txOf) == 0 && [t][..0] == [];
    assert InTurn(a, 0, txOf);
  }

  lemma OneBlock(t: TxId, genesis: Block, a: Block, yes: Block -> bool, p: Pool, q: Pool)
    requires genesis == Block(0, None, 1, [], 0) && a == Block(1, Some(genesis), 1, [t], 0) && forall x :: yes(x)
    requires p == Pool(genesis, {t}, map[]) && q == Pool(a, {}, map[a := [t]])
    ensures HeadMoved(p, genesis, a, yes, yes, q)
  {
    forall x: Block ensures Between(x, a, genesis) <==> x == a {
      assert x.number > 1 ==> Ancestor(a, x.number).None?;
    }
    forall x: TxId ensures (Waits(p, genesis, a, 0, x) <==> x == t) && !Waits(p, genesis, a, 1, x) {
      assert Between(a, a, genesis);
    }
    forall b: Block, x: TxId ensures MinedIn(q, b, x) <==> MinesIn(p, genesis, a, b, x) {}
  }

  /** What holds of the pool between its operations. */
  ghost predicate Valid(store: set<Block>, genesis: Block, p: Pool, txOf: TxId -> Tx)
  {
    Sorted(p) && OnBranch(p, p.head) && Connected(store, genesis, p.head) && Nonced(p.head, txOf)
  }

  /** The new heads are on the chain and their branches include transactions in their turn. */
  ghost predicate Sane(store: set<Block>, genesis: Block, e: Event, txOf: TxId -> Tx)
  {
    e.NewHead? ==> Connected(store, genesis, e.header) && Nonced(e.header, txOf)
  }

  lemma NoncedNoRepeats(header: Block, b: Block, txOf: TxId -> Tx)
    requires Nonced(header, txOf) && Ancestor(header, b.number) == Some(b)
    ensures NoRepeats(b.txs)
  {
    NoncedBelow(header, b, txOf);
    forall i, j | 0 <= i < j < |b.txs| ensures b.txs[i] != b.txs[j] {
      NoncedDistinct(b, i, j, txOf);
    }
  }

  lemma AncestorConnected(store: set<Block>, genesis: Block, header: Block, b: Block)
    requires Rooted(store, genesis) && Connected(store, genesis, header) && Ancestor(header, b.number) == Some(b)
    ensures Connected(store, genesis, b)
  {
    if b != header {
      AncestorIsStored(store, genesis, header.parent.value, b.number);
    }
  }

  /** An offer that would break the books: it passes the checks on a chain that does not go on from the pool's
      head, and in which the sender is behind. */
  ghost predicate Misplaced(p: Pool, e: Event, txOf: TxId -> Tx)
  {
    e.Offer? && IsMined(p, e.t) && !TooLow(e.chain, e.t, txOf) && TooLow(p.head, e.t, txOf) &&
    Ancestor(e.chain, p.head.number) != Some(p.head)
  }

  /** Every other offer keeps the books. */
  lemma OfferMisplaced(store: set<Block>, genesis: Block, p: Pool, e: Event, txOf: TxId -> Tx)
    requires Valid(store, genesis, p, txOf) && e.Offer?
    ensures var q := Offered(p, e.t, e.chain, e.othersOk, txOf);
            Valid(store, genesis, q, txOf) || (e.othersOk && Misplaced(p, e, txOf))
  {
    OfferKeeps(p, e.t, e.chain, e.othersOk, txOf);
    if IsMined(p, e.t) {
      MinedIsBelow(p, e.t, txOf);
      if Ancestor(e.chain, p.head.number) == Some(p.head) {
        DescendantNotBehind(p.head, e.chain, txOf);
      }
    }
  }

  class LightTxPool {
    var pool: Pool
    const txOf: TxId -> Tx

    constructor (head: Block, txOf: TxId -> Tx)
      ensures pool == Pool(head, {}, map[]) && Sorted(pool) && OnBranch(pool, pool.head) && this.txOf == txOf
    {
      pool := Pool(head, {}, map[]);
      this.txOf := txOf;
    }

    /** A new head: the relay is told which transactions are mined now and were pending before, and which
        are pending now and were mined before; what went there and back is in neither list. */
    method SetNewHead(store: set<Block>, genesis: Block, header: Block, bodyOk: Block -> bool,
                      receiptsOk: Block -> bool)
      returns (mined: seq<TxId>, rollback: seq<TxId>, ok: bool, ghost common: Block)
      requires Rooted(store, genesis) && Connected(store, genesis, pool.head) && Connected(store, genesis, header)
      requires Sorted(pool) && OnBranch(pool, pool.head)
      requires forall b: Block {:trigger Ancestor(header, b.number)} ::
        Ancestor(header, b.number) == Some(b) ==> NoRepeats(b.txs)
      modifies this
      ensures Sorted(pool) && OnBranch(pool, pool.head) && (ok <==> pool.head == header)
      ensures HeadMoved(old(pool), common, header, bodyOk, receiptsOk, pool)
      ensures Step(old(pool), NewHead(header, bodyOk, receiptsOk), pool, txOf)
      ensures Ancestor(header, pool.head.number) == Some(pool.head)
      ensures ok ==>
        forall b: Block {:trigger Between(b, header, common)} :: Between(b, header, common) ==> NonePending(pool, b)
      ensures forall t :: t in mined <==> t in old(pool).pending && IsMined(pool, t)
      ensures forall t :: t in rollback <==> IsMined(old(pool), t) && t in pool.pending
      ensures forall t :: Tracked(pool, t) <==> Tracked(old(pool), t)
    {
      ghost var before := pool;
      var txc;
      pool, txc, ok, common := ReorgOnNewHead(store, genesis, pool, header, bodyOk, receiptsOk);
      mined, rollback := GetLists(txc);
      forall t ensures (t in mined <==> t in before.pending && IsMined(pool, t)) &&
                       (t in rollback <==> IsMined(before, t) && t in pool.pending) &&
                       (Tracked(pool, t) <==> Tracked(before, t))
      {
        assert Net(before, pool, txc, t);
      }
    }

    method Add(t: TxId, chain: Block, othersOk: bool) returns (added: bool)
      modifies this
      ensures pool == Offered(old(pool), t, chain, othersOk, txOf)
      ensures added <==> t !in old(pool).pending && !TooLow(chain, t, txOf) && othersOk
    {
      added := t !in pool.pending && !TooLow(chain, t, txOf) && othersOk;
      if added {
        pool := pool.(pending := pool.pending + {t});
      }
    }

    method RemoveTransactions(ts: seq<TxId>)
      modifies this
      ensures pool == old(pool).(pending := old(pool).pending - set t | t in ts)
    {
      for i := 0 to |ts|
        invariant pool == old(pool).(pending := old(pool).pending - set t | t in ts[..i])
      {
        pool := pool.(pending := pool.pending - {ts[i]});
        assert ts[..i + 1] == ts[..i] + [ts[i]];
      }
      assert ts[..|ts|] == ts;
    }

    /** One event, unless it is an offer that would break the books. */
    method Happen(store: set<Block>, genesis: Block, e: Event) returns (ok: bool)
      requires Rooted(store, genesis) && Valid(store, genesis, pool, txOf) && Sane(store, genesis, e, txOf)
      modifies this
      ensures if ok then Step(old(pool), e, pool, txOf) && Valid(store, genesis, pool, txOf)
              else pool == old(pool) && Misplaced(pool, e, txOf)
    {
      ok := true;
      match e {
        case Offer(t, chain, othersOk) =>
          OfferKeeps(pool, t, chain, othersOk, txOf);
          OfferMisplaced(store, genesis, pool, e, txOf);
          var mined := exists b :: b in pool.mined && t in pool.mined[b];
          ok := !othersOk || TooLow(chain, t, txOf) || t in pool.pending || !mined;
          MinedSomewhere(pool, t);
          if ok {
            var added := Add(t, chain, othersOk);
          }
        case Drop(ts) =>
          RemovalKeeps(pool, set t | t in ts);
          RemoveTransactions(ts);
        case NewHead(header, bodyOk, receiptsOk) =>
          forall b: Block | Ancestor(header, b.number) == Some(b) ensures NoRepeats(b.txs) {
            NoncedNoRepeats(header, b, txOf);
          }
          var mined, rollback, done;
          ghost var common;
          mined, rollback, done, common := SetNewHead(store, genesis, header, bodyOk, receiptsOk);
          AncestorConnected(store, genesis, header, pool.head);
          NoncedBelow(header, pool.head, txOf);
      }
    }

    /** The first `n` events, up to an accepted offer of a transaction that is recorded as mined, which takes a chain
        whose head does not descend from the pool's: at every point of the run each transaction is pending or
        mined in one block of the head's branch, never both. */
    method Run(store: set<Block>, genesis: Block, events: seq<Event>) returns (n: nat, ghost trace: seq<Pool>)
      requires Rooted(store, genesis) && Valid(store, genesis, pool, txOf)
      requires forall i {:trigger events[i]} :: 0 <= i < |events| ==> Sane(store, genesis, events[i], txOf)
      modifies this
      ensures n <= |events| && Follows(trace, events[..n], StepIn(txOf)) && trace[0] == old(pool) && trace[n] == pool
      ensures forall i :: 0 <= i < |trace| ==> Valid(store, genesis, trace[i], txOf)
      ensures n < |events| ==> Misplaced(pool, events[n], txOf)
    {
      n, trace := 0, [pool];
      while n < |events|
        invariant n <= |events| && Follows(trace, events[..n], StepIn(txOf)) && trace[0] == old(pool)
        invariant trace[n] == pool && forall i :: 0 <= i < |trace| ==> Valid(store, genesis, trace[i], txOf)
      {
        assert Valid(store, genesis, trace[n], txOf) && Sane(store, genesis, events[n], txOf);
        var ok := Happen(store, genesis, events[n]);
        if !ok {
          return;
        }
        FollowsMore(trace, events, n, pool, StepIn(txOf));
        trace, n := trace + [pool], n + 1;
      }
    }
  }
}
