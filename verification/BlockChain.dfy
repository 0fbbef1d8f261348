/** Block insertion, reorganisation and the transaction lookup table (core/blockchain.go,
    core/database_util.go). */
module BlockChains {
  import opened Transactions
  import opened Chains
  import opened ChainWalks
  import opened HeaderChains
  import opened Traces

  datatype Entry = Entry(block: Block, number: nat, index: nat)

  type Lookup = map<TxId, Entry>

  predicate At(b: Block, i: nat, t: TxId)
  {
    i < |b.txs| && b.txs[i] == t
  }

  /** Block `b` is an ancestor of the head and has transaction `t` at index `i`. */
  ghost predicate OnBranch(head: Block, b: Block, i: nat, t: TxId)
  {
    Ancestor(head, b.number) == Some(b) && At(b, i, t)
  }

  /** No transaction is included twice on the way to `head`. */
  ghost predicate NoRepeat(head: Block)
  {
    forall b, i, c, j, t {:trigger OnBranch(head, b, i, t), OnBranch(head, c, j, t)} ::
      OnBranch(head, b, i, t) && OnBranch(head, c, j, t) ==> b == c && i == j
  }

  ghost predicate Names(e: Entry, b: Block, i: nat)
  {
    e == Entry(b, b.number, i)
  }

  /** The table knows exactly the transactions on the way to `head`, each at its place. */
  ghost predicate Exact(lookup: Lookup, head: Block)
  {
    (forall t {:trigger t in lookup} :: t in lookup ==>
       lookup[t].number == lookup[t].block.number && OnBranch(head, lookup[t].block, lookup[t].index, t)) &&
    (forall b, i, t {:trigger OnBranch(head, b, i, t)} ::
       OnBranch(head, b, i, t) ==> t in lookup && Names(lookup[t], b, i))
  }

  // ---- writing and deleting entries ----

  /** `r` has an entry for `t` in the chain if the chain has `t`, and otherwise the one of `lookup`. */
  ghost predicate EntryFor(lookup: Lookup, r: Lookup, chain: seq<Block>, t: TxId)
  {
    if InSome(chain, t)
    then t in r && r[t].block in chain && Names(r[t], r[t].block, r[t].index) && At(r[t].block, r[t].index, t)
    else (t in r <==> t in lookup) && (t in r ==> r[t] == lookup[t])
  }

  ghost predicate WrittenFor(lookup: Lookup, r: Lookup, chain: seq<Block>)
  {
    forall t {:trigger EntryFor(lookup, r, chain, t)} :: EntryFor(lookup, r, chain, t)
  }

  method WriteTxLookupEntries(lookup: Lookup, b: Block) returns (r: Lookup)
    ensures WrittenFor(lookup, r, [b])
  {
    r := lookup;
    for i := 0 to |b.txs|
      invariant forall t {:trigger t in r} {:trigger t in lookup} ::
                  if t in b.txs[..i]
                  then t in r && Names(r[t], b, r[t].index) && At(b, r[t].index, t)
                  else (t in r <==> t in lookup) && (t in r ==> r[t] == lookup[t])
    {
      r := r[b.txs[i] := Entry(b, b.number, i)];
    }
    assert b.txs[..|b.txs|] == b.txs;
    forall t ensures EntryFor(lookup, r, [b], t) {
      InOne(b, t);
    }
  }

  lemma InOne(b: Block, t: TxId)
    ensures InSome([b], t) <==> t in b.txs
  {
    assert b in [b];
  }

  lemma InSomeMore(chain: seq<Block>, b: Block, t: TxId)
    ensures InSome(chain + [b], t) <==> InSome(chain, t) || InSome([b], t)
  {
    assert forall c :: c in chain + [b] <==> c in chain || c in [b];
  }

  lemma WrittenMore(lookup: Lookup, m: Lookup, r: Lookup, chain: seq<Block>, b: Block)
    requires WrittenFor(lookup, m, chain) && WrittenFor(m, r, [b])
    ensures WrittenFor(lookup, r, chain + [b])
  {
    forall t ensures EntryFor(lookup, r, chain + [b], t) {
      assert EntryFor(lookup, m, chain, t) && EntryFor(m, r, [b], t);
      InSomeMore(chain, b, t);
    }
  }

  ghost predicate SlotFor(canon: map<nat, Block>, r: map<nat, Block>, top: Block, lo: int, n: nat)
  {
    if lo < n <= top.number then n in r && Ancestor(top, n) == Some(r[n])
    else (n in r <==> n in canon) && (n in r ==> r[n] == canon[n])
  }

  /** Above `lo` the table holds the branch of `top`; elsewhere it is as before. */
  ghost predicate BranchWritten(canon: map<nat, Block>, r: map<nat, Block>, top: Block, lo: int)
  {
    forall n: nat {:trigger SlotFor(canon, r, top, lo, n)} :: SlotFor(canon, r, top, lo, n)
  }

  lemma BranchMore(canon: map<nat, Block>, c: map<nat, Block>, top: Block, b: Block)
    requires BranchWritten(canon, c, top, b.number) && Ancestor(top, b.number) == Some(b)
    ensures BranchWritten(canon, c[b.number := b], top, b.number - 1)
  {
    NotAbove(top, b.number);
    var r, lo := c[b.number := b], b.number - 1;
    forall n: nat ensures SlotFor(canon, r, top, lo, n) {
      assert SlotFor(canon, c, top, b.number, n);
    }
  }

  /** Inserts the blocks of a branch, highest first, and writes their lookup entries. */
  method InsertBranch(canon: map<nat, Block>, lookup: Lookup, chain: seq<Block>, ghost top: Block, ghost bottom: Block)
    returns (c: map<nat, Block>, r: Lookup, added: seq<TxId>)
    requires IsBranch(chain, top, bottom)
    ensures BranchWritten(canon, c, top, bottom.number)
    ensures WrittenFor(lookup, r, chain) && added == TxsOf(chain)
  {
    c, r, added := canon, lookup, [];
    for i := 0 to |chain|
      invariant BranchWritten(canon, c, top, top.number - i)
      invariant WrittenFor(lookup, r, chain[..i]) && added == TxsOf(chain[..i])
    {
      var b := chain[i];
      ghost var before := r;
      r := WriteTxLookupEntries(r, b);
      InsertedOne(canon, c, lookup, before, r, chain, i, top, bottom);
      c := c[b.number := b];
      added := added + b.txs;
    }
    assert chain[..|chain|] == chain;
  }

  /** One more block of the branch. */
  lemma InsertedOne(canon: map<nat, Block>, c: map<nat, Block>, lookup: Lookup, m: Lookup, r: Lookup,
                    chain: seq<Block>, i: nat, top: Block, bottom: Block)
    requires IsBranch(chain, top, bottom) && i < |chain| && BranchWritten(canon, c, top, top.number - i)
    requires WrittenFor(lookup, m, chain[..i]) && WrittenFor(m, r, [chain[i]])
    ensures BranchWritten(canon, c[chain[i].number := chain[i]], top, top.number - (i + 1))
    ensures WrittenFor(lookup, r, chain[..i + 1]) && TxsOf(chain[..i + 1]) == TxsOf(chain[..i]) + chain[i].txs
  {
    var b := chain[i];
    NumberOfAncestor(top, top.number - i);
    BranchMore(canon, c, top, b);
    WrittenMore(lookup, m, r, chain[..i], b);
    TxsOfMore(chain[..i], b);
    assert chain[..i + 1] == chain[..i] + [b];
  }

  method DeleteTxLookupEntries(lookup: Lookup, txs: seq<TxId>) returns (r: Lookup)
    ensures r == lookup - (set t | t in txs)
  {
    r := lookup;
    for i := 0 to |txs|
      invariant r == lookup - (set t | t in txs[..i])
    {
      r := r - {txs[i]};
    }
    assert txs[..|txs|] == txs;
  }

  // ---- reorg ----

  /** The table after a reorg is that of the new branch: what was only on the old branch is gone. */
  lemma ReorgLookup(lookup: Lookup, m: Lookup, r: Lookup, was: Block, now: Block, common: Block, left: seq<Block>,
                    right: seq<Block>)
    requires Exact(lookup, was) && NoRepeat(was) && NoRepeat(now) && IsFork(was, now, common, left, right)
    requires WrittenFor(lookup, m, right) && r == m - (set t | t in Difference(TxsOf(left), TxsOf(right)))
    ensures Exact(r, now)
  {
    forall t ensures t in Difference(TxsOf(left), TxsOf(right)) <==> InSome(left, t) && !InSome(right, t) {
      DifferenceMember(TxsOf(left), TxsOf(right), t);
      TxsOfMember(left, t);
      TxsOfMember(right, t);
    }
    forall t | t in r ensures r[t].number == r[t].block.number && OnBranch(now, r[t].block, r[t].index, t) {
      ReorgEntry(lookup, m, was, now, common, left, right, t);
    }
    forall b, i, t | OnBranch(now, b, i, t) ensures t in r && Names(r[t], b, i) {
      ReorgKept(lookup, m, was, now, common, left, right, b, i, t);
    }
  }

  lemma ReorgEntry(lookup: Lookup, m: Lookup, was: Block, now: Block, common: Block, left: seq<Block>,
                   right: seq<Block>, t: TxId)
    requires Exact(lookup, was) && IsFork(was, now, common, left, right) && WrittenFor(lookup, m, right)
    requires t in m && !(InSome(left, t) && !InSome(right, t))
    ensures m[t].number == m[t].block.number && OnBranch(now, m[t].block, m[t].index, t)
  {
    var b := m[t].block;
    assert EntryFor(lookup, m, right, t);
    if InSome(right, t) {
      BranchMember(right, now, common, b);
    } else {
      assert t in lookup && OnBranch(was, b, m[t].index, t);
      BranchMember(left, was, common, b);
      assert b !in left;
      SharedBelow(was, now, common.number, b.number);
    }
  }

  lemma ReorgKept(lookup: Lookup, m: Lookup, was: Block, now: Block, common: Block, left: seq<Block>,
                  right: seq<Block>, b: Block, i: nat, t: TxId)
    requires Exact(lookup, was) && NoRepeat(was) && NoRepeat(now) && IsFork(was, now, common, left, right)
    requires WrittenFor(lookup, m, right) && OnBranch(now, b, i, t)
    ensures t in m && Names(m[t], b, i) && !(InSome(left, t) && !InSome(right, t))
  {
    assert EntryFor(lookup, m, right, t);
    if InSome(right, t) {
      BranchMember(right, now, common, m[t].block);
      assert OnBranch(now, m[t].block, m[t].index, t);
    } else {
      BranchMember(right, now, common, b);
      assert b !in right;
      SharedBelow(was, now, common.number, b.number);
      assert OnBranch(was, b, i, t) && t in lookup;
      if InSome(left, t) {
        var c :| c in left && t in c.txs;
        var j :| 0 <= j < |c.txs| && c.txs[j] == t;
        BranchMember(left, was, common, c);
        assert OnBranch(was, c, j, t);
      }
    }
  }

  method Reorg(store: set<Block>, genesis: Block, canon: map<nat, Block>, lookup: Lookup, was: Block, now: Block)
    returns (c: map<nat, Block>, r: Lookup)
    requires Rooted(store, genesis) && Connected(store, genesis, was) && Connected(store, genesis, now)
    requires Canonical(canon, was) && Exact(lookup, was) && NoRepeat(was) && NoRepeat(now)
    ensures Canonical(c, now) && Exact(r, now)
  {
    var common, oldChain, newChain := ReorgWalk(store, genesis, was, now);
    var added;
    c, r, added := InsertBranch(canon, lookup, newChain, now, common);
    forall n: nat | n <= now.number ensures n in c && Ancestor(now, n) == Some(c[n]) {
      assert SlotFor(canon, c, now, common.number, n);
      if n <= common.number {
        NotAbove(was, common.number);
        SharedBelow(was, now, common.number, n);
      }
    }
    var diff := TxDifference(TxsOf(oldChain), added);
    ghost var m := r;
    r := DeleteTxLookupEntries(r, diff);
    ReorgLookup(lookup, m, r, was, now, common, oldChain, newChain);
  }

  // ---- the final writes ----

  /** Writing the head's own entries once more changes nothing. */
  lemma WriteAgain(lookup: Lookup, r: Lookup, b: Block)
    requires Exact(lookup, b) && WrittenFor(lookup, r, [b])
    ensures Exact(r, b)
  {
    forall t ensures t in r <==> t in lookup && (t in r ==> r[t] == lookup[t]) {
      assert EntryFor(lookup, r, [b], t);
      if InSome([b], t) {
        assert OnBranch(b, b, r[t].index, t);
      }
    }
    forall c, i, t | OnBranch(b, c, i, t) ensures t in r && Names(r[t], c, i) {
      assert t in lookup;
    }
  }

  /** Extending the head by one block. */
  lemma WriteNext(lookup: Lookup, r: Lookup, head: Block, b: Block)
    requires Exact(lookup, head) && NoRepeat(b) && WrittenFor(lookup, r, [b])
    requires b.parent == Some(head) && b.number == head.number + 1
    ensures Exact(r, b)
  {
    forall c: Block ensures Ancestor(b, c.number) == Some(c) <==> c == b || Ancestor(head, c.number) == Some(c) {
      NotAbove(head, c.number);
    }
    forall t | t in r ensures r[t].number == r[t].block.number && OnBranch(b, r[t].block, r[t].index, t) {
      assert EntryFor(lookup, r, [b], t);
    }
    forall c, i, t | OnBranch(b, c, i, t) ensures t in r && Names(r[t], c, i) {
      assert EntryFor(lookup, r, [b], t);
      InOne(b, t);
      if t in b.txs {
        assert OnBranch(b, b, r[t].index, t);
      } else {
        assert OnBranch(head, c, i, t) && t in lookup;
      }
    }
  }

  method FinishBlock(canon: map<nat, Block>, lookup: Lookup, block: Block, ghost head: Block)
    returns (c: map<nat, Block>, r: Lookup)
    requires Canonical(canon, head) && Exact(lookup, head) && NoRepeat(block)
    requires head == block || (block.parent == Some(head) && block.number == head.number + 1)
    ensures Canonical(c, block) && Exact(r, block)
  {
    r := WriteTxLookupEntries(lookup, block);
    c := canon[block.number := block];
    if head == block {
      WriteAgain(lookup, r, block);
    } else {
      WriteNext(lookup, r, head, block);
    }
  }

  /** When a block becomes the head: heavier, or as heavy and lower, or as heavy and high and the coin
      says so. */
  ghost predicate Wins(block: Block, head: Block, coin: bool)
  {
    PathDifficulty(block) > PathDifficulty(head) ||
    (PathDifficulty(block) == PathDifficulty(head) &&
     (block.number < head.number || (block.number == head.number && coin)))
  }

  /** The chain at one moment. */
  datatype Moment = Moment(store: set<Block>, td: map<Block, nat>, canon: map<nat, Block>, lookup: Lookup,
                           current: Block)

  /** No block that is as heavy as the head is lower. */
  ghost predicate LowestOfHeaviest(store: set<Block>, head: Block)
  {
    forall b {:trigger PathDifficulty(b)} :: b in store && PathDifficulty(b) == PathDifficulty(head) ==>
      head.number <= b.number
  }

  /** Both tables are those of the head, which is a lowest one of the heaviest blocks. */
  ghost predicate Sound(genesis: Block, v: Moment)
  {
    Rooted(v.store, genesis) && DifficultiesExact(v.store, v.td) && v.current in v.store &&
    Heaviest(v.store, v.current) && LowestOfHeaviest(v.store, v.current) && Canonical(v.canon, v.current) &&
    Exact(v.lookup, v.current) && NoRepeat(v.current)
  }

  /** A block with a known parent is stored, and becomes the head if it wins; any other is ignored. */
  ghost predicate Inserted(v: Moment, e: (Block, bool), v2: Moment)
  {
    if ParentIn(v.store, e.0).None? then v2 == v
    else v2.store == v.store + {e.0} && v2.current == (if Wins(e.0, v.current, e.1) then e.0 else v.current)
  }

  lemma InsertedNotLighter(v: Moment, e: (Block, bool), v2: Moment)
    requires Inserted(v, e, v2)
    ensures PathDifficulty(v.current) <= PathDifficulty(v2.current)
  {
  }

  class BlockChain {
    const genesis: Block
    var store: set<Block>
    var td: map<Block, nat>
    var canon: map<nat, Block>
    var lookup: Lookup
    var current: Block

    ghost predicate Valid()
      reads this
    {
      Sound(genesis, Now())
    }

    ghost function Now(): Moment
      reads this
    {
      Moment(store, td, canon, lookup, current)
    }

    constructor (genesis: Block)
      requires genesis.number == 0 && genesis.parent.None? && genesis.txs == []
      ensures Valid() && this.genesis == genesis && current == genesis && store == {genesis}
    {
      this.genesis, store, current := genesis, {genesis}, genesis;
      td, canon, lookup := map[genesis := genesis.difficulty], map[0 := genesis], map[];
    }

    method WriteBlockAndState(block: Block, coin: bool) returns (status: Status)
      requires Valid() && NoRepeat(block)
      modifies this
      ensures Valid()
      ensures status == UnknownAncestor <==> old(ParentIn(store, block)).None?
      ensures status == Canon <==> old(ParentIn(store, block)).Some? && Wins(block, old(current), coin)
      ensures Inserted(old(Now()), (block, coin), Now())
    {
      var parent := ParentIn(store, block);
      if parent.None? {
        return UnknownAncestor;
      }
      var localTd, externTd := td[current], block.difficulty + td[parent.value];
      var reorg := externTd > localTd ||
        (externTd == localTd && (block.number < current.number || (block.number == current.number && coin)));
      if reorg {
        canon, lookup := MoveTo(store, genesis, canon, lookup, current, block);
        status := Canon;
      } else {
        status := Side;
      }
      RootedMore(store, genesis, block);
      td, store := td[block := externTd], store + {block};
      if status == Canon {
        current := block;
      }
    }

    /** At every point of a run the table of canonical numbers and the lookup table are those of the
        head, however deep the reorganisations were. */
    method Run(blocks: seq<(Block, bool)>) returns (ghost trace: seq<Moment>)
      requires Valid() && forall i :: 0 <= i < |blocks| ==> NoRepeat(blocks[i].0)
      modifies this
      ensures Valid() && Follows(trace, blocks, Inserted) && trace[0] == old(Now()) && trace[|blocks|] == Now()
      ensures forall i :: 0 <= i < |trace| ==> Sound(genesis, trace[i])
      ensures PathDifficulty(old(current)) <= PathDifficulty(current)
    {
      trace := [Now()];
      for i := 0 to |blocks|
        invariant Valid() && Follows(trace, blocks[..i], Inserted) && trace[0] == old(Now()) && trace[i] == Now()
        invariant forall j :: 0 <= j < |trace| ==> Sound(genesis, trace[j])
        invariant PathDifficulty(old(current)) <= PathDifficulty(current)
      {
        var status := WriteBlockAndState(blocks[i].0, blocks[i].1);
        assert blocks[i] == (blocks[i].0, blocks[i].1);
        FollowsMore(trace, blocks, i, Now(), Inserted);
        InsertedNotLighter(trace[i], blocks[i], Now());
        trace := trace + [Now()];
      }
      assert blocks[..|blocks|] == blocks;
    }

    /** A transaction lookup answers with a canonical block that holds the transaction, or not at all. */
    method GetTxLookupEntry(t: TxId) returns (e: Option<Entry>)
      requires Valid()
      ensures e.Some? ==>
        e.value.number in canon && canon[e.value.number] == e.value.block && At(e.value.block, e.value.index, t)
      ensures e.None? ==> forall n: nat, i: nat :: n <= current.number && n in canon ==> !At(canon[n], i, t)
    {
      e := if t in lookup then Some(lookup[t]) else None;
      if e.Some? {
        NotAbove(current, e.value.number);
      } else {
        forall n: nat, i: nat | n <= current.number && n in canon ensures !At(canon[n], i, t) {
          NumberOfAncestor(current, n);
          assert !OnBranch(current, canon[n], i, t);
        }
      }
    }
  }

  method MoveTo(store: set<Block>, genesis: Block, canon: map<nat, Block>, lookup: Lookup, head: Block, block: Block)
    returns (c: map<nat, Block>, r: Lookup)
    requires Rooted(store, genesis) && head in store && ParentIn(store, block).Some?
    requires Canonical(canon, head) && Exact(lookup, head) && NoRepeat(head) && NoRepeat(block)
    ensures Canonical(c, block) && Exact(r, block)
  {
    assert Connected(store, genesis, head) && Connected(store, genesis, block);
    if block.parent != Some(head) {
      c, r := Reorg(store, genesis, canon, lookup, head, block);
      c, r := FinishBlock(c, r, block, block);
    } else {
      c, r := FinishBlock(canon, lookup, block, head);
    }
  }
}
