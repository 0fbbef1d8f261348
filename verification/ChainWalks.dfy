/** The walks to the fork point that the chain, the transaction pool and the light pool each do in
    their own way (core/blockchain.go, core/tx_pool.go, light/txpool.go). */
module ChainWalks {
  import opened Transactions
  import opened Chains

  /** The block's ancestors are stored; the block itself need not be yet. */
  ghost predicate Connected(store: set<Block>, genesis: Block, b: Block)
  {
    b == genesis || ParentIn(store, b).Some?
  }

  /** Two blocks at one height that differ both have a parent. */
  lemma Differ(store: set<Block>, genesis: Block, a: Block, b: Block)
    requires Rooted(store, genesis) && Connected(store, genesis, a) && Connected(store, genesis, b)
    requires a.number == b.number && a != b
    ensures ParentIn(store, a).Some? && ParentIn(store, b).Some?
    ensures Connected(store, genesis, a.parent.value) && Connected(store, genesis, b.parent.value)
  {
  }

  /** A block above the lowest height has a parent. */
  lemma Above(store: set<Block>, genesis: Block, a: Block, h: nat)
    requires Rooted(store, genesis) && Connected(store, genesis, a) && a.number > h
    ensures ParentIn(store, a).Some? && Connected(store, genesis, a.parent.value)
  {
  }

  /** The two walks have come down to `x` and `y` without passing a common block. */
  ghost predicate Walked(a: Block, b: Block, x: Block, y: Block, left: seq<Block>, right: seq<Block>)
  {
    IsBranch(left, a, x) && IsBranch(right, b, y) &&
    ApartAbove(a, b, if x.number < y.number then x.number else y.number)
  }

  lemma LeftDown(store: set<Block>, a: Block, b: Block, x: Block, y: Block, left: seq<Block>, right: seq<Block>)
    requires Walked(a, b, x, y, left, right) && ParentIn(store, x).Some? && x.number > y.number
    ensures Walked(a, b, x.parent.value, y, left + [x], right)
  {
    BranchDown(store, left, a, x);
  }

  lemma RightDown(store: set<Block>, a: Block, b: Block, x: Block, y: Block, left: seq<Block>, right: seq<Block>)
    requires Walked(a, b, x, y, left, right) && ParentIn(store, y).Some? && x.number < y.number
    ensures Walked(a, b, x, y.parent.value, left, right + [y])
  {
    BranchDown(store, right, b, y);
  }

  lemma BothDown(store: set<Block>, a: Block, b: Block, x: Block, y: Block, left: seq<Block>, right: seq<Block>)
    requires Walked(a, b, x, y, left, right) && x.number == y.number && x != y
    requires ParentIn(store, x).Some? && ParentIn(store, y).Some?
    ensures Walked(a, b, x.parent.value, y.parent.value, left + [x], right + [y])
  {
    BranchDown(store, left, a, x);
    BranchDown(store, right, b, y);
    forall n: nat | n > x.number - 1 && Ancestor(a, n).Some? ensures Ancestor(a, n) != Ancestor(b, n) {
      assert n == x.number ==> Ancestor(a, n) == Some(x) && Ancestor(b, n) == Some(y);
    }
  }

  /** The fork point of two branches and what each has above it, highest block first. */
  ghost predicate IsFork(a: Block, b: Block, c: Block, left: seq<Block>, right: seq<Block>)
  {
    IsCommon(a, b, c) && IsBranch(left, a, c) && IsBranch(right, b, c)
  }

  /** The walk of BlockChain.reorg: level the longer side, then go down together. */
  method ReorgWalk(store: set<Block>, genesis: Block, was: Block, now: Block)
    returns (common: Block, oldChain: seq<Block>, newChain: seq<Block>)
    requires Rooted(store, genesis) && Connected(store, genesis, was) && Connected(store, genesis, now)
    ensures IsFork(was, now, common, oldChain, newChain)
  {
    var x, y := was, now;
    oldChain, newChain := [], [];
    if x.number > y.number {
      while x.number != y.number
        invariant x.number >= y.number && Walked(was, now, x, y, oldChain, newChain) && Connected(store, genesis, x)
        invariant y == now
        decreases x.number
      {
        Above(store, genesis, x, y.number);
        LeftDown(store, was, now, x, y, oldChain, newChain);
        oldChain, x := oldChain + [x], ParentIn(store, x).value;
      }
    } else {
      while y.number != x.number
        invariant x.number <= y.number && Walked(was, now, x, y, oldChain, newChain) && Connected(store, genesis, y)
        invariant x == was
        decreases y.number
      {
        Above(store, genesis, y, x.number);
        RightDown(store, was, now, x, y, oldChain, newChain);
        newChain, y := newChain + [y], ParentIn(store, y).value;
      }
    }
    while x != y
      invariant x.number == y.number && Walked(was, now, x, y, oldChain, newChain)
      invariant Connected(store, genesis, x) && Connected(store, genesis, y)
      decreases x.number
    {
      Differ(store, genesis, x, y);
      BothDown(store, was, now, x, y, oldChain, newChain);
      oldChain, newChain := oldChain + [x], newChain + [y];
      x, y := ParentIn(store, x).value, ParentIn(store, y).value;
    }
    common := x;
  }

  /** The walk of the light pool: whichever side is not lower goes down, then the other if it is now
      higher. */
  method LightWalk(store: set<Block>, genesis: Block, was: Block, now: Block)
    returns (common: Block, oldChain: seq<Block>, newChain: seq<Block>)
    requires Rooted(store, genesis) && Connected(store, genesis, was) && Connected(store, genesis, now)
    ensures IsFork(was, now, common, oldChain, newChain)
  {
    var x, y := was, now;
    oldChain, newChain := [], [];
    while x != y
      invariant Walked(was, now, x, y, oldChain, newChain)
      invariant Connected(store, genesis, x) && Connected(store, genesis, y)
      decreases x.number + y.number
    {
      if x.number > y.number {
        Above(store, genesis, x, y.number);
        LeftDown(store, was, now, x, y, oldChain, newChain);
      } else if x.number < y.number {
        Above(store, genesis, y, x.number);
        RightDown(store, was, now, x, y, oldChain, newChain);
      } else {
        Differ(store, genesis, x, y);
        BothDown(store, was, now, x, y, oldChain, newChain);
      }
      if x.number >= y.number {
        oldChain, x := oldChain + [x], ParentIn(store, x).value;
      }
      if x.number < y.number {
        newChain, y := newChain + [y], ParentIn(store, y).value;
      }
    }
    common := x;
  }

  /** However they go down, all walks meet at the same block with the same branches above it; and that
      is what FindCommonAncestor finds. */
  lemma WalksMeet(store: set<Block>, genesis: Block, a: Block, b: Block, found: Option<Block>,
                  c: Block, left: seq<Block>, right: seq<Block>, d: Block, left2: seq<Block>, right2: seq<Block>)
    requires IsFork(a, b, c, left, right) && IsFork(a, b, d, left2, right2)
    ensures c == d && left == left2 && right == right2
    ensures Rooted(store, genesis) && a in store && b in store && Found(store, a, b, found) ==> found == Some(c)
  {
    CommonIsUnique(a, b, c, d);
    SameBranch(left, left2, a, c);
    SameBranch(right, right2, b, c);
    if Rooted(store, genesis) && a in store && b in store && Found(store, a, b, found) {
      FoundIsCommon(store, genesis, a, b, found);
      CommonIsUnique(a, b, c, found.value);
    }
  }

  lemma SameBranch(chain: seq<Block>, other: seq<Block>, top: Block, bottom: Block)
    requires IsBranch(chain, top, bottom) && IsBranch(other, top, bottom)
    ensures chain == other
  {
    forall i | 0 <= i < |chain| ensures chain[i] == other[i] {
      assert Ancestor(top, top.number - i) == Some(chain[i]) == Some(other[i]);
    }
  }

  // ---- the pool's walk ----

  /** The transactions of a list of blocks, in the order the blocks are listed. */
  function TxsOf(chain: seq<Block>): seq<TxId>
  {
    if chain == [] then [] else TxsOf(chain[..|chain| - 1]) + chain[|chain| - 1].txs
  }

  lemma TxsOfMore(chain: seq<Block>, b: Block)
    ensures TxsOf(chain + [b]) == TxsOf(chain) + b.txs
  {
    assert (chain + [b])[..|chain|] == chain;
  }

  ghost predicate InSome(chain: seq<Block>, t: TxId)
  {
    exists b :: b in chain && t in b.txs
  }

  lemma {:induction false} TxsOfMember(chain: seq<Block>, t: TxId)
    ensures t in TxsOf(chain) <==> InSome(chain, t)
  {
    if chain != [] {
      var rest, last := chain[..|chain| - 1], chain[|chain| - 1];
      TxsOfMember(rest, t);
      assert forall b :: b in chain <==> b in rest || b == last;
    }
  }

  /** types.TxDifference: the members of `a` that are not in `b`, in their order. */
  method TxDifference(a: seq<TxId>, b: seq<TxId>) returns (keep: seq<TxId>)
    ensures keep == Difference(a, b)
  {
    var remove: set<TxId> := {};
    for i := 0 to |b|
      invariant forall t :: t in remove <==> t in b[..i]
    {
      remove := remove + {b[i]};
    }
    assert b[..|b|] == b;
    keep := [];
    for i := 0 to |a|
      invariant keep == Difference(a[..i], b)
    {
      assert a[..i + 1][..i] == a[..i];
      if a[i] !in remove {
        keep := keep + [a[i]];
      }
    }
    assert a[..|a|] == a;
  }

  function Difference(a: seq<TxId>, b: seq<TxId>): seq<TxId>
  {
    if a == [] then []
    else Difference(a[..|a| - 1], b) + (if a[|a| - 1] in b then [] else [a[|a| - 1]])
  }

  lemma {:induction false} DifferenceMember(a: seq<TxId>, b: seq<TxId>, t: TxId)
    ensures t in Difference(a, b) <==> t in a && t !in b
  {
    if a != [] {
      DifferenceMember(a[..|a| - 1], b, t);
      assert t in a <==> t in a[..|a| - 1] || t == a[|a| - 1];
    }
  }

  /** The transactions of both branches above the fork point. */
  ghost predicate Collected(was: Block, now: Block, common: Block, left: seq<Block>, right: seq<Block>,
                            discarded: seq<TxId>, included: seq<TxId>)
  {
    IsFork(was, now, common, left, right) && discarded == TxsOf(left) && included == TxsOf(right)
  }

  /** The walk of TxPool.reset, which collects transactions instead of blocks. */
  method ResetWalk(store: set<Block>, genesis: Block, was: Block, now: Block)
    returns (discarded: seq<TxId>, included: seq<TxId>, ghost common: Block, ghost left: seq<Block>,
             ghost right: seq<Block>)
    requires Rooted(store, genesis) && Connected(store, genesis, was) && Connected(store, genesis, now)
    ensures Collected(was, now, common, left, right, discarded, included)
    ensures exists c, a, b {:trigger Collected(was, now, c, a, b, discarded, included)} ::
      Collected(was, now, c, a, b, discarded, included)
  {
    var rem, add := was, now;
    discarded, included, left, right := [], [], [], [];
    while rem.number > add.number
      invariant Walked(was, now, rem, add, left, right) && Connected(store, genesis, rem) && add == now
      invariant discarded == TxsOf(left) && right == []
      decreases rem.number
    {
      Above(store, genesis, rem, add.number);
      LeftDown(store, was, now, rem, add, left, right);
      TxsOfMore(left, rem);
      left, discarded, rem := left + [rem], discarded + rem.txs, ParentIn(store, rem).value;
    }
    while add.number > rem.number
      invariant rem.number <= add.number && Walked(was, now, rem, add, left, right)
      invariant Connected(store, genesis, rem) && Connected(store, genesis, add)
      invariant discarded == TxsOf(left) && included == TxsOf(right)
      decreases add.number
    {
      Above(store, genesis, add, rem.number);
      RightDown(store, was, now, rem, add, left, right);
      TxsOfMore(right, add);
      right, included, add := right + [add], included + add.txs, ParentIn(store, add).value;
    }
    while rem != add
      invariant rem.number == add.number && Walked(was, now, rem, add, left, right)
      invariant Connected(store, genesis, rem) && Connected(store, genesis, add)
      invariant discarded == TxsOf(left) && included == TxsOf(right)
      decreases rem.number
    {
      Differ(store, genesis, rem, add);
      BothDown(store, was, now, rem, add, left, right);
      TxsOfMore(left, rem);
      TxsOfMore(right, add);
      left, discarded, rem, right, included, add :=
        left + [rem], discarded + rem.txs, ParentIn(store, rem).value,
        right + [add], included + add.txs, ParentIn(store, add).value;
    }
    common := rem;
    assert Collected(was, now, common, left, right, discarded, included);
  }

  const MAX_REORG_DEPTH := 64

  /** Block `b` lies on the branch to `top` above `bottom`. */
  ghost predicate Between(b: Block, top: Block, bottom: Block)
  {
    bottom.number < b.number && Ancestor(top, b.number) == Some(b)
  }

  lemma BranchMember(chain: seq<Block>, top: Block, bottom: Block, b: Block)
    requires IsBranch(chain, top, bottom)
    ensures b in chain <==> Between(b, top, bottom)
  {
    if b in chain {
      var i :| 0 <= i < |chain| && chain[i] == b;
      NumberOfAncestor(top, top.number - i);
    }
    if Between(b, top, bottom) {
      NotAbove(top, b.number);
      assert chain[top.number - b.number] == b;
    }
  }

  lemma {:induction false} NumberOfAncestor(b: Block, n: nat)
    ensures Ancestor(b, n).Some? ==> Ancestor(b, n).value.number == n
  {
    if b.number > n && b.parent.Some? {
      NumberOfAncestor(b.parent.value, n);
    }
  }

  lemma NotAbove(b: Block, n: nat)
    ensures Ancestor(b, n).Some? ==> n <= b.number
  {
  }

  /** A transaction that the old branch has and the new one has not. */
  ghost predicate Orphaned(was: Block, now: Block, common: Block, t: TxId)
  {
    (exists b :: Between(b, was, common) && t in b.txs) && !exists b :: Between(b, now, common) && t in b.txs
  }

  /** What TxPool.reset offers to the pool again: nothing if the new head extends the old one or the
      heads are too far apart, else exactly the transactions that only the old branch has. */
  method Reinjected(store: set<Block>, genesis: Block, was: Option<Block>, now: Block)
    returns (reinject: seq<TxId>, ghost common: Block)
    requires Rooted(store, genesis) && Connected(store, genesis, now)
    requires was.Some? ==> Connected(store, genesis, was.value)
    ensures was.None? ==> reinject == []
    ensures was.Some? && Distance(was.value.number, now.number) > MAX_REORG_DEPTH ==> reinject == []
    ensures was.Some? && Distance(was.value.number, now.number) <= MAX_REORG_DEPTH ==>
              IsCommon(was.value, now, common) && forall t :: t in reinject <==> Orphaned(was.value, now, common, t)
    ensures was.Some? && Ancestor(now, was.value.number) == Some(was.value) ==> reinject == []
    ensures MAX_REORG_DEPTH == 64
  {
    reinject, common := [], genesis;
    if was.Some? && Some(was.value) != now.parent {
      if Distance(was.value.number, now.number) <= MAX_REORG_DEPTH {
        ghost var left, right;
        var discarded, included;
        discarded, included, common, left, right := ResetWalk(store, genesis, was.value, now);
        reinject := TxDifference(discarded, included);
        ReinjectedIsOrphaned(was.value, now, common, left, right);
        if Ancestor(now, was.value.number) == Some(was.value) {
          Extension(was.value, now);
          CommonIsUnique(was.value, now, common, was.value);
          NothingIn(reinject, was.value, now);
        }
      }
    } else if was.Some? {
      common := was.value;
      Extension(was.value, now);
    }
  }

  lemma NothingIn(reinject: seq<TxId>, was: Block, now: Block)
    requires (forall t :: t in reinject <==> Orphaned(was, now, was, t)) && forall t :: !Orphaned(was, now, was, t)
    ensures reinject == []
  {
    if reinject != [] {
      SomeMember(reinject);
    }
  }

  lemma SomeMember(s: seq<TxId>)
    requires s != []
    ensures exists t :: t in s
  {
    assert s[0] in s;
  }

  function Distance(a: nat, b: nat): nat
  {
    if a < b then b - a else a - b
  }

  lemma ReinjectedIsOrphaned(was: Block, now: Block, common: Block, left: seq<Block>, right: seq<Block>)
    requires IsFork(was, now, common, left, right)
    ensures forall t :: t in Difference(TxsOf(left), TxsOf(right)) <==> Orphaned(was, now, common, t)
  {
    forall t ensures t in Difference(TxsOf(left), TxsOf(right)) <==> Orphaned(was, now, common, t) {
      DifferenceMember(TxsOf(left), TxsOf(right), t);
      TxsOfMember(left, t);
      TxsOfMember(right, t);
      forall b ensures b in left <==> Between(b, was, common) {
        BranchMember(left, was, common, b);
      }
      forall b ensures b in right <==> Between(b, now, common) {
        BranchMember(right, now, common, b);
      }
    }
  }

  /** A head that descends from the old one orphans nothing. */
  lemma Extension(was: Block, now: Block)
    requires Ancestor(now, was.number) == Some(was)
    ensures IsCommon(was, now, was) && forall t :: !Orphaned(was, now, was, t)
  {
    forall b ensures !Between(b, was, was) {
      NotAbove(was, b.number);
    }
    forall n: nat | n > was.number ensures Ancestor(was, n).None? {
      NotAbove(was, n);
    }
  }
}
