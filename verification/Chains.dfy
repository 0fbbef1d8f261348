/** Blocks, their ancestors, and the highest common ancestor of two blocks. A hash stands for exactly
    one block, so a block is named by itself and carries its parent. */
module Chains {
  import opened Transactions

  type TxId = nat

  datatype Block = Block(number: nat, parent: Option<Block>, difficulty: nat, txs: seq<TxId>, seal: nat)

  /** The parent as the database finds it: stored, and stored under the preceding number. */
  function ParentIn(store: set<Block>, b: Block): Option<Block>
  {
    if b.number > 0 && b.parent.Some? && b.parent.value in store && b.parent.value.number == b.number - 1 then b.parent
    else None
  }

  /** Every stored block but the genesis has its parent stored. */
  ghost predicate Rooted(store: set<Block>, genesis: Block)
  {
    genesis in store && genesis.number == 0 && genesis.parent.None? &&
    forall b {:trigger ParentIn(store, b)} :: b in store && b != genesis ==> ParentIn(store, b).Some?
  }

  /** The ancestor of `b` at height `n`; a block is its own ancestor. */
  function Ancestor(b: Block, n: nat): Option<Block>
  {
    if b.number == n then Some(b)
    else if b.number < n || b.parent.None? then None
    else Ancestor(b.parent.value, n)
  }

  lemma {:induction false} AncestorIsStored(store: set<Block>, genesis: Block, b: Block, n: nat)
    requires Rooted(store, genesis) && b in store && n <= b.number
    ensures Ancestor(b, n).Some? && Ancestor(b, n).value in store && Ancestor(b, n).value.number == n
    decreases b.number
  {
    if n < b.number {
      assert ParentIn(store, b).Some?;
      AncestorIsStored(store, genesis, b.parent.value, n);
    }
  }

  lemma {:induction false} AncestorOfAncestor(b: Block, m: nat, n: nat)
    requires n <= m && Ancestor(b, m).Some?
    ensures Ancestor(Ancestor(b, m).value, n) == Ancestor(b, n)
  {
    if b.number != m {
      AncestorOfAncestor(b.parent.value, m, n);
    }
  }

  /** Two blocks that share the ancestor at height `m` share all below. */
  lemma SharedBelow(a: Block, b: Block, m: nat, n: nat)
    requires n <= m && Ancestor(a, m).Some? && Ancestor(a, m) == Ancestor(b, m)
    ensures Ancestor(a, n) == Ancestor(b, n)
  {
    AncestorOfAncestor(a, m, n);
    AncestorOfAncestor(b, m, n);
  }

  /** Above height `h` the two have no ancestor in common. */
  ghost predicate ApartAbove(a: Block, b: Block, h: nat)
  {
    forall n: nat {:trigger Ancestor(a, n)} :: n > h && Ancestor(a, n).Some? ==> Ancestor(a, n) != Ancestor(b, n)
  }

  /** `c` is the highest common ancestor. */
  ghost predicate IsCommon(a: Block, b: Block, c: Block)
  {
    Ancestor(a, c.number) == Some(c) && Ancestor(b, c.number) == Some(c) && ApartAbove(a, b, c.number)
  }

  lemma NoHigherCommon(a: Block, b: Block, c: Block, d: Block)
    requires IsCommon(a, b, c) && Ancestor(a, d.number) == Some(d) && Ancestor(b, d.number) == Some(d)
    ensures d.number <= c.number
  {
  }

  lemma CommonIsUnique(a: Block, b: Block, c: Block, d: Block)
    requires IsCommon(a, b, c) && IsCommon(a, b, d)
    ensures c == d
  {
    NoHigherCommon(a, b, c, d);
    NoHigherCommon(a, b, d, c);
  }

  /** `chain` lists the ancestors of `top` from `top` itself down to the child of `bottom`. */
  ghost predicate IsBranch(chain: seq<Block>, top: Block, bottom: Block)
  {
    |chain| == top.number - bottom.number && Ancestor(top, bottom.number) == Some(bottom) &&
    forall i {:trigger chain[i]} :: 0 <= i < |chain| ==> Ancestor(top, top.number - i) == Some(chain[i])
  }

  /** One more step down a branch. */
  lemma BranchDown(store: set<Block>, chain: seq<Block>, top: Block, at: Block)
    requires IsBranch(chain, top, at) && ParentIn(store, at).Some?
    ensures IsBranch(chain + [at], top, at.parent.value)
  {
    AncestorOfAncestor(top, at.number, at.number - 1);
    forall i | 0 <= i < |chain + [at]| ensures Ancestor(top, top.number - i) == Some((chain + [at])[i]) {
      if i < |chain| {
        assert Ancestor(top, top.number - i) == Some(chain[i]);
      }
    }
  }

  // ---- FindCommonAncestor, in any store ----

  /** The ancestor at height `n` that can be reached by database lookups alone. */
  ghost function Reach(store: set<Block>, b: Block, n: nat): Option<Block>
    decreases b.number
  {
    if b.number == n then Some(b)
    else if b.number < n || ParentIn(store, b).None? then None
    else Reach(store, b.parent.value, n)
  }

  lemma {:induction false} ReachIsAncestor(store: set<Block>, genesis: Block, b: Block, n: nat)
    requires Rooted(store, genesis) && b in store
    ensures Reach(store, b, n) == Ancestor(b, n)
    decreases b.number
  {
    if n < b.number {
      assert ParentIn(store, b).Some?;
      ReachIsAncestor(store, genesis, b.parent.value, n);
    }
  }

  ghost predicate ReachShared(store: set<Block>, a: Block, b: Block, n: nat)
  {
    Reach(store, a, n).Some? && Reach(store, a, n) == Reach(store, b, n)
  }

  /** `x` was reached from `a`, so from its height down it reaches what `a` reaches. */
  ghost predicate Tracks(store: set<Block>, a: Block, x: Block)
  {
    forall n: nat {:trigger Reach(store, a, n)} :: n <= x.number ==> Reach(store, a, n) == Reach(store, x, n)
  }

  ghost predicate SharedOnlyUpTo(store: set<Block>, a: Block, b: Block, h: nat)
  {
    forall n: nat {:trigger ReachShared(store, a, b, n)} :: ReachShared(store, a, b, n) ==> n <= h
  }

  ghost predicate SharedNowhere(store: set<Block>, a: Block, b: Block)
  {
    forall n: nat {:trigger ReachShared(store, a, b, n)} :: !ReachShared(store, a, b, n)
  }

  lemma TracksParent(store: set<Block>, a: Block, x: Block)
    requires Tracks(store, a, x) && ParentIn(store, x).Some?
    ensures Tracks(store, a, ParentIn(store, x).value)
  {
    forall n: nat | n < x.number ensures Reach(store, a, n) == Reach(store, ParentIn(store, x).value, n) {
      assert Reach(store, a, n) == Reach(store, x, n);
    }
  }

  lemma SharedEitherWay(store: set<Block>, a: Block, b: Block, h: nat)
    requires SharedOnlyUpTo(store, a, b, h)
    ensures SharedOnlyUpTo(store, b, a, h)
  {
    forall n: nat | ReachShared(store, b, a, n) ensures n <= h {
      assert ReachShared(store, a, b, n);
    }
  }

  /** Nothing is reached below a block whose parent is missing. */
  lemma DeadEnd(store: set<Block>, a: Block, b: Block, x: Block, h: nat)
    requires Tracks(store, a, x) && ParentIn(store, x).None? && SharedOnlyUpTo(store, a, b, h)
    requires h < x.number || (h == x.number && Reach(store, a, h) != Reach(store, b, h))
    ensures SharedNowhere(store, a, b) && SharedNowhere(store, b, a)
  {
    forall n: nat ensures !ReachShared(store, a, b, n) && !ReachShared(store, b, a, n) {
      assert ReachShared(store, b, a, n) ==> ReachShared(store, a, b, n);
      assert ReachShared(store, a, b, n) ==> n <= h;
      assert n <= x.number ==> Reach(store, a, n) == Reach(store, x, n);
    }
  }

  /** `c` is the highest block that both can reach, or there is none. */
  ghost predicate Found(store: set<Block>, a: Block, b: Block, c: Option<Block>)
  {
    match c
    case Some(x) =>
      ReachShared(store, a, b, x.number) && Reach(store, a, x.number) == c && SharedOnlyUpTo(store, a, b, x.number)
    case None => SharedNowhere(store, a, b)
  }

  /** Finds the highest block that both can reach, or reports that there is none. */
  method FindCommonAncestor(store: set<Block>, a: Block, b: Block) returns (c: Option<Block>)
    ensures Found(store, a, b, c)
  {
    var x, y := a, b;
    while x.number > y.number
      invariant y == b && (x == a || x.number >= b.number) && Tracks(store, a, x)
      invariant SharedOnlyUpTo(store, a, b, a.number) && SharedOnlyUpTo(store, a, b, b.number)
      decreases x.number
    {
      if ParentIn(store, x).None? {
        DeadEnd(store, a, b, x, b.number);
        return None;
      }
      TracksParent(store, a, x);
      x := ParentIn(store, x).value;
    }
    while x.number < y.number
      invariant x.number <= y.number && Tracks(store, a, x) && Tracks(store, b, y)
      invariant SharedOnlyUpTo(store, a, b, x.number)
      decreases y.number
    {
      if ParentIn(store, y).None? {
        SharedEitherWay(store, a, b, x.number);
        DeadEnd(store, b, a, y, x.number);
        return None;
      }
      TracksParent(store, b, y);
      y := ParentIn(store, y).value;
    }
    while x != y
      invariant x.number == y.number && Tracks(store, a, x) && Tracks(store, b, y)
      invariant SharedOnlyUpTo(store, a, b, x.number)
      decreases x.number
    {
      assert Reach(store, a, x.number) == Some(x) && Reach(store, b, x.number) == Some(y);
      if ParentIn(store, x).None? {
        DeadEnd(store, a, b, x, x.number);
        return None;
      }
      if ParentIn(store, y).None? {
        SharedEitherWay(store, a, b, x.number);
        DeadEnd(store, b, a, y, x.number);
        return None;
      }
      TracksParent(store, a, x);
      TracksParent(store, b, y);
      x, y := ParentIn(store, x).value, ParentIn(store, y).value;
    }
    assert Reach(store, a, x.number) == Some(x) && Reach(store, b, x.number) == Some(x);
    c := Some(x);
  }

  /** In a rooted store there always is one, and it is the highest common ancestor. */
  lemma FoundIsCommon(store: set<Block>, genesis: Block, a: Block, b: Block, c: Option<Block>)
    requires Rooted(store, genesis) && a in store && b in store && Found(store, a, b, c)
    ensures c.Some? && IsCommon(a, b, c.value)
  {
    forall n: nat ensures Reach(store, a, n) == Ancestor(a, n) && Reach(store, b, n) == Ancestor(b, n) {
      ReachIsAncestor(store, genesis, a, n);
      ReachIsAncestor(store, genesis, b, n);
    }
    AncestorIsStored(store, genesis, a, 0);
    AncestorIsStored(store, genesis, b, 0);
    assert ParentIn(store, Ancestor(a, 0).value).None? && ParentIn(store, Ancestor(b, 0).value).None?;
    assert ReachShared(store, a, b, 0);
    if c.Some? {
      forall n: nat | n > c.value.number && Ancestor(a, n).Some? ensures Ancestor(a, n) != Ancestor(b, n) {
        assert !ReachShared(store, a, b, n);
        assert Reach(store, a, n) == Ancestor(a, n) && Reach(store, b, n) == Ancestor(b, n);
      }
    }
  }
}
