/** Header insertion and the canonical number-to-hash table (core/headerchain.go). */
module HeaderChains {
  import opened Transactions
  import opened Chains
  import opened Traces

  /** The sum of the difficulties from the genesis to `b`. */
  ghost function PathDifficulty(b: Block): nat
  {
    b.difficulty + if b.parent.None? then 0 else PathDifficulty(b.parent.value)
  }

  ghost predicate DifficultiesExact(store: set<Block>, td: map<Block, nat>)
  {
    td.Keys == store && forall b {:trigger td[b]} :: b in store ==> td[b] == PathDifficulty(b)
  }

  /** Up to the head's number, the table holds the head's ancestors. */
  ghost predicate Canonical(canon: map<nat, Block>, head: Block)
  {
    forall n: nat {:trigger Ancestor(head, n)} {:trigger n in canon} ::
      n <= head.number ==> n in canon && Ancestor(head, n) == Some(canon[n])
  }

  ghost predicate EmptyAbove(canon: map<nat, Block>, height: nat)
  {
    forall n {:trigger n in canon} :: n in canon ==> n <= height
  }

  ghost predicate Heaviest(store: set<Block>, head: Block)
  {
    forall b {:trigger PathDifficulty(b)} :: b in store ==> PathDifficulty(b) <= PathDifficulty(head)
  }

  /** The header database: everything that WriteHeader keeps true. */
  ghost predicate Consistent(genesis: Block, store: set<Block>, td: map<Block, nat>, canon: map<nat, Block>,
                             head: Block)
  {
    Rooted(store, genesis) && DifficultiesExact(store, td) && head in store &&
    Canonical(canon, head) && EmptyAbove(canon, head.number) && Heaviest(store, head)
  }

  /** Adding a block whose parent is stored. */
  lemma RootedMore(store: set<Block>, genesis: Block, b: Block)
    requires Rooted(store, genesis) && ParentIn(store, b).Some?
    ensures Rooted(store + {b}, genesis)
  {
    forall x | x in store + {b} && x != genesis ensures ParentIn(store + {b}, x).Some? {
      assert x in store ==> ParentIn(store, x).Some?;
    }
  }

  /** Deletes the entries above `number`, counting up to the first missing one. */
  method DeleteAbove(canon: map<nat, Block>, number: nat, ghost height: nat) returns (r: map<nat, Block>)
    requires EmptyAbove(canon, height) && forall n: nat :: n <= height ==> n in canon
    ensures r == map n | n in canon && n <= number :: canon[n]
  {
    r := canon;
    var i := number + 1;
    while i in r
      invariant number < i && (i <= height + 1 || i == number + 1)
      invariant r == map n | n in canon && (n <= number || n >= i) :: canon[n]
      decreases height + 1 - i
    {
      r := r - {i};
      i := i + 1;
    }
    assert forall n :: n in canon && n >= i ==> n <= number;
  }

  /** From number `lo` up to the parent of `header`, the table holds the ancestors of `header`. */
  ghost predicate FilledFrom(canon: map<nat, Block>, header: Block, lo: nat)
  {
    forall n: nat {:trigger Ancestor(header, n)} {:trigger n in canon} ::
      lo <= n < header.number ==> n in canon && Ancestor(header, n) == Some(canon[n])
  }

  /** Below number `hi` the two tables agree. */
  ghost predicate AgreeBelow(a: map<nat, Block>, b: map<nat, Block>, hi: nat)
  {
    forall n: nat {:trigger n in a} {:trigger n in b} :: n < hi ==> (n in a <==> n in b) && (n in a ==> a[n] == b[n])
  }

  /** The ancestors of `head` as far as number `limit`. */
  ghost predicate CanonicalUpTo(canon: map<nat, Block>, head: Block, limit: nat)
  {
    EmptyAbove(canon, limit) &&
    forall n: nat {:trigger Ancestor(head, n)} {:trigger n in canon} ::
      n <= limit ==> (n in canon <==> n <= head.number) && (n in canon ==> Ancestor(head, n) == Some(canon[n]))
  }

  /** Writes the ancestors of `header` until one is already there. */
  method RewriteAncestors(store: set<Block>, genesis: Block, canon: map<nat, Block>, header: Block, ghost head: Block)
    returns (r: map<nat, Block>)
    requires Rooted(store, genesis) && head in store && ParentIn(store, header).Some?
    requires CanonicalUpTo(canon, head, header.number)
    ensures EmptyAbove(r, header.number) && FilledFrom(r, header, 0)
  {
    r := canon;
    var at := ParentIn(store, header).value;
    RootStays(store, genesis, canon, head, header.number);
    while !(at.number in r && r[at.number] == at)
      invariant at in store && at.number < header.number && Ancestor(header, at.number) == Some(at)
      invariant EmptyAbove(r, header.number) && AgreeBelow(r, canon, at.number + 1)
      invariant FilledFrom(r, header, at.number + 1)
      decreases at.number
    {
      assert at.number in canon ==> canon[at.number] != at;
      assert ParentIn(store, at).Some?;
      AncestorOfAncestor(header, at.number, at.number - 1);
      r := r[at.number := at];
      at := ParentIn(store, at).value;
    }
    MeetsHead(canon, r, header, head, at);
  }

  /** Once an ancestor of `header` is found in place, so are all below it. */
  lemma MeetsHead(canon: map<nat, Block>, r: map<nat, Block>, header: Block, head: Block, at: Block)
    requires CanonicalUpTo(canon, head, header.number) && at.number < header.number
    requires at.number in r && r[at.number] == at && Ancestor(header, at.number) == Some(at)
    requires AgreeBelow(r, canon, at.number + 1) && FilledFrom(r, header, at.number + 1)
    ensures FilledFrom(r, header, 0)
  {
    forall n: nat | n <= at.number ensures n in r && Ancestor(header, n) == Some(r[n]) {
      assert at.number in canon && n in canon;
      SharedBelow(head, header, at.number, n);
    }
  }

  /** The genesis is the canonical block at number zero. */
  lemma RootStays(store: set<Block>, genesis: Block, canon: map<nat, Block>, head: Block, limit: nat)
    requires Rooted(store, genesis) && head in store && CanonicalUpTo(canon, head, limit)
    ensures 0 in canon && canon[0] == genesis
  {
    AncestorIsStored(store, genesis, head, 0);
    assert ParentIn(store, Ancestor(head, 0).value).None?;
  }

  /** Makes `header` the head: nothing above it, its ancestors below it. */
  method Advance(store: set<Block>, genesis: Block, canon: map<nat, Block>, header: Block, ghost head: Block)
    returns (r: map<nat, Block>)
    requires Rooted(store, genesis) && head in store && ParentIn(store, header).Some?
    requires Canonical(canon, head) && EmptyAbove(canon, head.number)
    ensures Canonical(r, header) && EmptyAbove(r, header.number)
  {
    r := DeleteAbove(canon, header.number, head.number);
    r := RewriteAncestors(store, genesis, r, header, head);
    r := r[header.number := header];
  }

  datatype Status = Canon | Side | UnknownAncestor

  /** How a header changes the head: strictly heavier, or as heavy and the coin says so. */
  ghost predicate TakesOver(header: Block, head: Block, coin: bool)
  {
    PathDifficulty(header) > PathDifficulty(head) || (PathDifficulty(header) == PathDifficulty(head) && coin)
  }

  /** The chain at one moment. */
  datatype View = View(store: set<Block>, td: map<Block, nat>, canon: map<nat, Block>, current: Block)

  ghost predicate Kept(genesis: Block, v: View)
  {
    Consistent(genesis, v.store, v.td, v.canon, v.current)
  }

  /** A header with a known parent is stored, and becomes the head if it takes over; any other is ignored. */
  ghost predicate Wrote(v: View, e: (Block, bool), v2: View)
  {
    if ParentIn(v.store, e.0).None? then v2 == v
    else
      v2.store == v.store + {e.0} && v2.current == (if TakesOver(e.0, v.current, e.1) then e.0 else v.current)
  }

  /** No write makes the head lighter. */
  lemma NeverLighter(v: View, e: (Block, bool), v2: View)
    requires Wrote(v, e, v2)
    ensures PathDifficulty(v.current) <= PathDifficulty(v2.current)
  {
  }

  class HeaderChain {
    const genesis: Block
    var store: set<Block>
    var td: map<Block, nat>
    var canon: map<nat, Block>
    var current: Block

    ghost predicate Valid()
      reads this
    {
      Consistent(genesis, store, td, canon, current)
    }

    ghost function Now(): View
      reads this
    {
      View(store, td, canon, current)
    }

    constructor (genesis: Block)
      requires genesis.number == 0 && genesis.parent.None?
      ensures Valid() && this.genesis == genesis && current == genesis && store == {genesis}
    {
      this.genesis, store, current := genesis, {genesis}, genesis;
      td, canon := map[genesis := genesis.difficulty], map[0 := genesis];
    }

    method WriteHeader(header: Block, coin: bool) returns (status: Status)
      requires Valid()
      modifies this
      ensures Valid()
      ensures status == UnknownAncestor <==> old(ParentIn(store, header)).None?
      ensures status == Canon <==> old(ParentIn(store, header)).Some? && TakesOver(header, old(current), coin)
      ensures Wrote(old(Now()), (header, coin), Now())
    {
      var parent := ParentIn(store, header);
      if parent.None? {
        return UnknownAncestor;
      }
      var localTd, externTd := td[current], header.difficulty + td[parent.value];
      RootedMore(store, genesis, header);
      td, store := td[header := externTd], store + {header};
      if externTd > localTd || (externTd == localTd && coin) {
        canon := Advance(store, genesis, canon, header, current);
        current, status := header, Canon;
      } else {
        status := Side;
      }
    }

    /** At every point of a run the canonical table is the path to the heaviest header, ties either way. */
    method Run(headers: seq<(Block, bool)>) returns (ghost trace: seq<View>)
      requires Valid()
      modifies this
      ensures Valid() && Follows(trace, headers, Wrote) && trace[0] == old(Now()) && trace[|headers|] == Now()
      ensures forall i :: 0 <= i < |trace| ==> Kept(genesis, trace[i])
      ensures PathDifficulty(old(current)) <= PathDifficulty(current)
    {
      trace := [Now()];
      for i := 0 to |headers|
        invariant Valid() && Follows(trace, headers[..i], Wrote) && trace[0] == old(Now()) && trace[i] == Now()
        invariant forall j :: 0 <= j < |trace| ==> Kept(genesis, trace[j])
        invariant PathDifficulty(old(current)) <= PathDifficulty(current)
      {
        var status := WriteHeader(headers[i].0, headers[i].1);
        assert headers[i] == (headers[i].0, headers[i].1);
        FollowsMore(trace, headers, i, Now(), Wrote);
        NeverLighter(trace[i], headers[i], Now());
        trace := trace + [Now()];
      }
      assert headers[..|headers|] == headers;
    }
  }
}
