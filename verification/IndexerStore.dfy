/** The index's record of its sections, and the single writes by which it is cut back
    (core/chain_indexer.go). A cut for a reorg holds the lock, a cut for a failed reset does not, so
    their writes can fall between each other. */
module IndexerStores {
  import opened Transactions
  import opened Chains
  import opened Numbers

  /** `to` is reached from `from` by exactly `n` parent links; no block stands before the first one. */
  ghost predicate Links(from: Option<Block>, to: Option<Block>, n: nat)
    decreases n
  {
    if n == 0 then to == from else to.Some? && Links(from, to.value.parent, n - 1)
  }

  lemma {:induction false} LinksJoin(a: Option<Block>, b: Option<Block>, c: Option<Block>, m: nat, n: nat)
    requires Links(a, b, m) && Links(b, c, n)
    ensures Links(a, c, m + n)
    decreases n
  {
    if n > 0 {
      LinksJoin(a, b, c.value.parent, m, n - 1);
    }
  }

  /** The number of stored sections in memory and in the database, and the recorded section heads. */
  datatype Store = Store(stored: nat, count: nat, heads: map<nat, Block>)

  /** The recorded head of a section; there is none before the first section. */
  function SectionHead(heads: map<nat, Block>, section: int): Option<Block>
  {
    if section >= 0 && section in heads then Some(heads[section]) else None
  }

  ghost predicate HeadLinked(heads: map<nat, Block>, size: nat, s: nat)
  {
    s in heads ==> Links(SectionHead(heads, s - 1), Some(heads[s]), size)
  }

  /** Heads are recorded for exactly the stored sections, each `size` links after the one before. */
  ghost predicate Recorded(heads: map<nat, Block>, size: nat, stored: nat)
  {
    (forall s: nat {:trigger s in heads} :: s in heads <==> s < stored) &&
    (forall s: nat {:trigger HeadLinked(heads, size, s)} :: HeadLinked(heads, size, s))
  }

  ghost predicate Exact(s: Store, size: nat)
  {
    Recorded(s.heads, size, s.stored) && s.count == s.stored
  }

  /** From the start of the chain to the head of section `s` there are exactly the blocks of its sections. */
  lemma {:induction false} WholeChain(heads: map<nat, Block>, size: nat, stored: nat, s: nat)
    requires Recorded(heads, size, stored) && s < stored
    ensures s in heads && Links(None, Some(heads[s]), Blocks(s + 1, size))
  {
    assert HeadLinked(heads, size, s);
    if s > 0 {
      WholeChain(heads, size, stored, s - 1);
      LinksJoin(None, Some(heads[s - 1]), Some(heads[s]), Blocks(s, size), size);
    }
  }

  /** The blocks of `n` sections. */
  ghost function Blocks(n: nat, size: nat): nat
  {
    if n == 0 then 0 else Blocks(n - 1, size) + size
  }

  // ---- cutting back ----

  function Without(heads: map<nat, Block>, from: nat, to: nat): map<nat, Block>
  {
    map s | s in heads && !(from <= s < to) :: heads[s]
  }

  /** The record cut back to `sections`. */
  function Cutoff(s: Store, sections: nat): Store
  {
    Store(sections, sections, Without(s.heads, sections, s.stored))
  }

  /** setValidSections when nothing comes between its writes. */
  method SetValidSections(s: Store, sections: nat) returns (t: Store)
    ensures t == Cutoff(s, sections)
  {
    t := s.(count := sections);
    assert s.heads == Without(s.heads, t.stored, s.stored);
    while t.stored > sections
      invariant t.count == sections && t.stored <= s.stored && (t.stored < s.stored ==> sections <= t.stored)
      invariant t.heads == Without(s.heads, t.stored, s.stored)
    {
      t := t.(stored := t.stored - 1);
      t := t.(heads := t.heads - {t.stored});
    }
    t := t.(stored := sections);
  }

  /** A shorter record of the same chain. */
  lemma ShorterRecord(heads: map<nat, Block>, fewer: map<nat, Block>, size: nat, stored: nat, sections: nat)
    requires Recorded(heads, size, stored) && sections <= stored
    requires forall s: nat :: s in fewer <==> s < sections
    requires forall s: nat :: s in fewer ==> s in heads && fewer[s] == heads[s]
    ensures Recorded(fewer, size, sections)
  {
    forall s: nat ensures HeadLinked(fewer, size, s) {
      assert HeadLinked(heads, size, s);
      assert s in fewer ==> SectionHead(fewer, s - 1) == SectionHead(heads, s - 1);
    }
  }

  // ---- its single writes ----

  /** Where a cut stands: about to write the count, to compare, to lower the number of stored
      sections, to remove the head at that number, or to set the number. */
  datatype Pc = Put | Test | Lower | Remove | Set

  datatype Cut = NoCut | Cut(target: nat, at: Pc)

  /** One access of a cut to the record; the number of sections is an unsigned 64-bit one. */
  function Access(s: Store, c: Cut): Store
    requires c.Cut?
  {
    match c.at
    case Put => s.(count := c.target)
    case Test => s
    case Lower => s.(stored := if s.stored == 0 then MAX_UINT64 else s.stored - 1)
    case Remove => s.(heads := s.heads - {s.stored})
    case Set => s.(stored := c.target)
  }

  function Moved(s: Store, c: Cut): Cut
    requires c.Cut?
  {
    match c.at
    case Put => c.(at := Test)
    case Test => c.(at := if s.stored > c.target then Lower else Set)
    case Lower => c.(at := Remove)
    case Remove => c.(at := Test)
    case Set => NoCut
  }

  /** The record with the cut of a failed reset and the cut of a reorg under way. */
  datatype Race = Race(store: Store, reset: Cut, reorg: Cut)

  function RaceStep(r: Race, reset: bool): Race
  {
    if reset then
      if r.reset.NoCut? then r else Race(Access(r.store, r.reset), Moved(r.store, r.reset), r.reorg)
    else
      if r.reorg.NoCut? then r else Race(Access(r.store, r.reorg), r.reset, Moved(r.store, r.reorg))
  }

  /** The two cuts take turns as `order` says. */
  function Interleaved(r: Race, order: seq<bool>): Race
    decreases |order|
  {
    if order == [] then r else Interleaved(RaceStep(r, order[0]), order[1..])
  }

  lemma {:induction false} InterleavedMore(r: Race, a: seq<bool>, b: seq<bool>)
    ensures Interleaved(r, a + b) == Interleaved(Interleaved(r, a), b)
    decreases |a|
  {
    if a == [] {
      assert a + b == b;
    } else {
      assert (a + b)[0] == a[0] && (a + b)[1..] == a[1..] + b;
      InterleavedMore(RaceStep(r, a[0]), a[1..], b);
    }
  }

  lemma OneStep(r: Race, reset: bool)
    ensures Interleaved(r, [reset]) == RaceStep(r, reset)
  {
    assert [reset][1..] == [];
  }

  ghost predicate Over(r: Race)
  {
    r.reset.NoCut? && r.reorg.NoCut?
  }

  ghost predicate Both(r: Race)
  {
    r.reset.Cut? && r.reorg.Cut?
  }

  /** One cut alone, in the middle of its writes. */
  ghost predicate Midway(s: Store, size: nat, c: Cut)
  {
    match c
    case NoCut => Exact(s, size)
    case Cut(target, at) =>
      if at.Put? then Exact(s, size) && target <= s.stored
      else
        s.count == target <= s.stored &&
        if at.Remove? then Recorded(s.heads, size, s.stored + 1)
        else Recorded(s.heads, size, s.stored) && (at.Lower? ==> target < s.stored) && (at.Set? ==> target == s.stored)
  }

  lemma MidwayStep(s: Store, size: nat, c: Cut)
    requires c.Cut? && Midway(s, size, c)
    ensures Midway(Access(s, c), size, Moved(s, c))
  {
    if c.at.Remove? {
      ShorterRecord(s.heads, s.heads - {s.stored}, size, s.stored + 1, s.stored);
    }
  }
}
