/** The two cuts of an index together: which interleavings of their writes leave the record exact
    (core/chain_indexer.go). */
module IndexerRaces {
  import opened Transactions
  import opened Chains
  import opened IndexerStores

  function MineOf(r: Race, reset: bool): Cut
  {
    if reset then r.reset else r.reorg
  }

  lemma ThenStep(r: Race, order: seq<bool>, reset: bool)
    ensures Interleaved(r, order + [reset]) == RaceStep(Interleaved(r, order), reset)
  {
    InterleavedMore(r, order, [reset]);
    OneStep(Interleaved(r, order), reset);
  }

  lemma InterleavedNone(r: Race)
    ensures Interleaved(r, []) == r
  {
  }

  /** One round of a cut's loop. */
  lemma OneRound(r: Race, reset: bool) returns (order: seq<bool>)
    requires MineOf(r, reset).Cut? && MineOf(r, reset).at == Test && MineOf(r, reset).target < r.store.stored
    ensures var q := Interleaved(r, order);
            q.store == r.store.(stored := r.store.stored - 1, heads := r.store.heads - {r.store.stored - 1}) &&
            MineOf(q, reset) == MineOf(r, reset) && MineOf(q, !reset) == MineOf(r, !reset)
  {
    order := [reset];
    OneStep(r, reset);
    ThenStep(r, order, reset);
    order := order + [reset];
    ThenStep(r, order, reset);
    order := order + [reset];
  }

  /** A cut that goes on alone comes to the end of its loop with the sections from its target on removed. */
  lemma {:induction false} RunToSet(r: Race, reset: bool) returns (order: seq<bool>)
    requires MineOf(r, reset).Cut? && MineOf(r, reset).at == Test
    ensures var q, target := Interleaved(r, order), MineOf(r, reset).target;
            q.store == r.store.(stored := if target < r.store.stored then target else r.store.stored,
                                heads := Without(r.store.heads, target, r.store.stored)) &&
            MineOf(q, reset) == Cut(target, Set) && MineOf(q, !reset) == MineOf(r, !reset)
    decreases r.store.stored
  {
    var target := MineOf(r, reset).target;
    if target < r.store.stored {
      var round := OneRound(r, reset);
      var q := Interleaved(r, round);
      var rest := RunToSet(q, reset);
      order := round + rest;
      InterleavedMore(r, round, rest);
      assert Without(q.store.heads, target, q.store.stored) == Without(r.store.heads, target, r.store.stored);
    } else {
      order := [reset];
      OneStep(r, reset);
      assert Without(r.store.heads, target, r.store.stored) == r.store.heads;
    }
  }

  /** A cut that goes on alone to its end. */
  lemma RunAlone(r: Race, reset: bool) returns (order: seq<bool>)
    requires MineOf(r, reset).Cut? && MineOf(r, reset).at == Test
    ensures var q, target := Interleaved(r, order), MineOf(r, reset).target;
            q.store == r.store.(stored := target, heads := Without(r.store.heads, target, r.store.stored)) &&
            MineOf(q, reset) == NoCut && MineOf(q, !reset) == MineOf(r, !reset)
  {
    var loop := RunToSet(r, reset);
    ThenStep(r, loop, reset);
    order := loop + [reset];
  }

  /** A cut from start to end without the other one in between is setValidSections. */
  lemma Undisturbed(r: Race, reset: bool) returns (order: seq<bool>)
    requires MineOf(r, reset).Cut? && MineOf(r, reset).at == Put
    ensures var q := Interleaved(r, order);
            q.store == Cutoff(r.store, MineOf(r, reset).target) && MineOf(q, reset) == NoCut &&
            MineOf(q, !reset) == MineOf(r, !reset)
  {
    OneStep(r, reset);
    var rest := RunAlone(RaceStep(r, reset), reset);
    order := [reset] + rest;
    InterleavedMore(r, [reset], rest);
  }

  // ---- interleavings that break the record ----

  /** Both cuts are about to compare, and a head is recorded at or above the stored sections. */
  ghost predicate HeadLeft(r: Race, head: nat)
  {
    Both(r) && r.reset.at == Test && r.reorg.at == Test && head in r.store.heads && r.store.stored <= head
  }

  /** A head above the stored sections is never removed. */
  lemma LeftForGood(r: Race, head: nat, reset: bool) returns (order: seq<bool>)
    requires HeadLeft(r, head) && MineOf(r, reset).target <= head && MineOf(r, !reset).target == 0
    ensures var q := Interleaved(r, order); Over(q) && q.store.stored == 0 && head in q.store.heads
  {
    var a := RunAlone(r, reset);
    var m := Interleaved(r, a);
    var b := RunAlone(m, !reset);
    order := a + b;
    InterleavedMore(r, a, b);
  }

  /** One cut is about to remove a head when the other lowers the number of sections: the two of them
      then remove the same head. */
  lemma LoseAtRemove(r: Race, reset: bool) returns (order: seq<bool>)
    requires MineOf(r, reset).Cut? && MineOf(r, !reset).Cut? && MineOf(r, reset).at == Put
    requires MineOf(r, !reset).at == Remove
    requires MineOf(r, reset).target < r.store.stored && r.store.stored in r.store.heads
    ensures var q := Interleaved(r, order);
            HeadLeft(q, r.store.stored) && MineOf(q, reset).target == MineOf(r, reset).target &&
            MineOf(q, !reset).target == MineOf(r, !reset).target
  {
    order := [reset];
    OneStep(r, reset);
    ThenStep(r, order, reset);
    order := order + [reset];
    ThenStep(r, order, reset);
    order := order + [reset];
    ThenStep(r, order, !reset);
    order := order + [!reset];
    ThenStep(r, order, reset);
    order := order + [reset];
  }

  /** Both cuts lower the number of sections before either removes a head. */
  lemma LoseAtLower(r: Race, reset: bool) returns (order: seq<bool>)
    requires MineOf(r, reset).Cut? && MineOf(r, !reset).Cut? && MineOf(r, reset).at == Put
    requires MineOf(r, !reset).at == Lower
    requires MineOf(r, reset).target < r.store.stored && 2 <= r.store.stored && r.store.stored - 1 in r.store.heads
    ensures var q := Interleaved(r, order);
            HeadLeft(q, r.store.stored - 1) && MineOf(q, reset).target == MineOf(r, reset).target &&
            MineOf(q, !reset).target == MineOf(r, !reset).target
  {
    order := [reset];
    OneStep(r, reset);
    ThenStep(r, order, reset);
    order := order + [reset];
    ThenStep(r, order, reset);
    order := order + [reset];
    ThenStep(r, order, !reset);
    order := order + [!reset];
    ThenStep(r, order, !reset);
    order := order + [!reset];
    ThenStep(r, order, reset);
    order := order + [reset];
  }

  /** The cut that is under way goes on to lower the number of sections. */
  lemma BringToLower(r: Race, reset: bool) returns (order: seq<bool>)
    requires MineOf(r, reset).Cut? && (MineOf(r, reset).at == Put || MineOf(r, reset).at == Test)
    requires MineOf(r, reset).target < r.store.stored
    ensures var q := Interleaved(r, order);
            q.store == r.store.(count := q.store.count) && MineOf(q, reset) == Cut(MineOf(r, reset).target, Lower) &&
            MineOf(q, !reset) == MineOf(r, !reset)
  {
    order := [reset];
    OneStep(r, reset);
    if MineOf(r, reset).at == Put {
      ThenStep(r, order, reset);
      order := order + [reset];
    }
  }

  /** A cut that starts while the other is under way: some interleaving leaves a head behind. */
  lemma LoseHead(r: Race, size: nat, reset: bool) returns (order: seq<bool>)
    requires Both(r) && MineOf(r, reset).at == Put && Midway(r.store, size, MineOf(r, !reset))
    requires MineOf(r, !reset).target == 0
    requires MineOf(r, reset).target < r.store.stored && 1 in r.store.heads
    ensures Over(Interleaved(r, order)) && !Exact(Interleaved(r, order).store, size)
  {
    var head := if MineOf(r, !reset).at == Remove then r.store.stored else r.store.stored - 1;
    var first;
    if MineOf(r, !reset).at == Remove {
      first := LoseAtRemove(r, reset);
    } else if MineOf(r, !reset).at == Lower {
      first := LoseAtLower(r, reset);
    } else {
      var zero := BringToLower(r, !reset);
      first := LoseAtLower(Interleaved(r, zero), reset);
      InterleavedMore(r, zero, first);
      first := zero + first;
    }
    var last := LeftForGood(Interleaved(r, first), head, reset);
    InterleavedMore(r, first, last);
    order := first + last;
  }

  /** The reorg leaves its loop, the reset removes everything, and the reorg then sets the number of
      sections back to its target. */
  lemma RaiseCount(r: Race, size: nat) returns (order: seq<bool>)
    requires Both(r) && r.reset == Cut(0, Put) && Midway(r.store, size, r.reorg) && r.reorg.target > 0
    ensures var q := Interleaved(r, order); Over(q) && q.store.stored == r.reorg.target && 0 !in q.store.heads
  {
    var a := BringToSet(r, size);
    var m := Interleaved(r, a);
    var b := Undisturbed(m, true);
    InterleavedMore(r, a, b);
    ThenStep(r, a + b, false);
    order := a + b + [false];
  }

  lemma BringToSet(r: Race, size: nat) returns (order: seq<bool>)
    requires Both(r) && Midway(r.store, size, r.reorg) && r.reorg.target > 0
    ensures var q := Interleaved(r, order);
            q.reset == r.reset && q.reorg == Cut(r.reorg.target, Set) && q.store.stored == r.reorg.target
  {
    order := [];
    InterleavedNone(r);
    if r.reorg.at == Lower {
      OneStep(r, false);
      order := [false];
    }
    var m := Interleaved(r, order);
    if m.reorg.at == Remove || m.reorg.at == Put {
      ThenStep(r, order, false);
      order := order + [false];
    }
    m := Interleaved(r, order);
    if m.reorg.at == Test {
      var rest := RunToSet(m, false);
      InterleavedMore(r, order, rest);
      order := order + rest;
    }
  }

  /** Two sections are stored and a reorg touches the second: after these writes one section is stored
      and no head is recorded. */
  lemma BadInterleaving(a: Block, b: Block) returns (order: seq<bool>)
    ensures var q := Interleaved(Race(Store(2, 2, map[0 := a, 1 := b]), Cut(0, Put), Cut(1, Put)), order);
            Over(q) && q.store.stored == 1 && q.store.heads == map[]
  {
    var r := Race(Store(2, 2, map[0 := a, 1 := b]), Cut(0, Put), Cut(1, Put));
    OneStep(r, false);
    var m := RaceStep(r, false);
    var loop := RunToSet(m, false);
    var n := Interleaved(m, loop);
    var all := Undisturbed(n, true);
    InterleavedMore(m, loop, all);
    InterleavedMore(r, [false], loop + all);
    ThenStep(r, [false] + (loop + all), false);
    order := [false] + (loop + all) + [false];
  }

  // ---- interleavings that keep it ----

  ghost predicate Waits(c: Cut)
  {
    c.Cut? && c.at == Remove
  }

  /** A cut that has nothing more to do than to set the number of sections. */
  ghost predicate Leaves(c: Cut)
  {
    c.NoCut? || c.at == Set
  }

  /** Both cuts remove everything and at most the first section's head is recorded. As long as it is, one of
      them has still to remove it. */
  ghost predicate AtMostOne(r: Race)
  {
    (forall s :: s in r.store.heads ==> s == 0) && (r.reset.Cut? ==> r.reset.target == 0) &&
    (r.reorg.Cut? ==> r.reorg.target == 0) &&
    (0 in r.store.heads && r.store.stored == 0 ==> Waits(r.reset) || Waits(r.reorg)) &&
    (0 in r.store.heads && Leaves(r.reset) ==> Waits(r.reorg) && r.store.stored == 0) &&
    (0 in r.store.heads && Leaves(r.reorg) ==> Waits(r.reset) && r.store.stored == 0) &&
    (Over(r) ==> r.store.stored == 0) &&
    (!(r.reset.Cut? && r.reset.at == Put) || !(r.reorg.Cut? && r.reorg.at == Put) ==> r.store.count == 0)
  }

  lemma AtMostOneStep(r: Race, reset: bool)
    requires AtMostOne(r)
    ensures AtMostOne(RaceStep(r, reset))
  {
  }

  lemma {:induction false} AtMostOneEnds(r: Race, order: seq<bool>, size: nat)
    requires AtMostOne(r) && Over(Interleaved(r, order))
    ensures Exact(Interleaved(r, order).store, size)
    decreases |order|
  {
    if order == [] {
      forall s: nat ensures HeadLinked(r.store.heads, size, s) {}
    } else {
      AtMostOneStep(r, order[0]);
      AtMostOneEnds(RaceStep(r, order[0]), order[1..], size);
    }
  }

  /** One cut is about to start while the other is under way. */
  ghost predicate Meet(r: Race, size: nat)
  {
    Both(r) && r.reset.target == 0 &&
    ((r.reset.at == Put && Midway(r.store, size, r.reorg)) ||
     (r.reorg.at == Put && r.reorg.target < r.store.stored && Midway(r.store, size, r.reset)))
  }

  /** A reorg that forgets every section too, with no second section's head recorded. */
  ghost predicate Harmless(r: Race)
  {
    r.reorg.Cut? && r.reorg.target == 0 && 1 !in r.store.heads
  }

  lemma HarmlessMeeting(r: Race, size: nat)
    requires Meet(r, size) && Harmless(r)
    ensures AtMostOne(r)
  {
    assert 2 in r.store.heads ==> 1 in r.store.heads;
  }

  /** Exactly when every interleaving of the two cuts leaves the record exact: the reorg forgets every
      section too, and no second section's head is recorded. */
  lemma MeetingExactly(r: Race, size: nat)
    requires Meet(r, size)
    ensures (forall order :: Over(Interleaved(r, order)) ==> Exact(Interleaved(r, order).store, size)) <==>
            r.reorg.target == 0 && 1 !in r.store.heads
  {
    if r.reorg.target == 0 && 1 !in r.store.heads {
      HarmlessMeeting(r, size);
      forall order | Over(Interleaved(r, order)) ensures Exact(Interleaved(r, order).store, size) {
        AtMostOneEnds(r, order, size);
      }
    } else {
      var order;
      if r.reset.at == Put && Midway(r.store, size, r.reorg) {
        if r.reorg.target > 0 {
          order := RaiseCount(r, size);
        } else {
          order := LoseHead(r, size, true);
        }
      } else {
        order := LoseHead(r, size, false);
      }
      assert Over(Interleaved(r, order)) && !Exact(Interleaved(r, order).store, size);
    }
  }
}
