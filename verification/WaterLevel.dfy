/** The fair share of core/tx_pool.go: one level to which every non-local pending list is cut. */
module WaterLevel {
  import opened Transactions
  import opened MapSums

  /** List lengths after cutting every non-local list to `level`. */
  ghost function Filled(lens: map<Address, nat>, locals: set<Address>, level: nat): map<Address, int>
  {
    map a | a in lens :: if a in locals || lens[a] <= level then lens[a] else level
  }

  ghost function FilledTotal(lens: map<Address, nat>, locals: set<Address>, level: nat): int
  {
    MapSum(Filled(lens, locals, level))
  }

  /** No non-local list is longer than `level`. */
  ghost predicate AllWithin(lens: map<Address, nat>, locals: set<Address>, level: nat)
  {
    forall a :: a in lens && a !in locals ==> lens[a] <= level
  }

  /** `level` is the highest one, not below the guaranteed slots, at which the total fits; or the
      guaranteed slots themselves if nothing fits. */
  ghost predicate IsFairLevel(lens: map<Address, nat>, locals: set<Address>, slots: nat, limit: nat, level: nat)
  {
    slots <= level &&
    (FilledTotal(lens, locals, level) <= limit || AllWithin(lens, locals, slots) || level == slots) &&
    (AllWithin(lens, locals, level) || FilledTotal(lens, locals, level + 1) > limit)
  }

  lemma FilledMonotone(lens: map<Address, nat>, locals: set<Address>, low: nat, high: nat)
    requires low <= high
    ensures FilledTotal(lens, locals, low) <= FilledTotal(lens, locals, high)
  {
    MapSumMonotone(Filled(lens, locals, low), Filled(lens, locals, high));
  }

  /** Above the longest non-local list the level does not matter. */
  lemma WithinIsUncut(lens: map<Address, nat>, locals: set<Address>, level: nat)
    requires AllWithin(lens, locals, level)
    ensures Filled(lens, locals, level) == map a | a in lens :: lens[a] as int
  {
  }

  /** The fair shares are determined by the lengths and the limits: the order in which equally long
      lists are treated cannot matter. */
  lemma FairLevelUnique(lens: map<Address, nat>, locals: set<Address>, slots: nat, limit: nat, s: nat, t: nat)
    requires IsFairLevel(lens, locals, slots, limit, s) && IsFairLevel(lens, locals, slots, limit, t) && s <= t
    ensures Filled(lens, locals, s) == Filled(lens, locals, t)
  {
    if AllWithin(lens, locals, s) {
      WithinIsUncut(lens, locals, s);
      WithinIsUncut(lens, locals, t);
    } else if s < t {
      FilledMonotone(lens, locals, s + 1, t);
      assert false;
    }
  }
}
