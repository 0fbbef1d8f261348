/** The global pending limit (core/tx_pool.go:958-1027): the longest non-local lists are cut, round
    by round, until the total fits or every such list is down to its guaranteed slots. */
module PoolTruncation {
  import opened Transactions
  import opened NonceMaps
  import opened TxLists
  import opened PoolAccounts
  import opened PoolStates
  import opened PoolPromotion
  import opened MapSums
  import opened WaterLevel

  function Lens(p: Pool): map<Address, nat>
  {
    map a | a in p.pending :: |p.pending[a].items|
  }

  ghost function AsInts(m: map<Address, nat>): map<Address, int>
  {
    map a | a in m :: m[a] as int
  }

  ghost function PendingTotal(p: Pool): int
  {
    MapSum(AsInts(Lens(p)))
  }

  /** The transaction has left `all` exactly if it has left its sender's lists. */
  ghost predicate Accounted(p: Pool, q: Pool, x: Tx)
  {
    x in q.all <==> x in p.all && (Holds(AccountOf(p, x.from), x) ==> Holds(AccountOf(q, x.from), x))
  }

  /** Exactly the transactions that left their sender's lists have left `all`. */
  ghost predicate ForgetsLost(p: Pool, q: Pool)
  {
    forall x {:trigger Accounted(p, q, x)} :: Accounted(p, q, x)
  }

  lemma ForgetsOne(p: Pool, q: Pool, a: Address)
    requires Inv(p) && OnlyAccount(p, q, a) && ForgetsDropped(p, q, a)
    ensures ForgetsLost(p, q)
  {
    assert Sound(AccountOf(p, a), a);
  }

  lemma ForgetsTwice(p: Pool, q: Pool, r: Pool)
    requires ForgetsLost(p, q) && ForgetsLost(q, r)
    requires forall a :: HoldsNoMore(AccountOf(q, a), AccountOf(p, a)) && HoldsNoMore(AccountOf(r, a), AccountOf(q, a))
    ensures ForgetsLost(p, r)
  {
    forall x ensures Accounted(p, r, x) {
      assert Accounted(p, q, x) && Accounted(q, r, x);
      assert HoldsNoMore(AccountOf(q, x.from), AccountOf(p, x.from)) &&
        HoldsNoMore(AccountOf(r, x.from), AccountOf(q, x.from));
    }
  }

  /** `q` is `p` with every non-local pending list cut to `level`, those in `low` to one less. */
  ghost predicate CutTo(p: Pool, q: Pool, level: nat, low: set<Address>)
    requires level > 0 || low == {}
  {
    Inv(q) && SameSettings(p, q) &&
    q.pending.Keys == p.pending.Keys && ForgetsLost(p, q) &&
    forall a {:trigger IsCut(p, q, a, level, low)} :: IsCut(p, q, a, level, low)
  }

  ghost predicate IsCut(p: Pool, q: Pool, a: Address, level: nat, low: set<Address>)
    requires level > 0 || low == {}
  {
    AccountOf(q, a) == CutAccount(p, a, level, low)
  }

  ghost function CutAccount(p: Pool, a: Address, level: nat, low: set<Address>): Account
    requires level > 0 || low == {}
  {
    if a in p.locals then AccountOf(p, a)
    else Truncated(AccountOf(p, a), if a in low then level - 1 else level)
  }

  /** Cutting twice is cutting once, to the lower level. */
  lemma {:induction false} LowestOfLowest(m: NonceMap, high: nat, level: nat)
    requires level <= high
    ensures Lowest(Lowest(m, high), level) == Lowest(m, level)
    decreases m.Keys
  {
    if |m| > high {
      var hi := Max(m.Keys);
      assert (m - {hi}).Keys == m.Keys - {hi};
      LowestOfLowest(m - {hi}, high, level);
    }
  }

  /** Two cuts, the second below the first, lower the next nonce as one cut does. */
  lemma NextTwice(next: nat, low: set<nat>, high: set<nat>)
    requires forall i, j :: i in high && j in low ==> j < i
    ensures NextWithout(NextWithout(next, high), low) == NextWithout(next, high + low)
  {
    if low == {} {
      assert high + low == high;
    } else {
      MinIs(high + low, Min(low));
      assert high != {} ==> Min(low) < Min(high);
    }
  }

  /** The nonces two successive cuts take. */
  lemma TwoCuts(all: set<nat>, mid: set<nat>, kept: set<nat>, next: nat)
    requires kept <= mid <= all && forall n, d :: n in mid && d in all && d !in mid ==> n < d
    ensures NextWithout(NextWithout(next, all - mid), mid - kept) == NextWithout(next, all - kept)
  {
    NextTwice(next, mid - kept, all - mid);
    assert (all - mid) + (mid - kept) == all - kept;
  }

  lemma TruncatedAgain(acc: Account, high: nat, level: nat)
    requires level <= high
    ensures Truncated(Truncated(acc, high), level) == Truncated(acc, level)
  {
    LowestOfLowest(acc.pending, high, level);
    var mid := Lowest(acc.pending, high);
    var kept := Lowest(mid, level);
    TwoCuts(acc.pending.Keys, mid.Keys, kept.Keys, acc.next);
  }

  lemma TruncatedShort(acc: Account, level: nat)
    requires |acc.pending| <= level
    ensures Truncated(acc, level) == acc
  {
    assert acc.pending.Keys - acc.pending.Keys == {};
  }

  // ---- one list, one transaction ----

  /** list.Cap(list.Len() - 1) and its bookkeeping. */
  method CapByOne(p: Pool, a: Address) returns (q: Pool)
    requires Inv(p) && a in p.pending && PendingOf(p, a) != map[]
    ensures Inv(q) && OnlyAccount(p, q, a) && ForgetsDropped(p, q, a) && q.pending.Keys == p.pending.Keys
    ensures AccountOf(q, a) == Truncated(AccountOf(p, a), |PendingOf(p, a)| - 1)
    ensures |PendingOf(q, a)| == |PendingOf(p, a)| - 1
  {
    var list := p.pending[a];
    var nonce := Max(list.items.Keys);
    assert Sound(AccountOf(p, a), a);
    TruncatedByOne(AccountOf(p, a));
    q := DropOne(p, a, list.(items := Lowest(list.items, |list.items| - 1)), list.items[nonce]);
    q := LowerNext(q, a, nonce);
  }

  lemma TruncatedByOne(acc: Account)
    requires acc.pending != map[]
    ensures var hi := Max(acc.pending.Keys);
            |acc.pending| > 0 && Lowest(acc.pending, |acc.pending| - 1) == acc.pending - {hi} &&
            Truncated(acc, |acc.pending| - 1) ==
              Account(acc.pending - {hi}, acc.queue, if acc.next > hi then hi else acc.next)
  {
    var m, hi := acc.pending, Max(acc.pending.Keys);
    assert (m - {hi}).Keys == m.Keys - {hi};
    assert m.Keys - (m - {hi}).Keys == {hi};
    MinIs({hi}, hi);
  }

  /** Takes one transaction off a pending list and out of the pool; the list stays, even empty. */
  method DropOne(p: Pool, a: Address, l: TxList, tx: Tx) returns (q: Pool)
    requires Inv(p) && a in p.pending && ValidList(l) && l.strict
    requires tx.nonce in PendingOf(p, a) && PendingOf(p, a)[tx.nonce] == tx && l.items == PendingOf(p, a) - {tx.nonce}
    ensures Inv(q) && OnlyAccount(p, q, a) && ForgetsDropped(p, q, a) && q.pending.Keys == p.pending.Keys
    ensures AccountOf(q, a) == AccountOf(p, a).(pending := l.items)
  {
    q := Forget(p, [tx]);
    q := q.(pending := q.pending[a := l]);
    assert Sound(AccountOf(p, a), a);
    forall x | Holds(AccountOf(q, a), x) ensures x in q.all {
      assert Holds(AccountOf(p, a), x);
    }
    AccountChange(p, q, a);
  }

  // ---- one round over the offenders ----

  lemma TotalAfter(q: Pool, r: Pool, a: Address)
    requires a in q.pending && r.pending.Keys == q.pending.Keys && OnlyAccount(q, r, a)
    requires |PendingOf(r, a)| == |PendingOf(q, a)| - 1
    ensures PendingTotal(r) == PendingTotal(q) - 1
  {
    LensAfter(q, r, a);
    MapSumUpdate(AsInts(Lens(q)), a, Lens(q)[a] - 1);
  }

  lemma LensAfter(q: Pool, r: Pool, a: Address)
    requires a in q.pending && r.pending.Keys == q.pending.Keys && OnlyAccount(q, r, a)
    requires |PendingOf(r, a)| == |PendingOf(q, a)| - 1
    ensures AsInts(Lens(r)) == AsInts(Lens(q))[a := Lens(q)[a] - 1]
  {
    var before, after := Lens(q), Lens(r);
    forall b | b in before ensures b in after && after[b] + (if b == a then 1 else 0) == before[b] {
      assert b != a ==> AccountOf(r, b) == AccountOf(q, b);
      assert PendingOf(q, b) == q.pending[b].items && PendingOf(r, b) == r.pending[b].items;
    }
    IntsAfter(before, after, a);
  }

  lemma IntsAfter(before: map<Address, nat>, after: map<Address, nat>, a: Address)
    requires a in before && after.Keys == before.Keys
    requires forall b :: b in before ==> after[b] + (if b == a then 1 else 0) == before[b]
    ensures AsInts(after) == AsInts(before)[a := before[a] - 1]
  {
  }

  /** A non-local account whose list reaches the level. */
  ghost predicate Reaches(p: Pool, a: Address, level: nat)
  {
    a in p.pending && a !in p.locals && |PendingOf(p, a)| >= level
  }

  method CapNext(ghost p: Pool, q: Pool, a: Address, ghost level: nat, ghost low: set<Address>) returns (r: Pool)
    requires Inv(p) && level > 0 && CutTo(p, q, level, low) && a !in low && Reaches(p, a, level)
    ensures CutTo(p, r, level, low + {a}) && PendingTotal(r) == PendingTotal(q) - 1
  {
    LenAtLevel(p, q, a, level, low);
    r := CapByOne(q, a);
    assert AccountOf(r, a) == Truncated(AccountOf(q, a), level - 1);
    TotalAfter(q, r, a);
    CutOneMore(p, q, r, a, level, low);
  }

  method CapStage(ghost p: Pool, q: Pool, a: Address, ghost level: nat, ghost low: set<Address>,
                  ghost stage: (Pool, set<Address>) -> bool)
    returns (r: Pool)
    requires Inv(p) && level > 0 && Lowering(p, level, stage) && stage(q, low) && a !in low && Reaches(p, a, level)
    ensures stage(r, low + {a}) && PendingTotal(r) == PendingTotal(q) - 1
  {
    assert CutTo(p, q, level, low);
    r := CapNext(p, q, a, level, low);
    assert CutTo(p, r, level, low + {a});
  }

  lemma LenAtLevel(p: Pool, q: Pool, a: Address, level: nat, low: set<Address>)
    requires level > 0 && CutTo(p, q, level, low) && a !in low && Reaches(p, a, level)
    ensures |PendingOf(q, a)| == level && PendingOf(q, a) != map[] && a in q.pending
    ensures Truncated(AccountOf(q, a), level - 1) == Truncated(AccountOf(p, a), level - 1)
  {
    var acc := AccountOf(p, a);
    assert IsCut(p, q, a, level, low);
    assert AccountOf(q, a) == Truncated(acc, level) && |acc.pending| >= level;
    TruncatedFull(acc, level);
    TruncatedAgain(acc, level, level - 1);
  }

  lemma TruncatedFull(acc: Account, level: nat)
    requires 0 < level <= |acc.pending|
    ensures |Truncated(acc, level).pending| == level && Truncated(acc, level).pending != map[]
  {
  }

  lemma CutHolds(p: Pool, q: Pool, level: nat, low: set<Address>)
    requires Inv(p) && (level > 0 || low == {}) && CutTo(p, q, level, low)
    ensures forall b :: HoldsNoMore(AccountOf(q, b), AccountOf(p, b))
  {
    forall b ensures HoldsNoMore(AccountOf(q, b), AccountOf(p, b)) {
      assert Sound(AccountOf(p, b), b);
      assert IsCut(p, q, b, level, low);
      TruncatedIsSound(AccountOf(p, b), b, if b in low then level - 1 else level);
    }
  }

  lemma TruncateOneHolds(q: Pool, r: Pool, a: Address, level: nat)
    requires Inv(q) && OnlyAccount(q, r, a) && AccountOf(r, a) == Truncated(AccountOf(q, a), level)
    ensures forall b :: HoldsNoMore(AccountOf(r, b), AccountOf(q, b))
  {
    assert Sound(AccountOf(q, a), a);
    TruncatedIsSound(AccountOf(q, a), a, level);
  }

  lemma CutOneMore(p: Pool, q: Pool, r: Pool, a: Address, level: nat, low: set<Address>)
    requires Inv(p) && level > 0 && CutTo(p, q, level, low) && a !in p.locals
    requires Inv(r) && OnlyAccount(q, r, a) && ForgetsDropped(q, r, a) && r.pending.Keys == q.pending.Keys
    requires AccountOf(r, a) == Truncated(AccountOf(q, a), level - 1) == Truncated(AccountOf(p, a), level - 1)
    ensures CutTo(p, r, level, low + {a})
  {
    CutForgets(p, q, r, a, level, low);
    CutOneAccount(p, q, r, a, level, low);
  }

  lemma CutForgets(p: Pool, q: Pool, r: Pool, a: Address, level: nat, low: set<Address>)
    requires Inv(p) && level > 0 && CutTo(p, q, level, low)
    requires OnlyAccount(q, r, a) && ForgetsDropped(q, r, a)
    requires AccountOf(r, a) == Truncated(AccountOf(q, a), level - 1)
    ensures ForgetsLost(p, r)
  {
    ForgetsOne(q, r, a);
    CutHolds(p, q, level, low);
    TruncateOneHolds(q, r, a, level - 1);
    ForgetsTwice(p, q, r);
  }

  lemma CutOneAccount(p: Pool, q: Pool, r: Pool, a: Address, level: nat, low: set<Address>)
    requires level > 0 && CutTo(p, q, level, low) && a !in p.locals && OnlyAccount(q, r, a)
    requires AccountOf(r, a) == Truncated(AccountOf(p, a), level - 1)
    ensures forall b {:trigger IsCut(p, r, b, level, low + {a})} :: IsCut(p, r, b, level, low + {a})
  {
    forall b ensures IsCut(p, r, b, level, low + {a}) {
      assert IsCut(p, q, b, level, low);
    }
  }

  ghost predicate Distinct(s: seq<Address>)
  {
    forall i, j :: 0 <= i < j < |s| ==> s[i] != s[j]
  }

  lemma Prefixes(s: seq<Address>, i: nat)
    requires i < |s|
    ensures forall a :: a in s[..i + 1] <==> a in s[..i] || a == s[i]
    ensures Distinct(s) ==> s[i] !in s[..i]
  {
    assert s[..i + 1] == s[..i] + [s[i]];
  }

  lemma Whole(s: seq<Address>)
    ensures s[..|s|] == s
  {
  }

  /** `offenders` are exactly the non-local accounts whose lists reach `level`. */
  ghost predicate Offending(p: Pool, offenders: seq<Address>, level: nat)
  {
    Distinct(offenders) && forall a :: a in offenders <==> Reaches(p, a, level)
  }

  /** Cuts one transaction off every offender. */
  method CapRound(ghost p: Pool, q: Pool, offenders: seq<Address>, count: int, ghost level: nat)
    returns (r: Pool, left: int)
    requires Inv(p) && level > 0 && CutTo(p, q, level, {}) && Offending(p, offenders, level) && count == PendingTotal(q)
    ensures CutTo(p, r, level - 1, {}) && left == PendingTotal(r)
    ensures forall a :: a in offenders ==> |PendingOf(r, a)| == level - 1
  {
    ghost var low;
    ghost var stage := (r: Pool, low: set<Address>) => CutTo(p, r, level, low);
    r, left, low := CapEach(p, q, offenders, count, level, stage);
    RoundDone(p, r, offenders, level, low);
  }

  /** `stage` tells the pools that are `p` cut to the level and one below it for some. */
  ghost predicate Lowering(p: Pool, level: nat, stage: (Pool, set<Address>) -> bool)
    requires level > 0
  {
    forall r, low {:trigger CutTo(p, r, level, low)} :: stage(r, low) <==> CutTo(p, r, level, low)
  }

  method CapEach(ghost p: Pool, q: Pool, offenders: seq<Address>, count: int, ghost level: nat,
                 ghost stage: (Pool, set<Address>) -> bool)
    returns (r: Pool, left: int, ghost low: set<Address>)
    requires Inv(p) && level > 0 && Lowering(p, level, stage) && stage(q, {}) && Offending(p, offenders, level)
    requires count == PendingTotal(q)
    ensures stage(r, low) && left == PendingTotal(r) && forall a :: a in low <==> a in offenders
  {
    r, left, low := q, count, {};
    for i := 0 to |offenders|
      invariant stage(r, low) && left == PendingTotal(r) && forall a :: a in low <==> a in offenders[..i]
    {
      Prefixes(offenders, i);
      r := CapStage(p, r, offenders[i], level, low, stage);
      low, left := low + {offenders[i]}, left - 1;
    }
    Whole(offenders);
  }

  lemma RoundDone(p: Pool, r: Pool, offenders: seq<Address>, level: nat, low: set<Address>)
    requires level > 0 && CutTo(p, r, level, low) && Offending(p, offenders, level)
    requires forall a :: a in low <==> a in offenders
    ensures CutTo(p, r, level - 1, {})
    ensures forall a :: a in offenders ==> |PendingOf(r, a)| == level - 1
  {
    forall a ensures IsCut(p, r, a, level - 1, {}) && (a in offenders ==> |PendingOf(r, a)| == level - 1) {
      assert IsCut(p, r, a, level, low);
      if a !in p.locals && a !in offenders {
        TruncatedShort(AccountOf(p, a), level);
        TruncatedShort(AccountOf(p, a), level - 1);
      }
    }
  }

  lemma LenAt(p: Pool, q: Pool, a: Address, level: nat)
    requires IsCut(p, q, a, level, {})
    ensures |PendingOf(q, a)| == if a in p.locals || |PendingOf(p, a)| <= level then |PendingOf(p, a)| else level
  {
  }

  /** At a level the lengths are the filled ones. */
  lemma CutLens(p: Pool, q: Pool, level: nat)
    requires CutTo(p, q, level, {})
    ensures AsInts(Lens(q)) == Filled(Lens(p), p.locals, level)
    ensures PendingTotal(q) == FilledTotal(Lens(p), p.locals, level)
  {
    forall a | a in q.pending
      ensures |q.pending[a].items| == if a in p.locals || |p.pending[a].items| <= level then |p.pending[a].items|
        else level
    {
      assert IsCut(p, q, a, level, {});
      LenAt(p, q, a, level);
    }
    SameLens(p, q, level);
  }

  lemma SameLens(p: Pool, q: Pool, level: nat)
    requires q.pending.Keys == p.pending.Keys
    requires forall a :: a in q.pending ==>
               |q.pending[a].items| == if a in p.locals || |p.pending[a].items| <= level then |p.pending[a].items|
                 else level
    ensures AsInts(Lens(q)) == Filled(Lens(p), p.locals, level)
  {
  }

  /** Levels that no non-local list exceeds are interchangeable. */
  lemma Relevel(p: Pool, q: Pool, level: nat, other: nat)
    requires CutTo(p, q, level, {})
    requires AllWithin(Lens(p), p.locals, level) && AllWithin(Lens(p), p.locals, other)
    ensures CutTo(p, q, other, {})
  {
    forall a ensures IsCut(p, q, a, other, {}) {
      assert IsCut(p, q, a, level, {});
      if a !in p.locals {
        assert a in p.pending ==> Lens(p)[a] <= level && Lens(p)[a] <= other;
        TruncatedShort(AccountOf(p, a), level);
        TruncatedShort(AccountOf(p, a), other);
      }
    }
  }

  // ---- lowering the level ----

  /** One level higher would not fit, unless nothing is cut at all. */
  ghost predicate NoHigher(p: Pool, limit: nat, level: nat)
  {
    AllWithin(Lens(p), p.locals, level) || FilledTotal(Lens(p), p.locals, level + 1) > limit
  }

  /** The pool stands at `level`, has `count` pending transactions, and no higher level fits. */
  ghost predicate StandsAt(p: Pool, limit: nat, q: Pool, count: int, level: nat)
  {
    CutTo(p, q, level, {}) && count == PendingTotal(q) && NoHigher(p, limit, level)
  }

  /** `stands` is `StandsAt` as a value, so that loops can carry it without looking inside. */
  ghost predicate Tells(p: Pool, limit: nat, stands: (Pool, int, nat) -> bool)
  {
    forall q, count, level: nat {:trigger StandsAt(p, limit, q, count, level)} ::
      StandsAt(p, limit, q, count, level) <==> stands(q, count, level)
  }

  /** `leaders` all reach `level`; every other non-local list is at most `rest` long. */
  ghost predicate Leaders(p: Pool, leaders: seq<Address>, level: nat, rest: nat)
  {
    Distinct(leaders) && (forall a :: a in leaders ==> Reaches(p, a, level)) &&
    forall a :: a in p.pending && a !in p.locals && a !in leaders ==> |PendingOf(p, a)| <= rest
  }

  lemma LeadersOffend(p: Pool, leaders: seq<Address>, level: nat, rest: nat, t: nat)
    requires Leaders(p, leaders, level, rest) && rest < t <= level
    ensures Offending(p, leaders, t)
  {
  }

  lemma LenIs(p: Pool, q: Pool, a: Address, level: nat)
    requires IsCut(p, q, a, level, {}) && a in p.pending && a !in p.locals
    ensures |PendingOf(q, a)| == if |PendingOf(p, a)| <= level then |PendingOf(p, a)| else level
  {
  }

  lemma LeadersLen(p: Pool, q: Pool, leaders: seq<Address>, level: nat, rest: nat)
    requires CutTo(p, q, level, {}) && Leaders(p, leaders, level, rest)
    ensures forall a :: a in leaders ==> |PendingOf(q, a)| == level
  {
    forall a | a in leaders ensures |PendingOf(q, a)| == level {
      assert IsCut(p, q, a, level, {});
      LenIs(p, q, a, level);
    }
  }

  /** One round when the total is over the limit: one level lower, and no higher level would do. */
  method LowerOnce(ghost p: Pool, q: Pool, leaders: seq<Address>, ghost threshold: nat, ghost limit: nat, count: int,
                   ghost level: nat, ghost now: nat, ghost stands: (Pool, int, nat) -> bool)
    returns (r: Pool, left: int)
    requires Inv(p) && Tells(p, limit, stands) && Leaders(p, leaders, level, threshold) && threshold < now <= level
    requires stands(q, count, now) && count > limit
    ensures stands(r, left, now - 1) && forall a :: a in leaders ==> |PendingOf(r, a)| == now - 1
  {
    assert StandsAt(p, limit, q, count, now);
    LeadersOffend(p, leaders, level, threshold, now);
    OverTheLimit(p, q, limit, now);
    r, left := CapRound(p, q, leaders, count, now);
    assert StandsAt(p, limit, r, left, now - 1);
  }

  lemma OverTheLimit(p: Pool, q: Pool, limit: nat, level: nat)
    requires level > 0 && CutTo(p, q, level, {}) && PendingTotal(q) > limit
    ensures NoHigher(p, limit, level - 1)
  {
    CutLens(p, q, level);
  }

  /** Cuts the leaders, a round at a time, while the total is over the limit and they are longer than
      `threshold`. */
  method Equalize(ghost p: Pool, q: Pool, leaders: seq<Address>, threshold: nat, limit: nat, count: int,
                  ghost level: nat,
                  ghost stands: (Pool, int, nat) -> bool)
    returns (r: Pool, left: int, ghost now: nat)
    requires Inv(p) && Tells(p, limit, stands) && leaders != [] && Leaders(p, leaders, level, threshold)
    requires threshold <= level
    requires stands(q, count, level) && forall a :: a in leaders ==> |PendingOf(q, a)| == level
    ensures stands(r, left, now) && threshold <= now <= level
    ensures left > limit ==> now == threshold
  {
    r, left, now := q, count, level;
    var last := leaders[|leaders| - 1];
    while left > limit && |PendingOf(r, last)| > threshold
      invariant stands(r, left, now) && threshold <= now == |PendingOf(r, last)| <= level
      decreases now
    {
      r, left := LowerOnce(p, r, leaders, threshold, limit, left, level, now, stands);
      now := now - 1;
    }
  }

  /** The longest of some pending lists, as the priority queue hands it out. */
  method PopLongest(q: Pool, spammers: set<Address>) returns (x: Address)
    requires spammers != {} && spammers <= q.pending.Keys
    ensures x in spammers && forall a :: a in spammers ==> |PendingOf(q, a)| <= |PendingOf(q, x)|
  {
    NonEmpty(spammers);
    x :| x in spammers;
    var rest := spammers - {x};
    while rest != {}
      invariant rest <= spammers && x in spammers
      invariant forall a :: a in spammers && a !in rest ==> |PendingOf(q, a)| <= |PendingOf(q, x)|
    {
      NonEmpty(rest);
      var a :| a in rest;
      if |q.pending[a].items| > |q.pending[x].items| {
        x := a;
      }
      rest := rest - {a};
    }
  }

  /** Who has been cut so far: `spammers` are still untouched and no longer than `level`, and while the
      total is over the limit every offender still reaches `level`. */
  ghost predicate Ranking(p: Pool, slots: nat, over: bool, level: nat, offenders: seq<Address>, spammers: set<Address>)
  {
    Distinct(offenders) &&
    (forall a :: a in spammers ==>
       a in p.pending && a !in p.locals && slots < |PendingOf(p, a)| <= level && a !in offenders) &&
    (forall a :: a in p.pending && a !in p.locals && slots < |PendingOf(p, a)| ==> a in offenders || a in spammers) &&
    (over ==> forall a :: a in offenders ==> Reaches(p, a, level))
  }

  /** Where the first phase stands. */
  ghost predicate Evening(p: Pool, q: Pool, slots: nat, limit: nat, count: int, level: nat,
                          offenders: seq<Address>, spammers: set<Address>)
  {
    StandsAt(p, limit, q, count, level) && slots < level &&
    Ranking(p, slots, count > limit, level, offenders, spammers) &&
    (offenders == [] ==> AllWithin(Lens(p), p.locals, level))
  }

  ghost predicate Longest(p: Pool, spammers: set<Address>, x: Address)
  {
    x in spammers && forall a :: a in spammers ==> |PendingOf(p, a)| <= |PendingOf(p, x)|
  }

  /** The next spammer joins the offenders, who are cut down to its length. */
  method Join(ghost p: Pool, q: Pool, ghost slots: nat, limit: nat, count: int, ghost level: nat,
              offenders: seq<Address>, spammers: set<Address>, x: Address, ghost stands: (Pool, int, nat) -> bool)
    returns (r: Pool, left: int, ghost now: nat)
    requires Inv(p) && Tells(p, limit, stands) && Evening(p, q, slots, limit, count, level, offenders, spammers)
    requires count > limit
    requires Longest(p, spammers, x)
    ensures Evening(p, r, slots, limit, left, now, offenders + [x], spammers - {x})
  {
    r, left, now := q, count, level;
    if offenders == [] {
      now := |PendingOf(p, x)|;
      assert AllWithin(Lens(p), p.locals, now) ==> NoHigher(p, limit, now);
      FirstJoins(p, q, slots, level, spammers, x);
    } else {
      LenIs(p, q, x, level);
      var threshold := |q.pending[x].items|;
      OthersLead(p, slots, level, offenders, spammers, x);
      LeadersLen(p, q, offenders, level, threshold);
      r, left, now := Equalize(p, q, offenders, threshold, limit, count, level, stands);
      assert StandsAt(p, limit, r, left, now);
    }
    Joined(p, slots, level, offenders, spammers, x, left > limit, now);
  }

  lemma OthersLead(p: Pool, slots: nat, level: nat, offenders: seq<Address>, spammers: set<Address>, x: Address)
    requires Ranking(p, slots, true, level, offenders, spammers) && Longest(p, spammers, x)
    ensures Leaders(p, offenders, level, |PendingOf(p, x)|)
  {
  }

  lemma Joined(p: Pool, slots: nat, level: nat, offenders: seq<Address>, spammers: set<Address>, x: Address,
               over: bool, now: nat)
    requires Ranking(p, slots, true, level, offenders, spammers) && Longest(p, spammers, x)
    requires |PendingOf(p, x)| <= now <= level && (over ==> now == |PendingOf(p, x)|)
    ensures Ranking(p, slots, over, now, offenders + [x], spammers - {x})
  {
  }

  lemma FirstJoins(p: Pool, q: Pool, slots: nat, level: nat, spammers: set<Address>, x: Address)
    requires CutTo(p, q, level, {}) && AllWithin(Lens(p), p.locals, level) && x in spammers && x in p.pending
    requires slots < |PendingOf(p, x)| && forall a :: a in spammers ==> |PendingOf(p, a)| <= |PendingOf(p, x)|
    requires forall a :: a in p.pending && a !in p.locals && slots < |PendingOf(p, a)| ==> a in spammers
    ensures CutTo(p, q, |PendingOf(p, x)|, {}) && AllWithin(Lens(p), p.locals, |PendingOf(p, x)|)
  {
    forall a | a in Lens(p) && a !in p.locals ensures Lens(p)[a] <= |PendingOf(p, x)| {
      assert Lens(p)[a] == |PendingOf(p, a)|;
    }
    Relevel(p, q, level, |PendingOf(p, x)|);
  }

  // ---- the two phases ----

  /** The total of some list lengths. */
  method CountLens(lens: map<Address, nat>) returns (n: int)
    ensures n == MapSum(AsInts(lens))
  {
    n := 0;
    var rest := lens;
    while rest != map[]
      invariant n + MapSum(AsInts(rest)) == MapSum(AsInts(lens))
      decreases rest.Keys
    {
      NonEmpty(rest.Keys);
      var a :| a in rest;
      MapSumRemove(AsInts(rest), a);
      assert AsInts(rest) - {a} == AsInts(rest - {a});
      n, rest := n + rest[a], rest - {a};
    }
  }

  function Spammers(p: Pool, slots: nat): set<Address>
  {
    set a | a in p.pending && a !in p.locals && |p.pending[a].items| > slots
  }

  /** At a level above every list nothing is cut yet. */
  lemma Start(p: Pool, slots: nat, limit: nat, count: int) returns (level: nat)
    requires Inv(p) && count == PendingTotal(p)
    ensures Evening(p, p, slots, limit, count, level, [], Spammers(p, slots))
  {
    MapSumNonNegative(AsInts(Lens(p)));
    level := slots + 1 + PendingTotal(p);
    forall a | a in Lens(p) ensures Lens(p)[a] <= level {
      assert AsInts(Lens(p))[a] == Lens(p)[a];
    }
    forall a ensures IsCut(p, p, a, level, {}) {
      if a !in p.locals {
        assert a in p.pending ==> Lens(p)[a] <= level;
        TruncatedShort(AccountOf(p, a), level);
      }
    }
    assert forall a :: a in p.pending ==> Lens(p)[a] == |PendingOf(p, a)|;
  }

  /** The first phase: offenders are taken longest first and cut to the next one's length. */
  method EvenOut(p: Pool, slots: nat, limit: nat, count: int)
    returns (q: Pool, left: int, offenders: seq<Address>, ghost level: nat, ghost spammers: set<Address>)
    requires Inv(p) && count == PendingTotal(p)
    ensures Evening(p, q, slots, limit, left, level, offenders, spammers)
    ensures left > limit ==> spammers == {}
  {
    level := Start(p, slots, limit, count);
    var rest := Spammers(p, slots);
    q, left, offenders := p, count, [];
    while left > limit && rest != {}
      invariant Evening(p, q, slots, limit, left, level, offenders, rest)
      decreases rest
    {
      q, left, offenders, rest, level := NextOffender(p, q, slots, limit, left, level, offenders, rest);
    }
    spammers := rest;
  }

  method NextOffender(ghost p: Pool, q: Pool, ghost slots: nat, limit: nat, count: int, ghost level: nat,
                      offenders: seq<Address>, spammers: set<Address>)
    returns (r: Pool, left: int, more: seq<Address>, rest: set<Address>, ghost now: nat)
    requires Inv(p) && Evening(p, q, slots, limit, count, level, offenders, spammers) && count > limit && spammers != {}
    ensures Evening(p, r, slots, limit, left, now, more, rest) && rest < spammers
  {
    SpammerLens(p, q, slots, limit, count, level, offenders, spammers);
    var x := PopLongest(q, spammers);
    ghost var stands := (t: Pool, c: int, l: nat) => StandsAt(p, limit, t, c, l);
    r, left, now := Join(p, q, slots, limit, count, level, offenders, spammers, x, stands);
    more, rest := offenders + [x], spammers - {x};
  }

  /** Spammers have not been cut. */
  lemma SpammerLens(p: Pool, q: Pool, slots: nat, limit: nat, count: int, level: nat, offenders: seq<Address>,
                    spammers: set<Address>)
    requires Evening(p, q, slots, limit, count, level, offenders, spammers)
    ensures spammers <= q.pending.Keys && forall a :: a in spammers ==> |PendingOf(q, a)| == |PendingOf(p, a)|
  {
    forall a | a in spammers ensures |PendingOf(q, a)| == |PendingOf(p, a)| {
      assert IsCut(p, q, a, level, {});
      LenIs(p, q, a, level);
    }
  }

  /** The pending lists after the global limit: untouched if they fit, otherwise every non-local list
      is cut to its lowest nonces at the one fair level. */
  method TruncatePending(p: Pool, cfg: Config) returns (q: Pool, ghost level: nat)
    requires Inv(p)
    ensures PendingTotal(p) <= cfg.globalSlots ==> q == p
    ensures PendingTotal(p) > cfg.globalSlots ==>
              CutTo(p, q, level, {}) && IsFairLevel(Lens(p), p.locals, cfg.accountSlots, cfg.globalSlots, level)
    ensures Inv(q)
  {
    q, level := p, 0;
    var count := CountLens(Lens(p));
    if count > cfg.globalSlots {
      var offenders;
      ghost var spammers;
      q, count, offenders, level, spammers := EvenOut(p, cfg.accountSlots, cfg.globalSlots, count);
      if count > cfg.globalSlots && offenders != [] {
        q, level := CutToSlots(p, q, cfg, count, level, offenders);
      } else {
        Settled(p, q, cfg.accountSlots, cfg.globalSlots, count, level, offenders, spammers);
      }
    }
  }

  lemma Settled(p: Pool, q: Pool, slots: nat, limit: nat, count: int, level: nat, offenders: seq<Address>,
                spammers: set<Address>)
    requires Evening(p, q, slots, limit, count, level, offenders, spammers)
    requires count <= limit || (offenders == [] && spammers == {})
    ensures IsFairLevel(Lens(p), p.locals, slots, limit, level)
  {
    CutLens(p, q, level);
    if count > limit {
      forall a | a in Lens(p) && a !in p.locals ensures Lens(p)[a] <= slots {
        assert Lens(p)[a] == |PendingOf(p, a)|;
      }
    }
  }

  /** The second phase: all offenders down towards the guaranteed slots. */
  method CutToSlots(ghost p: Pool, q: Pool, cfg: Config, count: int, ghost level: nat, offenders: seq<Address>)
    returns (r: Pool, ghost now: nat)
    requires Inv(p) && Evening(p, q, cfg.accountSlots, cfg.globalSlots, count, level, offenders, {})
    requires count > cfg.globalSlots && offenders != []
    ensures CutTo(p, r, now, {}) && IsFairLevel(Lens(p), p.locals, cfg.accountSlots, cfg.globalSlots, now)
  {
    ghost var stands := (t: Pool, c: int, l: nat) => StandsAt(p, cfg.globalSlots, t, c, l);
    AllLead(p, q, cfg.accountSlots, cfg.globalSlots, count, level, offenders);
    var left;
    r, left, now := Equalize(p, q, offenders, cfg.accountSlots, cfg.globalSlots, count, level, stands);
    assert StandsAt(p, cfg.globalSlots, r, left, now);
    FairAfter(p, r, cfg.accountSlots, cfg.globalSlots, left, now);
  }

  lemma AllLead(p: Pool, q: Pool, slots: nat, limit: nat, count: int, level: nat, offenders: seq<Address>)
    requires Evening(p, q, slots, limit, count, level, offenders, {}) && count > limit
    ensures StandsAt(p, limit, q, count, level) && slots <= level && Leaders(p, offenders, level, slots)
    ensures forall a :: a in offenders ==> |PendingOf(q, a)| == level
  {
    LeadersLen(p, q, offenders, level, slots);
  }

  lemma FairAfter(p: Pool, r: Pool, slots: nat, limit: nat, left: int, now: nat)
    requires StandsAt(p, limit, r, left, now) && slots <= now && (left > limit ==> now == slots)
    ensures IsFairLevel(Lens(p), p.locals, slots, limit, now)
  {
    CutLens(p, r, now);
  }
}
