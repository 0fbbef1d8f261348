/** What a change of head means for one account when transactions of a discarded branch come back
    (core/tx_pool.go): reset offers them to the pool, promotes their senders, only then demotes and
    renumbers what is pending, and promotes once more. */
module PoolReorgs {
  import opened Transactions
  import opened NonceMaps
  import opened TxLists
  import opened PoolAccounts

  /** Where the pending run that starts at nonce `from` ends. */
  ghost function HighEnd(acc: Account, from: nat): nat
  {
    RunEnd(acc.pending, from)
  }

  /** An account after the head was replaced and before anything is promoted: what is pending still
      starts at the old state nonce `from`, and the next nonce is the new state nonce, unless a
      transaction below that was discarded to make room. */
  ghost predicate Reloaded(acc: Account, from: nat, f: Funds)
  {
    IsInterval(acc.pending, from, HighEnd(acc, from)) &&
    (acc.next == f.nonce || (acc.next < f.nonce && from < f.nonce && HighEnd(acc, from) <= acc.next))
  }

  lemma RunEndIs(m: NonceMap, lo: nat, hi: nat)
    requires lo <= hi && IsInterval(m, lo, hi)
    ensures RunEnd(m, lo) == hi
  {
    var e := RunEnd(m, lo);
    assert e < hi ==> e in m;
    assert hi < e ==> hi in m;
  }

  /** Replacing the head of an executable account. */
  lemma ReloadedFromExecutable(acc: Account, before: Funds, f: Funds)
    requires Executable(acc, before)
    ensures Reloaded(acc.(next := f.nonce), before.nonce, f)
  {
    RunEndIs(acc.pending, before.nonce, acc.next);
  }

  /** Removing any nonce keeps the pending run in place. */
  lemma RemovedIsReloaded(acc: Account, from: nat, f: Funds, nonce: nat)
    requires Reloaded(acc, from, f)
    ensures Reloaded(PoolAccounts.Removed(acc, nonce), from, f)
  {
    var r := PoolAccounts.Removed(acc, nonce);
    if nonce in acc.pending {
      RunEndIs(r.pending, from, nonce);
    }
  }

  lemma ReplacedIsReloaded(acc: Account, from: nat, f: Funds, tx: Tx)
    requires Reloaded(acc, from, f) && tx.nonce in acc.pending
    ensures Reloaded(acc.(pending := acc.pending[tx.nonce := tx]), from, f)
  {
    RunEndIs(acc.pending[tx.nonce := tx], from, HighEnd(acc, from));
  }

  // ---- two runs ----

  /** The nonces of `m` are those of [lo, mid) and of [from, hi). */
  ghost predicate TwoRuns(m: NonceMap, lo: nat, mid: nat, from: nat, hi: nat)
  {
    lo <= mid <= from <= hi && forall n: nat :: n in m <==> lo <= n < mid || from <= n < hi
  }

  /** The highest nonce of two runs, and what is left without it. */
  lemma TwoRunsLast(m: NonceMap, lo: nat, mid: nat, from: nat, hi: nat)
    requires TwoRuns(m, lo, mid, from, hi) && m != map[]
    ensures from < hi ==> Max(m.Keys) == hi - 1 && TwoRuns(m - {hi - 1}, lo, mid, from, hi - 1)
    ensures from == hi ==> lo < mid && Max(m.Keys) == mid - 1 && TwoRuns(m - {mid - 1}, lo, mid - 1, from, hi)
  {
    NonEmpty(m.Keys);
    if from < hi {
      MaxIs(m.Keys, hi - 1);
    } else {
      var n :| n in m;
      MaxIs(m.Keys, mid - 1);
    }
  }

  lemma {:induction false} TwoRunsSize(m: NonceMap, lo: nat, mid: nat, from: nat, hi: nat)
    requires TwoRuns(m, lo, mid, from, hi)
    ensures |m| == mid - lo + hi - from
    decreases m.Keys
  {
    if m == map[] {
      assert lo !in m && from !in m;
    } else {
      TwoRunsLast(m, lo, mid, from, hi);
      var last := Max(m.Keys);
      assert (m - {last}).Keys == m.Keys - {last};
      if from < hi {
        TwoRunsSize(m - {last}, lo, mid, from, hi - 1);
      } else {
        TwoRunsSize(m - {last}, lo, mid - 1, from, hi);
      }
    }
  }

  /** The lowest nonces of two runs are the first run and then the start of the second. */
  lemma {:induction false} LowestOfRuns(m: NonceMap, lo: nat, mid: nat, from: nat, hi: nat, k: nat)
    requires TwoRuns(m, lo, mid, from, hi)
    ensures var first := if lo + k < mid then lo + k else mid;
            var second := from + k - (first - lo);
            TwoRuns(Lowest(m, k), lo, first, from, if first < mid then from else if second < hi then second else hi)
    decreases m.Keys
  {
    TwoRunsSize(m, lo, mid, from, hi);
    if |m| > k {
      TwoRunsLast(m, lo, mid, from, hi);
      var last := Max(m.Keys);
      assert (m - {last}).Keys == m.Keys - {last};
      if from < hi {
        LowestOfRuns(m - {last}, lo, mid, from, hi - 1, k);
      } else {
        LowestOfRuns(m - {last}, lo, mid - 1, from, hi, k);
      }
    }
  }

  // ---- one account through a reset ----

  /** The pending limit where it applies. */
  ghost function Capped(acc: Account, level: Option<nat>): Account
  {
    if level.Some? then Truncated(acc, level.value) else acc
  }

  /** An account from the point where the discarded branch has been offered again: its turn in the
      promotion if it gained a nonce, the pending limit, and then demotion and renumbering. */
  ghost function Settled(acc: Account, f: Funds, gained: bool, limit: Option<nat>, level: Option<nat>): Account
  {
    Reindexed(Capped(if gained then Promoted(acc, f, limit) else acc, level), f)
  }

  /** Where the run of queued nonces from the state nonce ends that promotion moves below the pending ones. */
  ghost function MovedEnd(acc: Account, f: Funds, gained: bool): nat
  {
    if gained then RunEnd(Usable(acc, f), f.nonce) else f.nonce
  }

  /** Whether the account is executable once it is demoted and renumbered. If the state nonce went back to or
      below `from`, this fails when a run from the state nonce was moved in below older pending
      nonces, does not reach them, is not all that the limit leaves, and the first of them can be
      paid for. If it went past `from`, this fails when a nonce below it was discarded or cut
      before demotion could drop it. */
  ghost predicate StaysExecutable(acc: Account, from: nat, f: Funds, gained: bool, level: Option<nat>)
    requires IsInterval(acc.pending, from, HighEnd(acc, from))
  {
    var hi, moved := HighEnd(acc, from), MovedEnd(acc, f, gained);
    if f.nonce <= from then
      moved == f.nonce || moved >= from || from == hi || (level.Some? && level.value <= moved - f.nonce) ||
      !Payable(acc.pending[from], f.balance, f.maxGas)
    else
      acc.next == f.nonce && (level.Some? ==> from + level.value >= (if hi < f.nonce then hi else f.nonce))
  }

  /** Two pending runs with a gap between them: the first starts at the state nonce and the next nonce follows the
      second. */
  ghost predicate Gapped(acc: Account, f: Funds, mid: nat, from: nat)
  {
    f.nonce < mid < from < acc.next && TwoRuns(acc.pending, f.nonce, mid, from, acc.next)
  }

  /** Demotion and renumbering of two pending runs of which the first starts at the state nonce. */
  lemma ReindexedRuns(m: Account, f: Funds, mid: nat, from: nat, hi: nat)
    requires TwoRuns(m.pending, f.nonce, mid, from, hi) && (mid == f.nonce ==> m.next == f.nonce)
    requires forall n :: f.nonce <= n < mid ==> Payable(m.pending[n], f.balance, f.maxGas)
    ensures Executable(Reindexed(m, f), f) <==>
            mid == f.nonce || mid == from || from == hi || !Payable(m.pending[from], f.balance, f.maxGas)
    ensures Executable(Reindexed(m, f), f) || Gapped(Reindexed(m, f), f, mid, from)
  {
    var live := NotBelow(m.pending, f.nonce);
    assert live == m.pending;
    var kept := PayableItems(live, true, f.balance, f.maxGas);
    StrictFilterKeepsPrefix(live, f.balance, f.maxGas);
    if f.nonce in kept {
      KeptRuns(m, f, mid, from, hi, kept);
    }
  }

  /** An initial part of one run is a run. */
  lemma PrefixOfRun(m: NonceMap, kept: NonceMap, lo: nat, hi: nat)
    requires IsInterval(m, lo, hi) && kept.Keys <= m.Keys && kept != map[]
    requires forall a, b :: a in m && b in kept && a <= b ==> a in kept
    ensures IsInterval(kept, lo, Max(kept.Keys) + 1)
  {
    var top := Max(kept.Keys);
    assert IsMax(kept.Keys, top);
  }

  lemma KeptRuns(m: Account, f: Funds, mid: nat, from: nat, hi: nat, kept: NonceMap)
    requires TwoRuns(m.pending, f.nonce, mid, from, hi)
    requires forall n :: f.nonce <= n < mid ==> Payable(m.pending[n], f.balance, f.maxGas)
    requires kept == PayableItems(m.pending, true, f.balance, f.maxGas) && f.nonce in kept
    requires forall a, b :: a in m.pending && b in kept && a <= b ==> a in kept
    ensures IsInterval(kept, f.nonce, Max(kept.Keys) + 1) <==>
            mid == f.nonce || mid == from || from == hi || !Payable(m.pending[from], f.balance, f.maxGas)
    ensures mid == f.nonce || mid == from || from == hi || !Payable(m.pending[from], f.balance, f.maxGas) ||
            (from <= Max(kept.Keys) && TwoRuns(kept, f.nonce, mid, from, Max(kept.Keys) + 1))
  {
    assert mid == f.nonce ==> mid == from;
    if mid == from {
      PrefixOfRun(m.pending, kept, f.nonce, hi);
    } else if from == hi {
      PrefixOfRun(m.pending, kept, f.nonce, mid);
    } else if Payable(m.pending[from], f.balance, f.maxGas) {
      assert from in kept && mid !in kept;
      var top := Max(kept.Keys);
      assert IsMax(kept.Keys, top) && from <= top < hi;
    } else {
      assert IsInterval(Below(m.pending, from), f.nonce, mid);
      PrefixOfRun(Below(m.pending, from), kept, f.nonce, mid);
    }
  }

  /** Demotion and renumbering where what is live is one run from the state nonce. */
  lemma ReindexedLive(m: Account, f: Funds, end: nat)
    requires f.nonce <= end && IsInterval(NotBelow(m.pending, f.nonce), f.nonce, end)
    ensures Executable(Reindexed(m, f), f) <==>
            m.next == f.nonce || (f.nonce < end && Payable(NotBelow(m.pending, f.nonce)[f.nonce], f.balance, f.maxGas))
    ensures Executable(Reindexed(m, f), f) || Reindexed(m, f).next == m.next
  {
    var live := NotBelow(m.pending, f.nonce);
    var kept := PayableItems(live, true, f.balance, f.maxGas);
    StrictFilterKeepsPrefix(live, f.balance, f.maxGas);
    if kept != map[] {
      var top := Max(kept.Keys);
      assert IsMax(kept.Keys, top) && f.nonce in live && f.nonce <= top;
      assert f.nonce in kept;
      assert forall n: nat :: n in kept <==> f.nonce <= n < top + 1;
    } else if f.nonce < end {
      assert f.nonce in live && f.nonce !in kept;
    }
  }

  // ---- promotion from the state nonce ----

  /** Where nothing lies below `t`, the ready run is the run that starts at `t`. */
  lemma ReadyFrom(m: NonceMap, next: nat, t: nat)
    requires next <= t && forall n :: n in m ==> t <= n
    ensures next < t || t !in m ==> ReadyRun(m, next) == map[]
    ensures next == t && t in m ==> ReadyRun(m, next) == Below(m, RunEnd(m, t)) && Min(m.Keys) == t
    ensures IsInterval(Below(m, RunEnd(m, t)), t, RunEnd(m, t))
  {
    if t in m {
      MinIs(m.Keys, t);
    }
  }

  /** Promotion from the state nonce moves the run of usable nonces that starts there, and below it nothing. */
  lemma PromotedFrom(acc: Account, f: Funds, limit: Option<nat>, usable: NonceMap, end: nat)
    requires usable == Usable(acc, f) && end == RunEnd(usable, f.nonce) && acc.next <= f.nonce
    ensures var m := Promoted(acc, f, limit);
            if acc.next < f.nonce then m.pending == acc.pending && m.next == acc.next
            else m.pending == acc.pending + Below(usable, end) && m.next == end
    ensures IsInterval(Below(usable, end), f.nonce, end)
  {
    var run := ReadyRun(usable, acc.next);
    ReadyFrom(usable, acc.next, f.nonce);
    if acc.next < f.nonce || f.nonce !in usable {
      assert acc.pending + run == acc.pending;
      assert f.nonce !in usable ==> end == f.nonce && Below(usable, end) == map[];
    } else {
      assert f.nonce in run;
    }
  }

  /** The run that promotion moves, if the account has its turn. */
  ghost function MovedRun(acc: Account, f: Funds, gained: bool): NonceMap
  {
    if gained then Below(Usable(acc, f), RunEnd(Usable(acc, f), f.nonce)) else map[]
  }

  lemma MovedRunIs(acc: Account, a: Address, f: Funds, gained: bool, limit: Option<nat>, m: Account)
    requires Sound(acc, a) && acc.next == f.nonce && m == if gained then Promoted(acc, f, limit) else acc
    ensures var run, end := MovedRun(acc, f, gained), MovedEnd(acc, f, gained);
            IsInterval(run, f.nonce, end) && f.nonce <= end && acc.pending.Keys !! run.Keys &&
            m.pending == acc.pending + run && m.next == end
    ensures forall n :: n in MovedRun(acc, f, gained) ==> Payable(MovedRun(acc, f, gained)[n], f.balance, f.maxGas)
  {
    if gained {
      PromotedFrom(acc, f, limit, Usable(acc, f), MovedEnd(acc, f, gained));
    } else {
      assert acc.pending + map[] == acc.pending;
    }
  }

  // ---- the state nonce went back ----

  /** A run from `t` joins what is pending from `from` on. */
  lemma JoinBack(pending: NonceMap, run: NonceMap, t: nat, end: nat, from: nat, hi: nat)
    requires t <= from <= hi && t <= end && IsInterval(pending, from, hi) && IsInterval(run, t, end)
    requires pending.Keys !! run.Keys
    ensures from < hi ==> end <= from && TwoRuns(pending + run, t, end, from, hi)
    ensures from == hi ==> TwoRuns(pending + run, t, end, end, end)
  {
    if from < hi {
      assert from in pending && from !in run;
    }
  }

  /** The account after the pending limit still holds two runs. */
  lemma CappedRuns(m: Account, lo: nat, mid: nat, from: nat, hi: nat, level: nat, first: nat, second: nat)
    requires TwoRuns(m.pending, lo, mid, from, hi) && m.next == mid
    requires first == (if lo + level < mid then lo + level else mid)
    requires second == if first < mid then from else if from + level - (mid - lo) < hi then from + level - (mid - lo)
      else hi
    ensures TwoRuns(Truncated(m, level).pending, lo, first, from, second) && Truncated(m, level).next == first
  {
    LowestOfRuns(m.pending, lo, mid, from, hi, level);
    var kept := Lowest(m.pending, level);
    var gone := m.pending.Keys - kept.Keys;
    forall n | n in gone ensures first <= n {
      assert n in m.pending && n !in kept;
    }
    if first < mid {
      assert first in m.pending && first !in kept;
      MinIs(gone, first);
    }
  }

  /** The limit, demotion and renumbering of two runs of which the first starts at the state nonce. */
  lemma SettledRuns(m: Account, f: Funds, end: nat, from: nat, hi: nat, level: Option<nat>)
    requires TwoRuns(m.pending, f.nonce, end, from, hi) && m.next == end
    requires forall n :: f.nonce <= n < end ==> Payable(m.pending[n], f.balance, f.maxGas)
    ensures Executable(Reindexed(Capped(m, level), f), f) <==>
            end == f.nonce || end == from || from == hi || (level.Some? && level.value <= end - f.nonce) ||
            !Payable(m.pending[from], f.balance, f.maxGas)
    ensures var r := Reindexed(Capped(m, level), f); Executable(r, f) || Gapped(r, f, end, from)
  {
    if level.None? {
      ReindexedRuns(m, f, end, from, hi);
    } else {
      var k := level.value;
      var first := if f.nonce + k < end then f.nonce + k else end;
      var second := if first < end then from else if from + k - (end - f.nonce) < hi then from + k - (end - f.nonce)
        else hi;
      CappedRuns(m, f.nonce, end, from, hi, k, first, second);
      ReindexedRuns(Truncated(m, k), f, first, from, second);
    }
  }

  /** What is left to do once a run was moved in below what is pending. */
  lemma SettledBelow(m: Account, acc: Account, from: nat, f: Funds, level: Option<nat>, run: NonceMap, end: nat)
    requires Reloaded(acc, from, f) && f.nonce <= from && f.nonce <= end && IsInterval(run, f.nonce, end)
    requires acc.pending.Keys !! run.Keys && m.pending == acc.pending + run && m.next == end
    requires forall n :: n in run ==> Payable(run[n], f.balance, f.maxGas)
    ensures Executable(Reindexed(Capped(m, level), f), f) <==>
            end == f.nonce || end >= from || from == HighEnd(acc, from) ||
            (level.Some? && level.value <= end - f.nonce) ||
            !Payable(acc.pending[from], f.balance, f.maxGas)
    ensures var r := Reindexed(Capped(m, level), f); Executable(r, f) || Gapped(r, f, end, from)
  {
    var hi := HighEnd(acc, from);
    JoinBack(acc.pending, run, f.nonce, end, from, hi);
    RunOnTop(acc.pending, run, f.nonce, end, f.balance, f.maxGas);
    if from < hi {
      assert from in acc.pending && from !in run;
      SettledRuns(m, f, end, from, hi, level);
    } else {
      SettledRuns(m, f, end, end, end, level);
    }
  }

  lemma SettledBack(acc: Account, a: Address, from: nat, f: Funds, gained: bool, limit: Option<nat>, level: Option<nat>)
    requires Sound(acc, a) && Reloaded(acc, from, f) && f.nonce <= from
    ensures Executable(Settled(acc, f, gained, limit, level), f) <==> StaysExecutable(acc, from, f, gained, level)
    ensures var s := Settled(acc, f, gained, limit, level);
            Executable(s, f) || Gapped(s, f, MovedEnd(acc, f, gained), from)
  {
    var m := if gained then Promoted(acc, f, limit) else acc;
    MovedRunIs(acc, a, f, gained, limit, m);
    SettledBelow(m, acc, from, f, level, MovedRun(acc, f, gained), MovedEnd(acc, f, gained));
  }

  // ---- the state nonce went past the old one ----

  /** What is live of a run that starts below the state nonce, after the limit. */
  lemma SettledOne(m: Account, from: nat, hi: nat, f: Funds, level: Option<nat>)
    requires from < f.nonce < hi && IsInterval(m.pending, from, hi) && m.next == f.nonce
    ensures Executable(Reindexed(Capped(m, level), f), f) <==> level.None? || from + level.value >= f.nonce
    ensures var r := Reindexed(Capped(m, level), f); Executable(r, f) || r.next < f.nonce
  {
    if level.None? {
      ReindexedLive(m, f, hi);
    } else {
      var r := Truncated(m, level.value);
      LowestOfRuns(m.pending, from, hi, hi, hi, level.value);
      var end := if from + level.value < hi then from + level.value else hi;
      var gone := m.pending.Keys - r.pending.Keys;
      assert forall n :: n in gone ==> end <= n;
      if end < hi {
        assert end in m.pending && end !in r.pending;
        MinIs(gone, end);
      }
      ReindexedLive(r, f, if end < f.nonce then f.nonce else end);
    }
  }

  /** The same where the run ends below the state nonce and another one starts there. */
  lemma SettledTwo(m: Account, from: nat, hi: nat, f: Funds, level: Option<nat>)
    requires from < f.nonce <= m.next && TwoRuns(m.pending, from, hi, f.nonce, m.next)
    requires forall n :: f.nonce <= n < m.next ==> Payable(m.pending[n], f.balance, f.maxGas)
    ensures Executable(Reindexed(Capped(m, level), f), f) <==> level.None? || from + level.value >= hi
    ensures var r := Reindexed(Capped(m, level), f); Executable(r, f) || r.next < f.nonce
  {
    if level.None? {
      LiveOfTwo(m.pending, from, hi, f.nonce, m.next);
      ReindexedLive(m, f, m.next);
    } else {
      var k := level.value;
      var first := if from + k < hi then from + k else hi;
      var end := f.nonce + k - (hi - from);
      var second := if first < hi then f.nonce else if end < m.next then end else m.next;
      LowestOfRuns(m.pending, from, hi, f.nonce, m.next, k);
      CutStart(m, from, hi, f.nonce, Lowest(m.pending, k), first, second, m.pending.Keys - Lowest(m.pending, k).Keys);
      CutTwo(m, Truncated(m, k), from, hi, f, first, second);
    }
  }

  lemma CutTwo(m: Account, r: Account, from: nat, hi: nat, f: Funds, first: nat, second: nat)
    requires from < f.nonce <= second <= m.next && first <= hi <= f.nonce
    requires TwoRuns(r.pending, from, first, f.nonce, second)
    requires SubMap(r.pending, m.pending) && r.next == if first < hi then first else second
    requires (first < hi ==> second == f.nonce) && TwoRuns(m.pending, from, hi, f.nonce, m.next)
    requires forall n :: f.nonce <= n < m.next ==> Payable(m.pending[n], f.balance, f.maxGas)
    ensures Executable(Reindexed(r, f), f) <==> first == hi
    ensures Executable(Reindexed(r, f), f) || Reindexed(r, f).next < f.nonce
  {
    LiveOfTwo(r.pending, from, first, f.nonce, second);
    ReindexedLive(r, f, second);
    assert f.nonce < second ==> f.nonce in r.pending;
  }

  /** What is live of two runs is the one that starts at the state nonce. */
  lemma LiveOfTwo(m: NonceMap, from: nat, hi: nat, t: nat, end: nat)
    requires from <= hi <= t <= end && TwoRuns(m, from, hi, t, end)
    ensures IsInterval(NotBelow(m, t), t, end)
    ensures forall n :: n in NotBelow(m, t) ==> NotBelow(m, t)[n] == m[n]
  {
  }

  /** The lowest nonce that a limit cuts off. */
  lemma CutStart(m: Account, from: nat, hi: nat, lo: nat, kept: NonceMap, first: nat, second: nat, gone: set<nat>)
    requires from <= first <= hi <= lo <= second <= m.next && (first < hi ==> second == lo)
    requires TwoRuns(m.pending, from, hi, lo, m.next) && TwoRuns(kept, from, first, lo, second)
    requires gone == m.pending.Keys - kept.Keys
    ensures NextWithout(m.next, gone) == if first < hi then first else second
  {
    var cut := if first < hi then first else second;
    assert forall n :: n in gone <==> n in m.pending && n !in kept;
    if cut < m.next {
      assert cut in gone;
      MinIs(gone, cut);
    } else {
      assert forall n :: n !in gone;
    }
  }

  /** A run from `t` joins what is pending from below `t`. */
  lemma JoinPast(pending: NonceMap, run: NonceMap, from: nat, hi: nat, t: nat, end: nat)
    requires from < t <= end && from <= hi && IsInterval(pending, from, hi) && IsInterval(run, t, end)
    requires pending.Keys !! run.Keys
    ensures hi <= t ==> TwoRuns(pending + run, from, hi, t, end)
    ensures t < hi ==> end == t && pending + run == pending
  {
    if t < hi {
      assert t in pending && t !in run;
      assert run == map[];
    }
  }

  /** A payable run that is put over a map is payable there. */
  lemma RunOnTop(pending: NonceMap, run: NonceMap, lo: nat, hi: nat, costLimit: nat, gasLimit: nat)
    requires IsInterval(run, lo, hi) && forall n :: n in run ==> Payable(run[n], costLimit, gasLimit)
    ensures forall n :: lo <= n < hi ==> n in pending + run && Payable((pending + run)[n], costLimit, gasLimit)
  {
    forall n | lo <= n < hi ensures n in pending + run && Payable((pending + run)[n], costLimit, gasLimit) {
      assert n in run;
    }
  }

  /** What is left to do once an account has had its turn, if it gained a nonce. */
  lemma SettledJoined(m: Account, acc: Account, from: nat, f: Funds, level: Option<nat>, run: NonceMap, end: nat)
    requires Reloaded(acc, from, f) && from < f.nonce <= end && IsInterval(run, f.nonce, end)
    requires acc.pending.Keys !! run.Keys
    requires forall n :: n in run ==> Payable(run[n], f.balance, f.maxGas)
    requires acc.next == f.nonce && m.pending == acc.pending + run && m.next == end
    ensures Executable(Reindexed(Capped(m, level), f), f) <==>
            (level.Some? ==> from + level.value >= if HighEnd(acc, from) < f.nonce then HighEnd(acc, from) else f.nonce)
    ensures var r := Reindexed(Capped(m, level), f); Executable(r, f) || r.next < f.nonce
  {
    var hi := HighEnd(acc, from);
    JoinPast(acc.pending, run, from, hi, f.nonce, end);
    if f.nonce < hi {
      SettledOne(m, from, hi, f, level);
    } else {
      RunOnTop(acc.pending, run, f.nonce, end, f.balance, f.maxGas);
      SettledTwo(m, from, hi, f, level);
    }
  }

  lemma LatePromoted(acc: Account, from: nat, f: Funds, gained: bool, limit: Option<nat>, level: Option<nat>,
                     m: Account)
    requires Reloaded(acc, from, f) && acc.next < f.nonce && m == if gained then Promoted(acc, f, limit) else acc
    ensures Reindexed(Capped(m, level), f).next < f.nonce
  {
    PromotedFrom(acc, f, limit, Usable(acc, f), RunEnd(Usable(acc, f), f.nonce));
    LateNext(m, from, HighEnd(acc, from), f, level);
  }

  lemma SettledPast(acc: Account, a: Address, from: nat, f: Funds, gained: bool, limit: Option<nat>, level: Option<nat>)
    requires Sound(acc, a) && Reloaded(acc, from, f) && from < f.nonce
    ensures Executable(Settled(acc, f, gained, limit, level), f) <==> StaysExecutable(acc, from, f, gained, level)
    ensures var s := Settled(acc, f, gained, limit, level); Executable(s, f) || s.next < f.nonce
  {
    var m := if gained then Promoted(acc, f, limit) else acc;
    if acc.next < f.nonce {
      LatePromoted(acc, from, f, gained, limit, level, m);
    } else {
      MovedRunIs(acc, a, f, gained, limit, m);
      SettledJoined(m, acc, from, f, level, MovedRun(acc, f, gained), MovedEnd(acc, f, gained));
    }
  }

  /** A next nonce below the state nonce stays there when nothing live is pending. */
  lemma LateNext(m: Account, from: nat, hi: nat, f: Funds, level: Option<nat>)
    requires IsInterval(m.pending, from, hi) && hi <= m.next < f.nonce
    ensures Reindexed(Capped(m, level), f).next < f.nonce
  {
    var r := Capped(m, level);
    assert r.pending.Keys <= m.pending.Keys && r.next <= m.next;
    ReindexedLive(r, f, f.nonce);
  }

  /** Exactly when an account is executable once it is demoted and renumbered. */
  lemma SettledIsExecutable(acc: Account, a: Address, from: nat, f: Funds, gained: bool, limit: Option<nat>,
                            level: Option<nat>)
    requires Sound(acc, a) && Reloaded(acc, from, f)
    ensures Executable(Settled(acc, f, gained, limit, level), f) <==> StaysExecutable(acc, from, f, gained, level)
  {
    if f.nonce <= from {
      SettledBack(acc, a, from, f, gained, limit, level);
    } else {
      SettledPast(acc, a, from, f, gained, limit, level);
    }
  }

  lemma SettledIsSound(acc: Account, a: Address, f: Funds, gained: bool, limit: Option<nat>, level: Option<nat>)
    requires Sound(acc, a)
    ensures Sound(Settled(acc, f, gained, limit, level), a)
  {
    PromotedIsSound(acc, a, f, limit);
    var m := if gained then Promoted(acc, f, limit) else acc;
    if level.Some? {
      TruncatedIsSound(m, a, level.value);
    }
    DemotedIsSound(Capped(m, level), a, f);
  }

  // ---- the promotion at the end ----

  lemma {:induction false} SizeAtLeast(m: NonceMap, lo: nat, hi: nat)
    requires lo <= hi && forall n :: lo <= n < hi ==> n in m
    ensures |m| >= hi - lo
    decreases hi
  {
    if lo < hi {
      SizeAtLeast(m - {hi - 1}, lo, hi - 1);
      assert |m - {hi - 1}| == |m| - 1;
    }
  }

  /** Everything from the state nonce to `mid` is pending and something above, but `mid` is not. */
  ghost predicate Holed(acc: Account, f: Funds, mid: nat)
  {
    f.nonce < mid < acc.next && mid !in acc.pending && (forall n :: f.nonce <= n < mid ==> n in acc.pending) &&
    (forall n :: n in acc.pending ==> f.nonce <= n) && exists n :: n in acc.pending && mid < n < acc.next
  }

  /** A run above `mid` joins two pending runs. */
  lemma JoinAbove(pending: NonceMap, run: NonceMap, lo: nat, mid: nat, from: nat, hi: nat)
    requires TwoRuns(pending, lo, mid, from, hi) && mid < from && forall n :: n in run ==> mid < n
    ensures forall n :: lo <= n < mid ==> n in pending + run
    ensures mid !in pending + run && forall n :: n in pending + run ==> lo <= n
  {
  }

  /** Whatever is usable lies above the gap's first nonce. */
  lemma UsableAbove(r: Account, a: Address, f: Funds, mid: nat, from: nat)
    requires Sound(r, a) && Gapped(r, f, mid, from) && mid !in r.queue
    ensures forall n :: n in Usable(r, f) ==> mid < n
  {
    forall n | n in Usable(r, f) ensures mid < n {
      assert n in r.queue && f.nonce <= n && n !in r.pending;
    }
  }

  /** Promotion moves nothing into the hole: what is ready lies above it. */
  lemma PromotedHoled(r: Account, a: Address, f: Funds, limit: Option<nat>, mid: nat, from: nat)
    requires Sound(r, a) && Gapped(r, f, mid, from) && mid !in r.queue
    ensures Holed(Promoted(r, f, limit), f, mid)
  {
    UsableAbove(r, a, f, mid, from);
    HoledBy(r, f, mid, from, Promoted(r, f, limit), Usable(r, f));
  }

  lemma HoledBy(r: Account, f: Funds, mid: nat, from: nat, m: Account, usable: NonceMap)
    requires Gapped(r, f, mid, from) && forall n :: n in usable ==> mid < n
    requires m.pending == r.pending + ReadyRun(usable, r.next)
    requires m.next == if ReadyRun(usable, r.next) == map[] then r.next else RunEnd(usable, Min(usable.Keys))
    ensures Holed(m, f, mid)
  {
    var run := ReadyRun(usable, r.next);
    ReadyRunIsPart(usable, r.next);
    JoinAbove(r.pending, run, f.nonce, mid, from, r.next);
    if run == map[] {
      assert from in m.pending;
    } else {
      var least := Min(usable.Keys);
      assert least in usable && least in run;
      assert least in m.pending && mid < least < m.next;
    }
  }

  /** The hole is cut away exactly if the limit takes something from below it. */
  lemma CappedHoled(m: Account, f: Funds, mid: nat, level: Option<nat>)
    requires Holed(m, f, mid)
    ensures Executable(Capped(m, level), f) <==> level.Some? && level.value < mid - f.nonce
  {
    if level.Some? {
      var kept := Lowest(m.pending, level.value);
      var gone := m.pending.Keys - kept.Keys;
      SizeAtLeast(m.pending, f.nonce, mid);
      if level.value < mid - f.nonce {
        CutBelow(m, f, mid, level.value, kept, gone);
      } else {
        NotCutBelow(m, f, mid, level.value, kept, gone);
      }
    }
  }

  lemma CutBelow(m: Account, f: Funds, mid: nat, level: nat, kept: NonceMap, gone: set<nat>)
    requires Holed(m, f, mid) && kept == Lowest(m.pending, level) && gone == m.pending.Keys - kept.Keys
    requires level < mid - f.nonce <= |m.pending|
    ensures Executable(Truncated(m, level), f)
  {
    if forall n :: f.nonce <= n < mid ==> n in kept {
      SizeAtLeast(kept, f.nonce, mid);
    }
    var n :| f.nonce <= n < mid && n !in kept;
    assert n in gone;
    var cut := Min(gone);
    assert IsMin(gone, cut) && cut <= n;
    assert forall k :: k in gone <==> k in m.pending && k !in kept;
    assert IsInterval(kept, f.nonce, cut);
  }

  lemma NotCutBelow(m: Account, f: Funds, mid: nat, level: nat, kept: NonceMap, gone: set<nat>)
    requires Holed(m, f, mid) && kept == Lowest(m.pending, level) && gone == m.pending.Keys - kept.Keys
    requires mid - f.nonce <= level
    ensures !Executable(Truncated(m, level), f)
  {
    var r := Truncated(m, level);
    if Executable(r, f) {
      assert r.next <= mid;
      assert gone != {} && r.next == Min(gone);
      assert IsMin(gone, r.next) && r.next in m.pending && r.next < mid;
      assert |kept| == level;
      TwoRunsSize(kept, f.nonce, r.next, r.next, r.next);
    }
  }

  /** What the promotion at the end and its limit make of an account. */
  ghost function Ended(acc: Account, f: Funds, limit: Option<nat>, level: Option<nat>): Account
  {
    Capped(Promoted(acc, f, limit), level)
  }

  /** A gap is closed exactly if the last limit takes something from below it. */
  lemma EndedGap(r: Account, a: Address, f: Funds, mid: nat, from: nat, limit: Option<nat>, level: Option<nat>)
    requires Sound(r, a) && Gapped(r, f, mid, from) && mid !in r.queue
    ensures Executable(Ended(r, f, limit, level), f) <==> level.Some? && level.value < mid - f.nonce
  {
    PromotedHoled(r, a, f, limit, mid, from);
    CappedHoled(Promoted(r, f, limit), f, mid, level);
  }

  /** A next nonce below the state nonce stays there. */
  lemma EndedLate(r: Account, f: Funds, limit: Option<nat>, level: Option<nat>)
    requires r.next < f.nonce
    ensures !Executable(Ended(r, f, limit, level), f)
  {
    PromotedFrom(r, f, limit, Usable(r, f), RunEnd(Usable(r, f), f.nonce));
  }

  lemma EndedExecutable(r: Account, a: Address, f: Funds, limit: Option<nat>, level: Option<nat>)
    requires Sound(r, a) && Executable(r, f)
    ensures Executable(Ended(r, f, limit, level), f)
  {
    PromotedIsExecutable(r, a, f, limit);
    if level.Some? {
      TruncatedIsExecutable(Promoted(r, f, limit), f, level.value);
    }
  }

  /** Demotion queues nothing but what was pending. */
  lemma ReindexedQueue(m: Account, f: Funds, n: nat)
    requires n !in m.pending && n !in m.queue
    ensures n !in Reindexed(m, f).queue
  {
    assert n !in NotBelow(m.pending, f.nonce);
  }

  /** The nonce at which the moved run ended is not queued when the reset comes to its end. */
  lemma EndIsMissing(acc: Account, f: Funds, limit: Option<nat>, level: Option<nat>, mid: nat)
    requires mid == MovedEnd(acc, f, true) && mid !in acc.pending
    ensures mid !in Settled(acc, f, true, limit, level).queue
  {
    var usable, m := Usable(acc, f), Promoted(acc, f, limit);
    PromotedLacks(acc, f, limit, usable, mid);
    assert mid !in Capped(m, level).pending;
    ReindexedQueue(Capped(m, level), f, mid);
  }

  lemma PromotedLacks(acc: Account, f: Funds, limit: Option<nat>, usable: NonceMap, n: nat)
    requires usable == Usable(acc, f) && n !in usable && n !in acc.pending
    ensures n !in Promoted(acc, f, limit).pending && n !in Promoted(acc, f, limit).queue
  {
    ReadyRunIsPart(usable, acc.next);
  }

  /** Whether the account is executable when the reset is through: it was so before the last promotion, or
      the last pending limit takes something from below its gap. */
  ghost predicate EndsExecutable(acc: Account, from: nat, f: Funds, gained: bool, level: Option<nat>, last: Option<nat>)
    requires IsInterval(acc.pending, from, HighEnd(acc, from))
  {
    StaysExecutable(acc, from, f, gained, level) ||
    (f.nonce <= from && last.Some? && last.value < MovedEnd(acc, f, gained) - f.nonce)
  }

  /** `r` is `s`, but for what the queue limit may have dropped in between. */
  ghost predicate SameButQueue(r: Account, s: Account)
  {
    r.pending == s.pending && r.next == s.next && r.queue.Keys <= s.queue.Keys
  }

  /** Exactly when a reset leaves an account executable, from what can be seen of it before anything is
      promoted, demoted or renumbered, and from how far the two pending limits cut. */
  lemma ResetIsExecutable(acc: Account, a: Address, from: nat, f: Funds, gained: bool, limit: Option<nat>,
                          level: Option<nat>, r: Account, limit2: Option<nat>, last: Option<nat>)
    requires Sound(acc, a) && Reloaded(acc, from, f)
    requires Sound(r, a) && SameButQueue(r, Settled(acc, f, gained, limit, level))
    ensures Executable(Ended(r, f, limit2, last), f) <==> EndsExecutable(acc, from, f, gained, level, last)
  {
    SettledIsExecutable(acc, a, from, f, gained, limit, level);
    if Executable(r, f) {
      EndedExecutable(r, a, f, limit2, last);
    } else if from < f.nonce {
      SettledPast(acc, a, from, f, gained, limit, level);
      EndedLate(r, f, limit2, last);
    } else {
      SettledBack(acc, a, from, f, gained, limit, level);
      EndIsMissing(acc, f, limit, level, MovedEnd(acc, f, gained));
      EndedGap(r, a, f, MovedEnd(acc, f, gained), from, limit2, last);
    }
  }

  /** An executable account with nonce 5 pending; the head goes back to nonce 3 and only nonce 3 is
      reinjected. Nonce 3 is promoted below nonce 5, nonce 4 is missing, and nothing demotes nonce 5. */
  lemma ReinjectionLeavesGap(sender: Address, x: Tx, y: Tx)
    requires x.nonce == 3 && y.nonce == 5 && x.from == y.from == sender
    ensures var before, f := Funds(5, 0, 0), Funds(3, x.cost + y.cost, x.gas + y.gas);
            var acc := Account(map[5 := y], map[], 6);
            var reinjected := Account(acc.pending, acc.queue[3 := x], f.nonce);
            Executable(acc, before) && Sound(reinjected, sender) &&
            !Executable(Ended(Settled(reinjected, f, true, None, None), f, None, None), f)
  {
    var f := Funds(3, x.cost + y.cost, x.gas + y.gas);
    var acc := Account(map[5 := y], map[3 := x], 3);
    RunEndIs(acc.pending, 5, 6);
    var usable := Usable(acc, f);
    assert usable == map[3 := x];
    RunEndIs(usable, 3, 4);
    SettledIsSound(acc, sender, f, true, None, None);
    ResetIsExecutable(acc, sender, 5, f, true, None, None, Settled(acc, f, true, None, None), None, None);
  }
}
