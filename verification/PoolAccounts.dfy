/** What each pool operation means for a single account: its executable transactions, its queued
    ones and the nonce the pool expects next. */
module PoolAccounts {
  import opened Transactions
  import opened NonceMaps
  import opened TxLists

  datatype Account = Account(pending: NonceMap, queue: NonceMap, next: nat)

  /** The state of an account at the chain head. */
  datatype Funds = Funds(nonce: nat, balance: nat, maxGas: nat)

  /** Transactions are filed by nonce under their sender, and no nonce is both pending and queued. */
  ghost predicate Sound(acc: Account, a: Address)
  {
    Keyed(acc.pending) && Keyed(acc.queue) && acc.pending.Keys !! acc.queue.Keys &&
    (forall n :: n in acc.pending ==> acc.pending[n].from == a) &&
    (forall n :: n in acc.queue ==> acc.queue[n].from == a)
  }

  /** The pending nonces are exactly those from the account's state nonce up to the next one. */
  ghost predicate Executable(acc: Account, f: Funds)
  {
    f.nonce <= acc.next && IsInterval(acc.pending, f.nonce, acc.next)
  }

  ghost predicate Holds(acc: Account, x: Tx)
  {
    (x.nonce in acc.pending && acc.pending[x.nonce] == x) || (x.nonce in acc.queue && acc.queue[x.nonce] == x)
  }

  ghost predicate HoldsNoMore(r: Account, acc: Account)
  {
    forall x :: Holds(r, x) ==> Holds(acc, x)
  }

  ghost predicate SubMap(a: NonceMap, b: NonceMap)
  {
    forall n :: n in a ==> n in b && a[n] == b[n]
  }

  /** Moving part of the queue to the pending list and dropping another part. */
  lemma Moved(acc: Account, a: Address, run: NonceMap, rest: NonceMap, next: nat)
    requires Sound(acc, a) && SubMap(run, acc.queue) && SubMap(rest, acc.queue) && run.Keys !! rest.Keys
    ensures Sound(Account(acc.pending + run, rest, next), a)
    ensures HoldsNoMore(Account(acc.pending + run, rest, next), acc)
  {
  }

  // ---- promotion ----

  /** The queued transactions that can still be included and paid for. */
  ghost function Usable(acc: Account, f: Funds): NonceMap
  {
    PayableItems(NotBelow(acc.queue, f.nonce), false, f.balance, f.maxGas)
  }

  ghost function Promoted(acc: Account, f: Funds, limit: Option<nat>): Account
  {
    var usable := Usable(acc, f);
    var run := ReadyRun(usable, acc.next);
    var rest := usable - run.Keys;
    Account(acc.pending + run,
            if limit.Some? then Lowest(rest, limit.value) else rest,
            if run == map[] then acc.next else RunEnd(usable, Min(usable.Keys)))
  }

  lemma PromotedNothing(acc: Account, f: Funds, limit: Option<nat>)
    requires acc.queue == map[]
    ensures Promoted(acc, f, limit) == acc
  {
    var usable := Usable(acc, f);
    assert usable == map[];
    assert acc.pending + usable == acc.pending && usable - usable.Keys == map[];
  }

  lemma ReadyRunIsPart(m: NonceMap, start: nat)
    ensures SubMap(ReadyRun(m, start), m)
  {
  }

  lemma PromotedIsSound(acc: Account, a: Address, f: Funds, limit: Option<nat>)
    requires Sound(acc, a)
    ensures Sound(Promoted(acc, f, limit), a) && HoldsNoMore(Promoted(acc, f, limit), acc)
  {
    var usable := Usable(acc, f);
    var run := ReadyRun(usable, acc.next);
    var r := Promoted(acc, f, limit);
    ReadyRunIsPart(usable, acc.next);
    assert SubMap(r.queue, usable - run.Keys);
    assert SubMap(usable, acc.queue);
    Moved(acc, a, run, r.queue, r.next);
  }

  /** When nothing lies below `next`, a non-empty ready run is the interval from `next` to its end. */
  lemma RunFrom(m: NonceMap, next: nat)
    requires forall n :: n in m ==> next <= n
    ensures ReadyRun(m, next) != map[] ==>
              Min(m.Keys) == next && IsInterval(ReadyRun(m, next), next, RunEnd(m, next))
  {
    if ReadyRun(m, next) != map[] {
      MinIs(m.Keys, next);
    }
  }

  /** Promotion extends the interval of executable nonces: the run it moves starts exactly at the
      next expected nonce. */
  lemma PromotedIsExecutable(acc: Account, a: Address, f: Funds, limit: Option<nat>)
    requires Sound(acc, a) && Executable(acc, f)
    ensures Executable(Promoted(acc, f, limit), f)
    ensures acc.next <= Promoted(acc, f, limit).next
  {
    var usable := Usable(acc, f);
    assert forall n :: n in usable ==> n in acc.queue && f.nonce <= n;
    RunFrom(usable, acc.next);
  }

  /** After promotion nothing that is queued could be executed next or is below the state nonce or too dear, and
      the queue is within its limit. */
  lemma PromotedIsClean(acc: Account, f: Funds, limit: Option<nat>)
    ensures var r := Promoted(acc, f, limit);
            forall n :: n in r.queue ==> r.next < n && f.nonce <= n && Payable(r.queue[n], f.balance, f.maxGas)
    ensures limit.Some? ==> |Promoted(acc, f, limit).queue| <= limit.value
  {
    var usable := Usable(acc, f);
    var run := ReadyRun(usable, acc.next);
    RestIsAbove(usable, acc.next, run);
  }

  /** What is not ready lies above the next nonce. */
  lemma RestIsAbove(m: NonceMap, next: nat, run: NonceMap)
    requires run == ReadyRun(m, next)
    ensures forall n :: n in m && n !in run ==> (if run == map[] then next else RunEnd(m, Min(m.Keys))) < n
  {
    if run != map[] {
      var end := RunEnd(m, Min(m.Keys));
      forall n | n in m && n !in run ensures end < n {
        assert n != end;
      }
    } else if m != map[] {
      NonEmpty(m.Keys);
      var least := Min(m.Keys);
      assert least in run || next < least;
    }
  }

  /** Whatever is queued and can be included and paid for is pending afterwards, or still queued, or beyond the
      limit. */
  lemma PromotedKeeps(acc: Account, f: Funds, limit: Option<nat>, n: nat)
    requires n in acc.queue && f.nonce <= n && Payable(acc.queue[n], f.balance, f.maxGas)
    ensures var r := Promoted(acc, f, limit);
            (n in r.pending && r.pending[n] == acc.queue[n]) || (n in r.queue && r.queue[n] == acc.queue[n]) ||
            (limit.Some? && |r.queue| == limit.value && forall k :: k in r.queue ==> k < n)
  {
    var usable := Usable(acc, f);
    var run := ReadyRun(usable, acc.next);
    assert n in usable && usable[n] == acc.queue[n];
    if n in run {
      assert (acc.pending + run)[n] == run[n] == usable[n];
    } else {
      assert n in usable - run.Keys;
    }
  }

  /** The transaction at the next nonce of an executable account is promoted if it can be paid for. */
  lemma NextIsPromoted(acc: Account, a: Address, f: Funds, limit: Option<nat>)
    requires Sound(acc, a) && Executable(acc, f) && acc.next in acc.queue
    requires Payable(acc.queue[acc.next], f.balance, f.maxGas)
    ensures var r := Promoted(acc, f, limit); acc.next in r.pending && r.pending[acc.next] == acc.queue[acc.next]
  {
    var usable := Usable(acc, f);
    assert acc.next in usable && usable[acc.next] == acc.queue[acc.next];
    assert forall n :: n in usable ==> acc.next <= n;
    MinIs(usable.Keys, acc.next);
    assert acc.next in ReadyRun(usable, acc.next);
  }

  // ---- removal ----

  /** Removal by nonce. Cutting the pending list sends what was above the cut back to the queue,
      unless nothing is left of it: then the rest is forgotten. */
  ghost function Removed(acc: Account, nonce: nat): Account
  {
    if nonce in acc.pending then
      var kept := Below(acc.pending, nonce);
      var above := NotBelow(acc.pending, nonce + 1);
      Account(kept, if kept == map[] then acc.queue else acc.queue + above,
              if acc.next > nonce then nonce else acc.next)
    else
      Account(acc.pending, acc.queue - {nonce}, acc.next)
  }

  lemma RemovedIsExecutable(acc: Account, f: Funds, nonce: nat)
    requires Executable(acc, f)
    ensures Executable(Removed(acc, nonce), f)
  {
  }

  /** Removing `tx` takes more than `tx` off the lists: it is the lowest pending nonce and others are
      pending above it, or its nonce is listed with another transaction. */
  ghost predicate LosesOthers(acc: Account, tx: Tx)
  {
    LosesAbove(acc, tx.nonce) ||
    (tx.nonce in acc.pending && acc.pending[tx.nonce] != tx) || (tx.nonce in acc.queue && acc.queue[tx.nonce] != tx)
  }

  ghost predicate LosesAbove(acc: Account, nonce: nat)
  {
    IsMin(acc.pending.Keys, nonce) && exists n :: n in acc.pending && n != nonce
  }

  /** Exactly when removal takes another transaction off the lists. */
  lemma RemovedForgets(acc: Account, a: Address, tx: Tx)
    requires Sound(acc, a)
    ensures (exists x :: x != tx && Holds(acc, x) && !Holds(Removed(acc, tx.nonce), x)) <==> LosesOthers(acc, tx)
  {
    var r := Removed(acc, tx.nonce);
    if LosesAbove(acc, tx.nonce) {
      var n :| n in acc.pending && n != tx.nonce;
      assert r.pending == map[];
      assert Holds(acc, acc.pending[n]) && !Holds(r, acc.pending[n]);
    } else if tx.nonce in acc.pending && acc.pending[tx.nonce] != tx {
      assert Holds(acc, acc.pending[tx.nonce]) && !Holds(r, acc.pending[tx.nonce]);
    } else if tx.nonce in acc.queue && acc.queue[tx.nonce] != tx {
      assert Holds(acc, acc.queue[tx.nonce]) && !Holds(r, acc.queue[tx.nonce]);
    } else {
      forall x | Holds(acc, x) && x != tx ensures Holds(r, x) {
        assert x.nonce != tx.nonce;
        if tx.nonce in acc.pending && x.nonce in acc.pending && x.nonce > tx.nonce {
          var k :| k in acc.pending && k < tx.nonce;
          assert k in r.pending;
        }
      }
    }
  }

  // ---- demotion after a new head ----

  /** Mined nonces go, then everything from the first unpayable nonce on; what could still be paid
      is queued again, and a list that no longer starts at the state nonce is queued as a whole. */
  ghost function Demoted(acc: Account, f: Funds): Account
  {
    var live := NotBelow(acc.pending, f.nonce);
    var payable := PayableItems(live, false, f.balance, f.maxGas);
    var kept := PayableItems(live, true, f.balance, f.maxGas);
    var queue := acc.queue + (payable - kept.Keys);
    if kept != map[] && f.nonce !in kept then Account(map[], queue + kept, acc.next)
    else Account(kept, queue, acc.next)
  }

  lemma DemotedIsSound(acc: Account, a: Address, f: Funds)
    requires Sound(acc, a)
    ensures Sound(Demoted(acc, f), a) && HoldsNoMore(Demoted(acc, f), acc)
  {
    var live := NotBelow(acc.pending, f.nonce);
    var payable := PayableItems(live, false, f.balance, f.maxGas);
    var kept := PayableItems(live, true, f.balance, f.maxGas);
    var queue := acc.queue + (payable - kept.Keys);
    Refiled(acc, a, kept, payable - kept.Keys, acc.next);
    if kept != map[] && f.nonce !in kept {
      Refiled(Account(kept, queue, acc.next), a, map[], kept, acc.next);
    }
  }

  /** After demotion what is pending can be included and paid for and starts at the state nonce. */
  lemma DemotedIsClean(acc: Account, f: Funds)
    ensures var r := Demoted(acc, f);
            (forall n :: n in r.pending ==> f.nonce <= n && Payable(r.pending[n], f.balance, f.maxGas)) &&
            (r.pending != map[] ==> f.nonce in r.pending)
  {
  }

  /** Whatever is pending and can be included and paid for stays pending or is queued again. */
  lemma DemotedKeeps(acc: Account, f: Funds, n: nat)
    requires n in acc.pending && f.nonce <= n && Payable(acc.pending[n], f.balance, f.maxGas)
    ensures var r := Demoted(acc, f);
            (n in r.pending && r.pending[n] == acc.pending[n]) || (n in r.queue && r.queue[n] == acc.pending[n])
  {
    var live := NotBelow(acc.pending, f.nonce);
    var payable := PayableItems(live, false, f.balance, f.maxGas);
    var kept := PayableItems(live, true, f.balance, f.maxGas);
    assert n in live && n in payable && payable[n] == acc.pending[n];
    if n !in kept {
      assert n in payable - kept.Keys;
    }
  }

  /** Part of the pending list stays, part of it goes to the queue and the rest goes. */
  lemma Refiled(acc: Account, a: Address, kept: NonceMap, back: NonceMap, next: nat)
    requires Sound(acc, a) && SubMap(kept, acc.pending) && SubMap(back, acc.pending) && kept.Keys !! back.Keys
    ensures Sound(Account(kept, acc.queue + back, next), a)
    ensures HoldsNoMore(Account(kept, acc.queue + back, next), acc)
  {
  }

  /** The next nonce as reset recomputes it: one past the highest pending nonce, or the state nonce. */
  ghost function Renumbered(acc: Account, f: Funds): Account
  {
    acc.(next := if acc.pending == map[] then f.nonce else Max(acc.pending.Keys) + 1)
  }

  /** What a reset makes of an account: demoted, and renumbered if something is still pending. */
  ghost function Reindexed(acc: Account, f: Funds): Account
  {
    var d := Demoted(acc, f);
    if d.pending == map[] then d else Renumbered(d, f)
  }

  // ---- truncation ----

  /** The next expected nonce once the nonces `gone` are no longer pending. */
  ghost function NextWithout(next: nat, gone: set<nat>): nat
  {
    if gone == {} || next <= Min(gone) then next else Min(gone)
  }

  /** The pending list cut to its `level` lowest nonces. */
  ghost function Truncated(acc: Account, level: nat): Account
  {
    var kept := Lowest(acc.pending, level);
    acc.(pending := kept, next := NextWithout(acc.next, acc.pending.Keys - kept.Keys))
  }

  lemma TruncatedIsSound(acc: Account, a: Address, level: nat)
    requires Sound(acc, a)
    ensures Sound(Truncated(acc, level), a) && HoldsNoMore(Truncated(acc, level), acc)
  {
  }

  /** Cutting an interval to its lowest nonces leaves an interval that ends at the lowest cut nonce. */
  lemma LowestOfInterval(m: NonceMap, lo: nat, hi: nat, level: nat, gone: set<nat>)
    requires IsInterval(m, lo, hi) && gone == m.Keys - Lowest(m, level).Keys && gone != {}
    ensures IsInterval(Lowest(m, level), lo, Min(gone)) && lo <= Min(gone) < hi
  {
    var kept, cut := Lowest(m, level), Min(gone);
    assert cut in m && cut !in kept;
    assert forall n :: n in gone <==> n in m && n !in kept;
    assert forall n :: n in gone ==> cut <= n;
  }

  lemma TruncatedIsExecutable(acc: Account, f: Funds, level: nat)
    requires Executable(acc, f)
    ensures Executable(Truncated(acc, level), f)
  {
    var kept := Lowest(acc.pending, level);
    var gone := acc.pending.Keys - kept.Keys;
    if gone == {} {
      assert forall n :: n in acc.pending && n !in kept ==> n in gone;
    } else {
      LowestOfInterval(acc.pending, f.nonce, acc.next, level, gone);
    }
  }
}
