/** Gas over whole blocks: processing (core/state_processor.go), packing (miner/worker.go) and the
    receipts' running totals (core/blockchain.go). */
module GasBlocks {
  import opened Transactions
  import opened Gas
  import opened Traces

  datatype Receipt = Receipt(cumulative: nat, gasUsed: nat, failed: bool)

  /** What a block brings besides the transactions: who is paid, which rules hold, how the machine
      behaves, which transactions have an admissible type and a valid DPoS payload. */
  datatype Env = Env(vm: Vm, coinbase: Address, homestead: bool, admissible: Msg -> bool, dposOk: Msg -> bool)

  /** What a settled transaction comes to. */
  datatype Effect = Effect(world: World, gas: nat, failed: bool)

  ghost function EffectOf(w: World, m: Msg, env: Env): Effect
    requires Lawful(env.vm) && Outlasts(Bought(w, m), m, env.vm, env.homestead)
  {
    var run := RunOf(Bought(w, m), m, env.vm, env.homestead);
    RunIsLawful(Bought(w, m), m, env.vm, env.homestead);
    SettlementTotal(m, run, env.coinbase);
    Effect(Settlement(m, run, env.coinbase), Charge(m, run), run.error == VmError.Failed)
  }

  /** Why a transaction does not go into the block, if so. */
  ghost function ErrorOf(w: World, m: Msg, pool: nat, env: Env): Option<Error>
  {
    if !env.admissible(m) then Some(InvalidType)
    else if Refusal(w, m, pool).Some? then Refusal(w, m, pool)
    else if !Outlasts(Bought(w, m), m, env.vm, env.homestead) then Some(LateError(m, env.homestead))
    else if !env.dposOk(m) then Some(InvalidType)
    else None
  }

  /** What a transaction takes from the pool, whether it goes into the block or not: nothing if it is
      refused before its gas is bought, all of its gas if it is not settled, and otherwise the charge. */
  ghost function Taken(w: World, m: Msg, pool: nat, env: Env): (gas: nat)
    requires Lawful(env.vm)
    ensures gas <= m.gas && gas <= pool
  {
    if !env.admissible(m) || Refusal(w, m, pool).Some? then 0
    else if !Outlasts(Bought(w, m), m, env.vm, env.homestead) then m.gas
    else
      ChargeIsWithin(w, m, env);
      EffectOf(w, m, env).gas
  }

  lemma ChargeIsWithin(w: World, m: Msg, env: Env)
    requires Lawful(env.vm) && Outlasts(Bought(w, m), m, env.vm, env.homestead)
    ensures EffectOf(w, m, env).gas <= m.gas
    ensures var intrinsic := Intrinsic(m.data, m.creates, env.homestead);
            EffectOf(w, m, env).gas >= intrinsic - intrinsic / 2
  {
    var run := RunOf(Bought(w, m), m, env.vm, env.homestead);
    RunIsLawful(Bought(w, m), m, env.vm, env.homestead);
    SettlementTotal(m, run, env.coinbase);
  }

  /** ApplyTransaction: the transition, then the DPoS message, then the receipt with the running total. The
      pool and the used gas keep their sum exactly if the transaction goes in or nothing was taken. */
  method ApplyTransaction(w: World, m: Msg, pool: GasPool, used: nat, env: Env)
    returns (r: Option<Receipt>, error: Option<Error>, w2: World, used2: nat)
    requires Lawful(env.vm)
    modifies pool
    ensures error == ErrorOf(w, m, old(pool.gas), env) && (r.Some? <==> error.None?)
    ensures pool.gas == old(pool.gas) - Taken(w, m, old(pool.gas), env)
    ensures r.Some? ==>
              var effect := EffectOf(w, m, env);
              w2 == effect.world && used2 == used + effect.gas && r.value == Receipt(used2, effect.gas, effect.failed)
    ensures r.Some? ==> Total(w2) == Total(w) && Taken(w, m, old(pool.gas), env) == r.value.gasUsed
    ensures r.None? ==> used2 == used
    ensures pool.gas + used2 == old(pool.gas) + used <==> r.Some? || Taken(w, m, old(pool.gas), env) == 0
  {
    used2, w2, error := used, w, None;
    if !env.admissible(m) {
      return None, Some(InvalidType), w2, used2;
    }
    var done;
    done, w2 := TransitionDb(w, m, pool, env.vm, env.coinbase, env.homestead);
    if done.Refused? {
      return None, Some(done.error), w2, used2;
    }
    if !env.dposOk(m) {
      return None, Some(InvalidType), w2, used2;
    }
    used2 := used + done.used;
    r := Some(Receipt(used2, done.used, done.failed));
  }

  /** A message with too little gas for its intrinsic cost takes all of it from the pool, and none of it is used. */
  lemma FailureLosesGas(w: World, a: Address, pool: nat, env: Env)
    requires Lawful(env.vm) && pool >= 20000
    ensures var m := Msg(a, false, 0, false, 20000, 0, []);
            env.admissible(m) && BalanceOf(w, a) >= 0 ==>
              ErrorOf(w, m, pool, env) == Some(OutOfGas) && Taken(w, m, pool, env) == 20000
  {
  }

  // ---- receipts ----

  ghost function SumUsed(rs: seq<Receipt>): nat
  {
    if rs == [] then 0 else SumUsed(rs[..|rs| - 1]) + rs[|rs| - 1].gasUsed
  }

  /** Each receipt carries the total of all up to it. */
  ghost predicate Cumulative(rs: seq<Receipt>)
  {
    rs == [] || (Cumulative(rs[..|rs| - 1]) && rs[|rs| - 1].cumulative == SumUsed(rs))
  }

  lemma CumulativeMore(rs: seq<Receipt>, r: Receipt)
    requires Cumulative(rs) && r.cumulative == SumUsed(rs) + r.gasUsed
    ensures Cumulative(rs + [r]) && SumUsed(rs + [r]) == SumUsed(rs) + r.gasUsed
  {
    assert (rs + [r])[..|rs|] == rs;
  }

  /** A part of the receipts from the first one on carries its own totals. */
  lemma {:induction false} CumulativePrefix(rs: seq<Receipt>, n: nat)
    requires Cumulative(rs) && n <= |rs|
    ensures Cumulative(rs[..n])
  {
    if n < |rs| {
      var init := rs[..|rs| - 1];
      CumulativePrefix(init, n);
      assert init[..n] == rs[..n];
    } else {
      assert rs[..n] == rs;
    }
  }

  /** SetReceiptsData: the gas of each transaction from the running totals alone. */
  method SetGasUsed(cumulative: seq<int>) returns (gas: seq<int>)
    ensures |gas| == |cumulative|
    ensures forall i {:trigger gas[i]} ::
      0 <= i < |gas| ==> gas[i] == cumulative[i] - if i == 0 then 0 else cumulative[i - 1]
  {
    gas := [];
    for j := 0 to |cumulative|
      invariant |gas| == j
      invariant forall i {:trigger gas[i]} ::
        0 <= i < j ==> gas[i] == cumulative[i] - if i == 0 then 0 else cumulative[i - 1]
    {
      gas := gas + [if j == 0 then cumulative[j] else cumulative[j] - cumulative[j - 1]];
    }
  }

  /** The totals written by processing or packing a block give every receipt its gas back. */
  lemma GasUsedRecovered(rs: seq<Receipt>, gas: seq<int>)
    requires Cumulative(rs) && |gas| == |rs|
    requires forall i {:trigger gas[i]} ::
      0 <= i < |gas| ==> gas[i] == rs[i].cumulative - if i == 0 then 0 else rs[i - 1].cumulative
    ensures forall i {:trigger gas[i]} :: 0 <= i < |gas| ==> gas[i] == rs[i].gasUsed
  {
    forall i | 0 <= i < |gas| ensures gas[i] == rs[i].gasUsed {
      StepOfTotals(rs, i);
    }
  }

  lemma StepOfTotals(rs: seq<Receipt>, i: nat)
    requires Cumulative(rs) && i < |rs|
    ensures rs[i].gasUsed == rs[i].cumulative - if i == 0 then 0 else rs[i - 1].cumulative
  {
    var upTo, before := rs[..i + 1], rs[..i];
    CumulativePrefix(rs, i + 1);
    CumulativePrefix(rs, i);
    assert upTo[..|upTo| - 1] == before && upTo[|upTo| - 1] == rs[i];
    assert upTo[|upTo| - 1].cumulative == SumUsed(upTo) == SumUsed(before) + rs[i].gasUsed;
    assert i > 0 ==> before[|before| - 1] == rs[i - 1] && rs[i - 1].cumulative == SumUsed(before);
  }

  // ---- processing a block ----

  /** The state and the pool between two messages. */
  datatype Spot = Spot(world: World, pool: nat)

  /** The message goes into the block and has this effect. */
  ghost predicate Applies(p: Spot, m: Msg, q: Spot, env: Env)
    requires Lawful(env.vm)
  {
    ErrorOf(p.world, m, p.pool, env).None? &&
    q.world == EffectOf(p.world, m, env).world && q.pool == p.pool - Taken(p.world, m, p.pool, env)
  }

  ghost function AppliesIn(env: Env): (Spot, Msg, Spot) -> bool
    requires Lawful(env.vm)
  {
    (p, m, q) => Applies(p, m, q, env)
  }

  /** Every message goes into the block in its turn, on the state and the pool that the ones before leave. */
  ghost predicate AllApply(w: World, msgs: seq<Msg>, gasLimit: nat, env: Env)
    requires Lawful(env.vm)
  {
    exists spots {:trigger Follows(spots, msgs, AppliesIn(env))} ::
      Follows(spots, msgs, AppliesIn(env)) && spots[0] == Spot(w, gasLimit)
  }

  /** The receipts tell what each message took from the pool and how its run ended. */
  ghost predicate Receipted(spots: seq<Spot>, msgs: seq<Msg>, env: Env, receipts: seq<Receipt>)
    requires Lawful(env.vm)
  {
    |spots| == |msgs| + 1 && |receipts| == |msgs| &&
    forall i {:trigger receipts[i]} :: 0 <= i < |receipts| ==>
      receipts[i].gasUsed == spots[i].pool - spots[i + 1].pool &&
      receipts[i].failed == EndsBadly(spots[i].world, msgs[i], env)
  }

  ghost predicate EndsBadly(w: World, m: Msg, env: Env)
  {
    RunOf(Bought(w, m), m, env.vm, env.homestead).error == VmError.Failed
  }

  /** Each message comes in its turn and its sender can pay for all of its gas, in the state of its moment. */
  ghost predicate Covered(spots: seq<Spot>, msgs: seq<Msg>)
  {
    |spots| == |msgs| + 1 &&
    forall i {:trigger msgs[i]} :: 0 <= i < |msgs| ==>
      var w, m := spots[i].world, msgs[i];
      (m.checkNonce ==> m.nonce == NonceIn(w, m.from)) && m.gas * m.price <= BalanceOf(w, m.from) &&
      m.gas <= spots[i].pool
  }

  /** Each message has an admissible type and a valid DPoS payload. */
  ghost predicate Admitted(msgs: seq<Msg>, env: Env)
  {
    forall i {:trigger msgs[i]} :: 0 <= i < |msgs| ==> env.admissible(msgs[i]) && env.dposOk(msgs[i])
  }

  lemma AllCovered(spots: seq<Spot>, msgs: seq<Msg>, env: Env)
    requires Lawful(env.vm) && Follows(spots, msgs, AppliesIn(env))
    ensures Covered(spots, msgs) && Admitted(msgs, env)
  {
    forall i | 0 <= i < |msgs|
      ensures var w, m := spots[i].world, msgs[i];
              (m.checkNonce ==> m.nonce == NonceIn(w, m.from)) && m.gas * m.price <= BalanceOf(w, m.from) &&
              m.gas <= spots[i].pool && env.admissible(m) && env.dposOk(m)
    {
      assert AppliesIn(env)(spots[i], msgs[i], spots[i + 1]);
    }
  }

  /** A message that does not apply fails the whole block. */
  lemma CannotApply(spots: seq<Spot>, msgs: seq<Msg>, i: nat, env: Env)
    requires Lawful(env.vm) && i < |msgs| && Follows(spots, msgs[..i], AppliesIn(env))
    requires ErrorOf(spots[i].world, msgs[i], spots[i].pool, env).Some?
    ensures !AllApply(spots[0].world, msgs, spots[0].pool, env)
  {
    forall other ensures !(Follows(other, msgs, AppliesIn(env)) && other[0] == spots[0]) {
      NoOtherWay(spots, msgs, i, AppliesIn(env), other);
    }
  }

  lemma ReceiptedMore(spots: seq<Spot>, msgs: seq<Msg>, i: nat, env: Env, receipts: seq<Receipt>, q: Spot, r: Receipt)
    requires Lawful(env.vm) && i < |msgs| && Receipted(spots, msgs[..i], env, receipts)
    requires r.gasUsed == spots[i].pool - q.pool && r.failed == EndsBadly(spots[i].world, msgs[i], env)
    ensures Receipted(spots + [q], msgs[..i + 1], env, receipts + [r])
  {
    forall j | 0 <= j < i ensures msgs[..i + 1][j] == msgs[..i][j] && receipts[j] == (receipts + [r])[j] {}
  }

  /** Process: all transactions or none, and all exactly if each applies in its turn. What the pool has
      left and the used gas make up the limit. */
  method Process(w: World, msgs: seq<Msg>, gasLimit: nat, env: Env)
    returns (r: Option<seq<Receipt>>, w2: World, total: nat, left: nat, ghost spots: seq<Spot>)
    requires Lawful(env.vm)
    ensures r.Some? <==> AllApply(w, msgs, gasLimit, env)
    ensures r.Some? ==> Follows(spots, msgs, AppliesIn(env)) && Receipted(spots, msgs, env, r.value)
    ensures r.Some? ==> spots[0] == Spot(w, gasLimit) && spots[|msgs|] == Spot(w2, left)
    ensures r.Some? ==> Covered(spots, msgs) && Admitted(msgs, env)
    ensures r.Some? ==>
      Cumulative(r.value) && total == SumUsed(r.value) && left + total == gasLimit && Total(w2) == Total(w)
  {
    var pool := new GasPool(gasLimit);
    var receipts: seq<Receipt> := [];
    total, w2, spots := 0, w, [Spot(w, gasLimit)];
    for i := 0 to |msgs|
      invariant fresh(pool) && pool.gas + total == gasLimit && Total(w2) == Total(w)
      invariant Cumulative(receipts) && total == SumUsed(receipts)
      invariant Follows(spots, msgs[..i], AppliesIn(env)) && Receipted(spots, msgs[..i], env, receipts)
      invariant spots[0] == Spot(w, gasLimit) && spots[i] == Spot(w2, pool.gas)
    {
      var receipt;
      receipt, w2, total := ApplyNext(w2, msgs[i], pool, total, env);
      if receipt.None? {
        CannotApply(spots, msgs, i, env);
        return None, w2, total, pool.gas, spots;
      }
      ghost var q := Spot(w2, pool.gas);
      CumulativeMore(receipts, receipt.value);
      FollowsMore(spots, msgs, i, q, AppliesIn(env));
      ReceiptedMore(spots, msgs, i, env, receipts, q, receipt.value);
      receipts, spots := receipts + [receipt.value], spots + [q];
    }
    assert msgs[..|msgs|] == msgs;
    AllCovered(spots, msgs, env);
    r, left := Some(receipts), pool.gas;
  }

  /** One message of a block. */
  method ApplyNext(w: World, m: Msg, pool: GasPool, used: nat, env: Env)
    returns (r: Option<Receipt>, w2: World, used2: nat)
    requires Lawful(env.vm)
    modifies pool
    ensures r.None? <==> ErrorOf(w, m, old(pool.gas), env).Some?
    ensures r.Some? ==> Applies(Spot(w, old(pool.gas)), m, Spot(w2, pool.gas), env) && Total(w2) == Total(w)
    ensures r.Some? ==> used2 == used + r.value.gasUsed == r.value.cumulative
    ensures r.Some? ==> r.value.gasUsed == old(pool.gas) - pool.gas && r.value.failed == EndsBadly(w, m, env)
  {
    var error;
    r, error, w2, used2 := ApplyTransaction(w, m, pool, used, env);
  }

  // ---- packing a block ----

  /** The transactions still to be tried: for each account a list in nonce order, none of them empty. */
  type Queues = seq<seq<Msg>>

  ghost predicate NoneEmpty(q: Queues)
  {
    forall i {:trigger q[i]} :: 0 <= i < |q| ==> q[i] != []
  }

  function Waiting(q: Queues): nat
  {
    if q == [] then 0 else Waiting(q[..|q| - 1]) + |q[|q| - 1]|
  }

  lemma {:induction false} WaitingSplit(a: Queues, b: Queues)
    ensures Waiting(a + b) == Waiting(a) + Waiting(b)
    decreases |b|
  {
    if b == [] {
      assert a + b == a;
    } else {
      assert (a + b)[..|a + b| - 1] == a + b[..|b| - 1];
      WaitingSplit(a, b[..|b| - 1]);
    }
  }

  /** Drops the whole account. */
  method Pop(q: Queues, i: nat) returns (r: Queues)
    requires NoneEmpty(q) && i < |q|
    ensures NoneEmpty(r) && Waiting(r) < Waiting(q) && r == q[..i] + q[i + 1..]
  {
    r := q[..i] + q[i + 1..];
    assert q == q[..i] + ([q[i]] + q[i + 1..]);
    WaitingSplit(q[..i], [q[i]] + q[i + 1..]);
    WaitingSplit([q[i]], q[i + 1..]);
    WaitingSplit(q[..i], q[i + 1..]);
  }

  /** Goes on to the account's next transaction. */
  method Shift(q: Queues, i: nat) returns (r: Queues)
    requires NoneEmpty(q) && i < |q|
    ensures NoneEmpty(r) && Waiting(r) < Waiting(q)
    ensures r == if |q[i]| == 1 then q[..i] + q[i + 1..] else q[i := q[i][1..]]
  {
    if |q[i]| == 1 {
      r := Pop(q, i);
      return;
    }
    r := q[i := q[i][1..]];
    assert q == q[..i] + ([q[i]] + q[i + 1..]) && r == q[..i] + ([q[i][1..]] + q[i + 1..]);
    WaitingSplit(q[..i], [q[i]] + q[i + 1..]);
    WaitingSplit([q[i]], q[i + 1..]);
    WaitingSplit(q[..i], [q[i][1..]] + q[i + 1..]);
    WaitingSplit([q[i][1..]], q[i + 1..]);
  }

  /** A block being put together. */
  datatype Work = Work(world: World, msgs: seq<Msg>, receipts: seq<Receipt>, used: nat)

  ghost predicate Packed(work: Work, start: World)
  {
    |work.receipts| == |work.msgs| && Cumulative(work.receipts) && work.used == SumUsed(work.receipts) &&
    Total(work.world) == Total(start)
  }

  /** commitTransaction: a transaction that fails leaves the state as it was, but not the pool. */
  method CommitTransaction(work: Work, m: Msg, pool: GasPool, env: Env, ghost start: World)
    returns (work2: Work, error: Option<Error>)
    requires Lawful(env.vm) && Packed(work, start)
    modifies pool
    ensures Packed(work2, start)
    ensures error == ErrorOf(work.world, m, old(pool.gas), env)
    ensures pool.gas == old(pool.gas) - Taken(work.world, m, old(pool.gas), env)
    ensures if error.None? then
              var effect := EffectOf(work.world, m, env);
              work2 == Work(effect.world, work.msgs + [m],
                            work.receipts + [Receipt(work.used + effect.gas, effect.gas, effect.failed)],
                            work.used + effect.gas) &&
              effect.gas == Taken(work.world, m, old(pool.gas), env) &&
              Bills(work2.receipts) == Bills(work.receipts) + [(effect.gas, effect.failed)]
            else work2 == work
  {
    var r, w2, used2;
    r, error, w2, used2 := ApplyTransaction(work.world, m, pool, work.used, env);
    if r.None? {
      return work, error;
    }
    CumulativeMore(work.receipts, r.value);
    BillsAppend(work.receipts, r.value);
    work2 := Work(w2, work.msgs + [m], work.receipts + [r.value], used2);
  }

  /** One look at the first transaction of an account and what came of it. */
  datatype Try = Try(at: nat, msg: Msg, ready: bool, error: Option<Error>)

  /** The transaction went into the block. */
  predicate Ok(t: Try)
  {
    t.ready && t.error.None?
  }

  /** A transaction that is not ready, does not fit or comes too early costs its account the turn; any
      other makes room for the next one of the account. */
  predicate DropsAccount(t: Try)
  {
    !t.ready || t.error == Some(GasLimitReached) || t.error == Some(NonceTooHigh)
  }

  /** Where packing stands: the state, the pool and the transactions still to be tried. */
  datatype Point = Point(world: World, pool: nat, queues: Queues)

  /** The queues after a try. */
  ghost predicate QueuesFollow(q: Queues, t: Try, q2: Queues)
  {
    t.at < |q| && q[t.at] != [] && t.msg == q[t.at][0] &&
    q2 == if DropsAccount(t) || |q[t.at]| == 1 then q[..t.at] + q[t.at + 1..] else q[t.at := q[t.at][1..]]
  }

  /** One try: a ready transaction is applied to the state and the pool of that moment. */
  ghost predicate Tried(p: Point, t: Try, p2: Point, env: Env, ready: Msg -> bool)
    requires Lawful(env.vm)
  {
    QueuesFollow(p.queues, t, p2.queues) && t.ready == ready(t.msg) &&
    if !t.ready then t.error.None? && p2.world == p.world && p2.pool == p.pool
    else
      t.error == ErrorOf(p.world, t.msg, p.pool, env) && p2.pool == p.pool - Taken(p.world, t.msg, p.pool, env) &&
      p2.world == if t.error.None? then EffectOf(p.world, t.msg, env).world else p.world
  }

  ghost function TriedIn(env: Env, ready: Msg -> bool): (Point, Try, Point) -> bool
    requires Lawful(env.vm)
  {
    (p, t, q) => Tried(p, t, q, env, ready)
  }

  /** A try leaves the lists of the other accounts alone. */
  lemma OthersStay(q: Queues, t: Try, q2: Queues, i: nat) returns (next: nat)
    requires QueuesFollow(q, t, q2) && i < |q| && i != t.at
    ensures next < |q2| && q2[next] == q[i]
  {
    next := if i < t.at || |q2| == |q| then i else i - 1;
  }

  /** When packing is over, the first transaction of every list that there was has had its try. */
  lemma {:induction false} ListIsTried(points: seq<Point>, tries: seq<Try>, k: nat, i: nat, env: Env,
                                       ready: Msg -> bool)
    returns (j: nat)
    requires Lawful(env.vm) && Follows(points, tries, TriedIn(env, ready)) && points[|tries|].queues == []
    requires k <= |tries| && i < |points[k].queues| && points[k].queues[i] != []
    ensures k <= j < |tries| && tries[j].at < |points[j].queues| && points[j].queues[tries[j].at] == points[k].queues[i]
    ensures tries[j].msg == points[k].queues[i][0]
    decreases |tries| - k
  {
    assert TriedIn(env, ready)(points[k], tries[k], points[k + 1]);
    var at, q := tries[k].at, points[k].queues;
    if at == i {
      j := k;
    } else {
      var next := OthersStay(q, tries[k], points[k + 1].queues, i);
      j := ListIsTried(points, tries, k + 1, next, env, ready);
    }
  }

  /** Behind a transaction that went in, or failed otherwise than for want of gas in the block or by a nonce that is too
      high, the account's next one is tried; after these two, and where it was not let through, none is. */
  lemma NextIsTried(points: seq<Point>, tries: seq<Try>, k: nat, env: Env, ready: Msg -> bool) returns (j: nat)
    requires Lawful(env.vm) && Follows(points, tries, TriedIn(env, ready)) && points[|tries|].queues == []
    requires k < |tries|
    ensures var t, q := tries[k], points[k].queues;
            t.at < |q| && q[t.at] != [] && t.msg == q[t.at][0] &&
            if t.ready && t.error != Some(GasLimitReached) && t.error != Some(NonceTooHigh) then
              |q[t.at]| > 1 ==> k < j < |tries| && tries[j].msg == q[t.at][1]
            else points[k + 1].queues == q[..t.at] + q[t.at + 1..]
  {
    assert TriedIn(env, ready)(points[k], tries[k], points[k + 1]);
    var t, q := tries[k], points[k].queues;
    j := 0;
    if t.ready && t.error != Some(GasLimitReached) && t.error != Some(NonceTooHigh) && |q[t.at]| > 1 {
      assert points[k + 1].queues[t.at] == q[t.at][1..];
      j := ListIsTried(points, tries, k + 1, t.at, env, ready);
    }
  }

  function Committed(tries: seq<Try>): seq<Msg>
  {
    if tries == [] then []
    else Committed(tries[..|tries| - 1]) + if Ok(tries[|tries| - 1]) then [tries[|tries| - 1].msg] else []
  }

  /** The gas that failed tries took from the pool. */
  ghost function LostGas(points: seq<Point>, tries: seq<Try>): int
    requires |points| == |tries| + 1
    decreases |tries|
  {
    if tries == [] then 0
    else
      var n := |tries| - 1;
      LostGas(points[..n + 1], tries[..n]) + if Ok(tries[n]) then 0 else points[n].pool - points[n + 1].pool
  }

  /** The gas and the outcome of each transaction in the block, as its receipt tells them. */
  ghost function Bills(rs: seq<Receipt>): seq<(nat, bool)>
  {
    seq(|rs|, i requires 0 <= i < |rs| => (rs[i].gasUsed, rs[i].failed))
  }

  lemma BillsAppend(rs: seq<Receipt>, r: Receipt)
    ensures Bills(rs + [r]) == Bills(rs) + [(r.gasUsed, r.failed)]
  {
  }

  /** The same from the tries that went in. */
  ghost function BillsOf(points: seq<Point>, tries: seq<Try>, env: Env): seq<(nat, bool)>
    requires Lawful(env.vm) && |points| == |tries| + 1
    decreases |tries|
  {
    if tries == [] then []
    else
      var n := |tries| - 1;
      BillsOf(points[..n + 1], tries[..n], env) + BillOf(points[n].world, tries[n], env)
  }

  ghost function BillOf(w: World, t: Try, env: Env): seq<(nat, bool)>
    requires Lawful(env.vm)
  {
    if Ok(t) && Outlasts(Bought(w, t.msg), t.msg, env.vm, env.homestead) then
      [(EffectOf(w, t.msg, env).gas, EffectOf(w, t.msg, env).failed)]
    else []
  }

  lemma BillsMore(points: seq<Point>, tries: seq<Try>, t: Try, p: Point, env: Env)
    requires Lawful(env.vm) && |points| == |tries| + 1
    ensures BillsOf(points + [p], tries + [t], env) ==
      BillsOf(points, tries, env) + BillOf(points[|tries|].world, t, env)
  {
    assert (tries + [t])[..|tries|] == tries;
    assert (points + [p])[..|points|] == points;
  }

  lemma CommittedMore(tries: seq<Try>, t: Try)
    ensures Committed(tries + [t]) == Committed(tries) + if Ok(t) then [t.msg] else []
  {
    assert (tries + [t])[..|tries|] == tries;
  }

  lemma LostMore(points: seq<Point>, tries: seq<Try>, t: Try, p: Point)
    requires |points| == |tries| + 1
    ensures LostGas(points + [p], tries + [t]) ==
            LostGas(points, tries) + if Ok(t) then 0 else points[|tries|].pool - p.pool
  {
    assert (tries + [t])[..|tries|] == tries;
    assert (points + [p])[..|points|] == points;
  }

  /** commitTransactions: tries the accounts' transactions in any order until none is left, each on the
      state and the pool of its moment. The gas left, the gas used and the gas that failed
      transactions took make up the limit. `ready` are the transactions that the block's rules let
      through. */
  method CommitTransactions(w: World, queues: Queues, gasLimit: nat, env: Env, ready: Msg -> bool)
    returns (work: Work, left: nat, ghost points: seq<Point>, ghost tries: seq<Try>)
    requires Lawful(env.vm) && NoneEmpty(queues)
    ensures Packed(work, w) && work.used <= gasLimit
    ensures Follows(points, tries, TriedIn(env, ready)) && work.msgs == Committed(tries)
    ensures Bills(work.receipts) == BillsOf(points, tries, env)
    ensures points[0] == Point(w, gasLimit, queues) && points[|tries|] == Point(work.world, left, [])
    ensures left + work.used + LostGas(points, tries) == gasLimit
  {
    var pool := new GasPool(gasLimit);
    work := Work(w, [], [], 0);
    var q := queues;
    points, tries := [Point(w, gasLimit, queues)], [];
    while q != []
      invariant fresh(pool) && NoneEmpty(q) && Packed(work, w)
      invariant Follows(points, tries, TriedIn(env, ready)) && work.msgs == Committed(tries)
      invariant Bills(work.receipts) == BillsOf(points, tries, env)
      invariant points[0] == Point(w, gasLimit, queues) && points[|tries|] == Point(work.world, pool.gas, q)
      invariant pool.gas + work.used + LostGas(points, tries) == gasLimit && 0 <= LostGas(points, tries)
      decreases Waiting(q)
    {
      var i: nat :| i < |q|;
      ghost var t;
      work, q, t := TryFirst(work, q, i, pool, env, ready, w);
      ghost var p := Point(work.world, pool.gas, q);
      assert tries + [t] == (tries + [t])[..|tries| + 1] && (tries + [t])[..|tries|] == tries;
      FollowsMore(points, tries + [t], |tries|, p, TriedIn(env, ready));
      LostMore(points, tries, t, p);
      CommittedMore(tries, t);
      BillsMore(points, tries, t, p, env);
      points, tries := points + [p], tries + [t];
    }
    left := pool.gas;
  }

  method TryFirst(work: Work, q: Queues, i: nat, pool: GasPool, env: Env, ready: Msg -> bool, ghost start: World)
    returns (work2: Work, q2: Queues, ghost t: Try)
    requires Lawful(env.vm) && Packed(work, start) && NoneEmpty(q) && i < |q|
    modifies pool
    ensures Packed(work2, start) && NoneEmpty(q2) && Waiting(q2) < Waiting(q) && pool.gas <= old(pool.gas)
    ensures Tried(Point(work.world, old(pool.gas), q), t, Point(work2.world, pool.gas, q2), env, ready)
    ensures work2.msgs == work.msgs + if Ok(t) then [t.msg] else []
    ensures Bills(work2.receipts) == Bills(work.receipts) + BillOf(work.world, t, env)
    ensures work2.used == work.used + if Ok(t) then old(pool.gas) - pool.gas else 0
  {
    var m, error := q[i][0], None;
    work2 := work;
    if ready(m) {
      work2, error := CommitTransaction(work, m, pool, env, start);
    }
    t := Try(i, m, ready(m), error);
    if !ready(m) || error == Some(GasLimitReached) || error == Some(NonceTooHigh) {
      q2 := Pop(q, i);
    } else {
      q2 := Shift(q, i);
    }
  }
}
