/** Gas accounting of one transaction (core/state_transition.go, core/gaspool.go). The virtual machine
    is any function that returns no more gas than it was given and keeps the sum of all balances. */
module Gas {
  import opened Transactions
  import opened Numbers
  import MapSums

  const TX_GAS := 21000
  const TX_GAS_CONTRACT_CREATION := 53000
  const TX_DATA_ZERO_GAS := 4
  const TX_DATA_NON_ZERO_GAS := 68

  datatype Msg = Msg(from: Address, creates: bool, nonce: nat, checkNonce: bool, gas: nat, price: nat, data: seq<bv8>)

  datatype World = World(balances: map<Address, int>, nonces: map<Address, nat>)

  datatype VmError = Fine | Failed | InsufficientBalance

  datatype Outcome = Outcome(world: World, gasLeft: nat, refund: nat, error: VmError)

  type Vm = (World, Msg, nat) -> Outcome

  ghost function Total(w: World): int
  {
    MapSums.MapSum(w.balances)
  }

  ghost predicate Lawful(vm: Vm)
  {
    (forall w, m, g {:trigger vm(w, m, g)} :: vm(w, m, g).gasLeft <= g) &&
    (forall w, m, g {:trigger Total(vm(w, m, g).world)} :: Total(vm(w, m, g).world) == Total(w))
  }

  // ---- intrinsic gas ----

  function NonZero(data: seq<bv8>): nat
    ensures NonZero(data) <= |data|
  {
    if data == [] then 0 else NonZero(data[..|data| - 1]) + if data[|data| - 1] == 0 then 0 else 1
  }

  /** The base cost and the cost of each data byte. */
  method IntrinsicGas(data: seq<bv8>, creates: bool, homestead: bool) returns (g: nat)
    ensures g == Intrinsic(data, creates, homestead)
  {
    g := if creates && homestead then TX_GAS_CONTRACT_CREATION else TX_GAS;
    if |data| > 0 {
      var nz := 0;
      for i := 0 to |data|
        invariant nz == NonZero(data[..i])
      {
        assert data[..i + 1][..i] == data[..i];
        if data[i] != 0 {
          nz := nz + 1;
        }
      }
      assert data[..|data|] == data;
      DataGasCounts(data);
      g := g + nz * TX_DATA_NON_ZERO_GAS;
      g := g + (|data| - nz) * TX_DATA_ZERO_GAS;
    }
  }

  function ByteGas(b: bv8): nat
  {
    if b == 0 then TX_DATA_ZERO_GAS else TX_DATA_NON_ZERO_GAS
  }

  function DataGas(data: seq<bv8>): nat
  {
    if data == [] then 0 else DataGas(data[..|data| - 1]) + ByteGas(data[|data| - 1])
  }

  function Intrinsic(data: seq<bv8>, creates: bool, homestead: bool): nat
  {
    (if creates && homestead then TX_GAS_CONTRACT_CREATION else TX_GAS) + DataGas(data)
  }

  lemma {:induction false} DataGasCounts(data: seq<bv8>)
    ensures DataGas(data) == NonZero(data) * TX_DATA_NON_ZERO_GAS + (|data| - NonZero(data)) * TX_DATA_ZERO_GAS
  {
    if data != [] {
      DataGasCounts(data[..|data| - 1]);
    }
  }

  /** What the rules of the chain charge for some messages. */
  lemma KnownCosts()
    ensures Intrinsic([], false, true) == Intrinsic([], true, false) == 21000 && Intrinsic([], true, true) == 53000
    ensures Intrinsic([0], false, true) == 21004 && Intrinsic([7], false, true) == 21068
    ensures MAX_UINT64 == 18_446_744_073_709_551_615
  {
    assert [0 as bv8][..0] == [] && [7 as bv8][..0] == [];
  }

  // ---- the gas pool ----

  /** The block's gas that is still to be handed out. */
  class GasPool {
    var gas: nat

    constructor (limit: nat)
      ensures gas == limit
    {
      gas := limit;
    }

    method AddGas(amount: nat)
      modifies this
      ensures gas == old(gas) + amount
    {
      gas := gas + amount;
    }

    method SubGas(amount: nat) returns (ok: bool)
      modifies this
      ensures ok <==> amount <= old(gas)
      ensures gas == if ok then old(gas) - amount else old(gas)
    {
      ok := gas >= amount;
      if ok {
        gas := gas - amount;
      }
    }
  }

  // ---- one state transition ----

  function BalanceOf(w: World, a: Address): int
  {
    if a in w.balances then w.balances[a] else 0
  }

  function NonceIn(w: World, a: Address): nat
  {
    if a in w.nonces then w.nonces[a] else 0
  }

  function Paid(w: World, a: Address, amount: int): World
  {
    w.(balances := w.balances[a := BalanceOf(w, a) + amount])
  }

  lemma PaidTotal(w: World, a: Address, amount: int)
    ensures Total(Paid(w, a, amount)) == Total(w) + amount
  {
    MapSums.MapSumUpdate(w.balances, a, BalanceOf(w, a) + amount);
  }

  datatype Error = NonceTooHigh | NonceTooLow | OutOfGas | NoBalanceForGas | GasLimitReached | NoBalance | InvalidType

  /** `required` is the gas consumed before refunds, `used` the gas charged. */
  datatype Result = Done(required: nat, used: nat, failed: bool) | Refused(error: Error)

  /** The first error found before any gas is bought. */
  function Refusal(w: World, m: Msg, pool: nat): Option<Error>
  {
    if m.checkNonce && NonceIn(w, m.from) < m.nonce then Some(NonceTooHigh)
    else if m.checkNonce && NonceIn(w, m.from) > m.nonce then Some(NonceTooLow)
    else if m.gas > MAX_UINT64 then Some(OutOfGas)
    else if BalanceOf(w, m.from) < m.gas * m.price then Some(NoBalanceForGas)
    else if pool < m.gas then Some(GasLimitReached)
    else None
  }

  /** The state in which the message's gas is paid for. */
  function Bought(w: World, m: Msg): World
  {
    Paid(w, m.from, -(m.gas * m.price))
  }

  /** preCheck and buyGas: the nonce is right, and the gas is paid for and taken from the pool. */
  method BuyGas(w: World, m: Msg, pool: GasPool) returns (r: Option<Error>, w2: World, gas: nat)
    modifies pool
    ensures r == Refusal(w, m, old(pool.gas))
    ensures r.None? <==>
              (m.checkNonce ==> m.nonce == NonceIn(w, m.from)) && m.gas * m.price <= BalanceOf(w, m.from) &&
              m.gas <= MAX_UINT64 && m.gas <= old(pool.gas)
    ensures r == Some(NonceTooLow) <==> m.checkNonce && m.nonce < NonceIn(w, m.from)
    ensures r == Some(NonceTooHigh) <==> m.checkNonce && m.nonce > NonceIn(w, m.from)
    ensures r.Some? ==> w2 == w && pool.gas == old(pool.gas) && gas == 0
    ensures r.None? ==> w2 == Bought(w, m) && pool.gas == old(pool.gas) - m.gas && gas == m.gas <= MAX_UINT64
  {
    w2, gas := w, 0;
    if m.checkNonce {
      if NonceIn(w, m.from) < m.nonce {
        return Some(NonceTooHigh), w2, gas;
      } else if NonceIn(w, m.from) > m.nonce {
        return Some(NonceTooLow), w2, gas;
      }
    }
    if m.gas > MAX_UINT64 {
      return Some(OutOfGas), w2, gas;
    }
    var cost := m.gas * m.price;
    if BalanceOf(w, m.from) < cost {
      return Some(NoBalanceForGas), w2, gas;
    }
    var ok := pool.SubGas(m.gas);
    if !ok {
      return Some(GasLimitReached), w2, gas;
    }
    gas := gas + m.gas;
    w2 := Paid(w, m.from, -cost);
    r := None;
  }

  /** refundGas: unused gas is paid back, then a refund of at most half of what was used. */
  method RefundGas(w: World, m: Msg, gas: nat, refundCounter: nat, pool: GasPool) returns (w2: World, left: nat)
    requires gas <= m.gas <= MAX_UINT64
    modifies pool
    ensures left == gas + Least((m.gas - gas) / 2, refundCounter) <= m.gas
    ensures w2 == Paid(w, m.from, left * m.price)
    ensures pool.gas == old(pool.gas) + left
  {
    var remaining := gas * m.price;
    w2 := Paid(w, m.from, remaining);
    var uhalf := (m.gas - gas) / 2;
    var refund := Least(uhalf, refundCounter);
    left := gas + refund;
    w2 := Paid(w2, m.from, refund * m.price);
    Shares(gas, refund, m.price);
    assert w2.balances == Paid(w, m.from, left * m.price).balances;
    pool.AddGas(left);
  }

  function Least(a: nat, b: nat): nat
  {
    if a < b then a else b
  }

  /** The nonce of a sender that calls; a creating sender's nonce is the machine's business. */
  function Called(w: World, m: Msg): World
  {
    if m.creates then w else w.(nonces := w.nonces[m.from := NonceIn(w, m.from) + 1])
  }

  /** The run of the machine on the gas that is left after the intrinsic cost; `w` is the state in which
      the gas is paid for. */
  function RunOf(w: World, m: Msg, vm: Vm, homestead: bool): Outcome
  {
    var intrinsic := Intrinsic(m.data, m.creates, homestead);
    vm(Called(w, m), m, if intrinsic <= m.gas then m.gas - intrinsic else 0)
  }

  /** The gas covers the intrinsic cost and the machine does not find the value missing. */
  predicate Outlasts(w: World, m: Msg, vm: Vm, homestead: bool)
  {
    Intrinsic(m.data, m.creates, homestead) <= m.gas && RunOf(w, m, vm, homestead).error != InsufficientBalance
  }

  /** The message gets as far as being settled. */
  predicate Runs(w: World, m: Msg, pool: nat, vm: Vm, homestead: bool)
  {
    Refusal(w, m, pool).None? && Outlasts(Bought(w, m), m, vm, homestead)
  }

  /** The gas consumed by a run before refunds. */
  function Consumed(m: Msg, run: Outcome): int
  {
    m.gas - run.gasLeft
  }

  /** The gas charged for a run: what it consumed less a refund of at most half of that. */
  function Charge(m: Msg, run: Outcome): int
    requires run.gasLeft <= m.gas
  {
    Consumed(m, run) - Least(Consumed(m, run) / 2, run.refund)
  }

  /** The state once the run is settled: the sender gets back what is not charged, the miner gets the charge. */
  function Settlement(m: Msg, run: Outcome, coinbase: Address): World
    requires run.gasLeft <= m.gas
  {
    Paid(Paid(run.world, m.from, (m.gas - Charge(m, run)) * m.price), coinbase, Charge(m, run) * m.price)
  }

  lemma RunIsLawful(w: World, m: Msg, vm: Vm, homestead: bool)
    requires Lawful(vm) && Intrinsic(m.data, m.creates, homestead) <= m.gas
    ensures Consumed(m, RunOf(w, m, vm, homestead)) >= Intrinsic(m.data, m.creates, homestead)
    ensures Total(RunOf(w, m, vm, homestead).world) == Total(w)
  {
    var left := m.gas - Intrinsic(m.data, m.creates, homestead);
    assert vm(Called(w, m), m, left).gasLeft <= left;
    assert Called(w, m).balances == w.balances;
  }

  /** The charge lies between half of what was consumed, rounded up, and all of it; it goes from the
      sender to the miner, so that the sum of all balances is what it was before the gas was bought. */
  lemma SettlementTotal(m: Msg, run: Outcome, coinbase: Address)
    requires run.gasLeft <= m.gas
    ensures Consumed(m, run) - Consumed(m, run) / 2 <= Charge(m, run) <= Consumed(m, run)
    ensures Total(Settlement(m, run, coinbase)) == Total(run.world) + m.gas * m.price
  {
    var used := Charge(m, run);
    var left := m.gas - used;
    var paid := Paid(run.world, m.from, left * m.price);
    PaidTotal(run.world, m.from, left * m.price);
    PaidTotal(paid, coinbase, used * m.price);
    Shares(used, left, m.price);
  }

  /** TransitionDb: buy, run, refund, pay the miner. The balances' sum is kept, the pool is lower by
      exactly the charged gas, and the charge lies between half of what was consumed (rounded up) and
      the gas bought. After a failure the gas is gone from the pool if it had been bought. */
  method TransitionDb(w: World, m: Msg, pool: GasPool, vm: Vm, coinbase: Address, homestead: bool)
    returns (r: Result, w2: World)
    requires Lawful(vm)
    modifies pool
    ensures r.Done? <==> Runs(w, m, old(pool.gas), vm, homestead)
    ensures r.Done? ==>
              var run := RunOf(Bought(w, m), m, vm, homestead);
              Intrinsic(m.data, m.creates, homestead) <= Consumed(m, run) <= m.gas <= MAX_UINT64 &&
              r == Result.Done(Consumed(m, run), Charge(m, run), run.error == VmError.Failed) &&
              w2 == Settlement(m, run, coinbase) && pool.gas + r.used == old(pool.gas)
    ensures r.Done? ==> r.required - r.required / 2 <= r.used <= r.required && Total(w2) == Total(w)
    ensures r.Done? ==> (m.checkNonce ==> m.nonce == NonceIn(w, m.from)) && m.gas * m.price <= BalanceOf(w, m.from)
    ensures r.Done? ==>
              var call, given := Called(Bought(w, m), m), m.gas - Intrinsic(m.data, m.creates, homestead);
              given >= 0 && RunOf(Bought(w, m), m, vm, homestead) == vm(call, m, given) &&
              (m.checkNonce && !m.creates ==> NonceIn(call, m.from) == m.nonce + 1)
    ensures r.Refused? && Refusal(w, m, old(pool.gas)).Some? ==>
              r.error == Refusal(w, m, old(pool.gas)).value && w2 == w && pool.gas == old(pool.gas)
    ensures r.Refused? && Refusal(w, m, old(pool.gas)).None? ==>
              r.error == LateError(m, homestead) && pool.gas == old(pool.gas) - m.gas &&
              if m.gas < Intrinsic(m.data, m.creates, homestead) then r.error == OutOfGas
              else r.error == NoBalance && RunOf(Bought(w, m), m, vm, homestead).error == InsufficientBalance
  {
    var early, gas;
    early, w2, gas := BuyGas(w, m, pool);
    if early.Some? {
      return Refused(early.value), w2;
    }
    PaidTotal(w, m.from, -(m.gas * m.price));
    r, w2 := Spend(w2, m, pool, vm, coinbase, homestead);
  }

  /** The error of a message that has bought its gas and is not settled. */
  function LateError(m: Msg, homestead: bool): Error
  {
    if m.gas < Intrinsic(m.data, m.creates, homestead) then OutOfGas else NoBalance
  }

  /** From the bought gas on: `w` is the state in which the gas is paid for. */
  method Spend(w: World, m: Msg, pool: GasPool, vm: Vm, coinbase: Address, homestead: bool)
    returns (r: Result, w2: World)
    requires Lawful(vm) && m.gas <= MAX_UINT64
    modifies pool
    ensures r.Done? <==> Outlasts(w, m, vm, homestead)
    ensures r.Done? ==>
              var run := RunOf(w, m, vm, homestead);
              Intrinsic(m.data, m.creates, homestead) <= Consumed(m, run) <= m.gas &&
              r == Result.Done(Consumed(m, run), Charge(m, run), run.error == VmError.Failed) &&
              w2 == Settlement(m, run, coinbase) && pool.gas + r.used == old(pool.gas) + m.gas
    ensures r.Done? ==> r.required - r.required / 2 <= r.used <= r.required && Total(w2) == Total(w) + m.gas * m.price
    ensures r.Refused? ==> r.error == LateError(m, homestead) && pool.gas == old(pool.gas)
  {
    var intrinsic := IntrinsicGas(m.data, m.creates, homestead);
    if intrinsic > MAX_UINT64 || m.gas < intrinsic {
      return Refused(OutOfGas), w;
    }
    RunIsLawful(w, m, vm, homestead);
    var run := vm(Called(w, m), m, m.gas - intrinsic);
    assert run == RunOf(w, m, vm, homestead);
    if run.error == InsufficientBalance {
      return Refused(NoBalance), run.world;
    }
    SettlementTotal(m, run, coinbase);
    var required, used := m.gas - run.gasLeft, 0;
    w2, used := Settle(run.world, m, run.gasLeft, run.refund, pool, coinbase);
    r := Result.Done(required, used, run.error == VmError.Failed);
  }

  /** Refunds the sender and pays the miner for the rest of the gas bought. */
  method Settle(w: World, m: Msg, gas: nat, refundCounter: nat, pool: GasPool, coinbase: Address)
    returns (w2: World, used: nat)
    requires gas <= m.gas <= MAX_UINT64
    modifies pool
    ensures used == m.gas - gas - Least((m.gas - gas) / 2, refundCounter)
    ensures w2 == Paid(Paid(w, m.from, (m.gas - used) * m.price), coinbase, used * m.price)
    ensures pool.gas == old(pool.gas) + m.gas - used
  {
    var left;
    w2, left := RefundGas(w, m, gas, refundCounter, pool);
    used := m.gas - left;
    w2 := Paid(w2, coinbase, used * m.price);
  }

  lemma Shares(used: nat, left: nat, price: nat)
    ensures used * price + left * price == (used + left) * price
  {
  }
}
