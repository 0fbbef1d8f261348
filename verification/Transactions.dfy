/** Transactions as the pool sees them. */
module Transactions {

  type Address = nat

  /** The fields the pool reads. `payload` stands for everything else that is hashed, so that a
      transaction is determined by its content; the model uses the transaction itself as its
      (collision-free) hash. `cost` is price * gas + value. */
  datatype Tx = Tx(from: Address, nonce: nat, price: nat, gas: nat, cost: nat, payload: nat)

  datatype Option<+T> = None | Some(value: T)

  function NonceOf(tx: Tx): int { tx.nonce }

  function PriceOf(tx: Tx): int { tx.price }

  function Itself(n: nat): int { n }
}

/** Sorting by an integer key, standing for Go's sort.Sort. */
module Sorting {
  import BinaryHeap

  ghost predicate SortedBy<T>(s: seq<T>, key: T -> int)
  {
    forall i, j :: 0 <= i < j < |s| ==> key(s[i]) <= key(s[j])
  }

  method Sort<T>(s: seq<T>, key: T -> int) returns (r: seq<T>)
    ensures SortedBy(r, key) && multiset(r) == multiset(s) && |r| == |s|
  {
    var h := BinaryHeap.Init(s, key);
    r := [];
    while h != []
      invariant BinaryHeap.IsHeap(h, key) && SortedBy(r, key)
      invariant multiset(r) + multiset(h) == multiset(s)
      invariant forall y, z :: y in r && z in h ==> key(y) <= key(z)
      decreases |h|
    {
      var x, rest := BinaryHeap.Pop(h, key);
      assert |multiset(h)| == |multiset(rest)| + 1;
      assert forall z :: z in rest ==> z in multiset(rest) && z in multiset(h);
      h, r := rest, r + [x];
    }
    assert |r| == |multiset(r)| == |multiset(s)|;
  }
}
