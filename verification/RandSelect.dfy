/** The weighted random selection tree (les/randselect.go): an eight-way tree of partial sums that
    stands for a map from items to weights. */
module RandSelect {
  import opened Numbers
  import opened Transactions

  type Item = nat

  const BRANCHES := 8

  datatype Slot = Nil | Leaf(item: Item) | Sub(node: Node)

  datatype Node = Node(level: nat, items: seq<Slot>, weights: seq<nat>, sum: nat, cnt: nat, maxItems: nat)

  // ---- sums ----

  lemma {:induction false} SumUpdate(s: seq<nat>, i: nat, v: nat)
    requires i < |s|
    ensures Sum(s[i := v]) == Sum(s) - s[i] + v
    decreases |s|
  {
    var n := |s| - 1;
    if i < n {
      assert s[i := v][..n] == s[..n][i := v];
      SumUpdate(s[..n], i, v);
    } else {
      assert s[i := v][..n] == s[..n];
    }
  }

  lemma {:induction false} SumPrefix(s: seq<nat>, i: nat, j: nat)
    requires i < j <= |s|
    ensures Sum(s[..i]) + s[i] <= Sum(s[..j])
    decreases j
  {
    assert s[..j][..j - 1] == s[..j - 1];
    if i < j - 1 {
      SumPrefix(s, i, j - 1);
    }
  }

  lemma SumNext(s: seq<nat>, i: nat)
    requires i < |s|
    ensures Sum(s[..i + 1]) == Sum(s[..i]) + s[i]
  {
    assert s[..i + 1][..i] == s[..i];
  }

  // ---- well-formed trees ----

  /** How many items a node of this level can hold. */
  function Cap(level: nat): nat
    ensures Cap(level) >= 8
  {
    if level == 0 then 8 else 8 * Cap(level - 1)
  }

  /** How many items a slot of a node of this level can hold. */
  function SlotCap(level: nat): nat
    ensures SlotCap(level) >= 1 && Cap(level) == 8 * SlotCap(level)
  {
    if level == 0 then 1 else Cap(level - 1)
  }

  function CountIn(s: Slot): nat
  {
    match s
    case Nil => 0
    case Leaf(_) => 1
    case Sub(n) => n.cnt
  }

  ghost function Counts(items: seq<Slot>): nat
  {
    if items == [] then 0 else Counts(items[..|items| - 1]) + CountIn(items[|items| - 1])
  }

  /** Every partial sum and count is exact, all the way down. */
  ghost predicate Valid(n: Node)
    decreases n
  {
    |n.items| == BRANCHES && |n.weights| == BRANCHES && n.maxItems == Cap(n.level) &&
    n.sum == Sum(n.weights) && n.cnt == Counts(n.items) &&
    forall b {:trigger n.items[b]} :: 0 <= b < BRANCHES ==>
      match n.items[b]
      case Nil => n.weights[b] == 0
      case Leaf(_) => n.level == 0 && n.weights[b] > 0
      case Sub(m) => n.level > 0 && m.level == n.level - 1 && Valid(m) && n.weights[b] == m.sum
  }

  lemma {:induction false} CountsUpdate(items: seq<Slot>, i: nat, s: Slot)
    requires i < |items|
    ensures Counts(items[i := s]) == Counts(items) - CountIn(items[i]) + CountIn(s)
    decreases |items|
  {
    var n := |items| - 1;
    if i < n {
      assert items[i := s][..n] == items[..n][i := s];
      CountsUpdate(items[..n], i, s);
    } else {
      assert items[i := s][..n] == items[..n];
    }
  }

  lemma {:induction false} CountsFull(items: seq<Slot>, cap: nat)
    requires forall b {:trigger items[b]} :: 0 <= b < |items| ==> CountIn(items[b]) == cap
    ensures Counts(items) == |items| * cap
  {
    if items != [] {
      CountsFull(items[..|items| - 1], cap);
    }
  }

  // ---- what a tree holds at an index ----

  /** The branch that an index leads to, and the index below it. */
  function Branch(n: Node, i: nat): nat
  {
    i / SlotCap(n.level)
  }

  function Below(n: Node, i: nat): nat
  {
    i % SlotCap(n.level)
  }

  lemma Place(n: Node, b: nat, j: nat)
    requires b < BRANCHES && j < SlotCap(n.level)
    ensures b * SlotCap(n.level) + j < Cap(n.level)
    ensures Branch(n, b * SlotCap(n.level) + j) == b && Below(n, b * SlotCap(n.level) + j) == j
  {
    var c := SlotCap(n.level);
    TimesMonotone(c, b, 7);
    DivUnique(b * c + j, c, b, j);
  }

  lemma {:induction false} TimesMonotone(c: nat, a: nat, b: nat)
    requires a <= b
    ensures c * a <= c * b && a * c <= b * c
    decreases b
  {
    if a < b {
      TimesMonotone(c, a, b - 1);
      assert c * b == c * (b - 1) + c;
    }
  }

  lemma DivUnique(x: nat, c: nat, q: nat, r: nat)
    requires x == q * c + r && r < c
    ensures x / c == q && x % c == r
  {
    var d, e := x / c, x % c;
    assert x == c * d + e && 0 <= e < c;
    assert c * (d + 1) == c * d + c && c * (q + 1) == c * q + c;
    if d < q {
      TimesMonotone(c, d + 1, q);
    } else if q < d {
      TimesMonotone(c, q + 1, d);
    }
  }

  lemma InRange(n: Node, i: nat)
    requires i < Cap(n.level)
    ensures Branch(n, i) < BRANCHES && Below(n, i) < SlotCap(n.level)
    ensures i == Branch(n, i) * SlotCap(n.level) + Below(n, i)
  {
    var c := SlotCap(n.level);
    var d := i / c;
    assert i == c * d + i % c;
    if d >= 8 {
      TimesMonotone(c, 8, d);
    }
  }

  datatype Entry = Entry(item: Item, weight: nat)

  ghost function At(n: Node, i: nat): Option<Entry>
    decreases n
  {
    var b := Branch(n, i);
    if b >= |n.items| || b >= |n.weights| then None
    else
      match n.items[b]
      case Nil => None
      case Leaf(x) => Some(Entry(x, n.weights[b]))
      case Sub(m) => At(m, Below(n, i))
  }

  /** The weights of all entries before index `i`. */
  ghost function Before(n: Node, i: nat): nat
    decreases n
  {
    var b := Branch(n, i);
    if b >= |n.items| || b >= |n.weights| then Sum(n.weights)
    else Sum(n.weights[..b]) + if n.items[b].Sub? then Before(n.items[b].node, Below(n, i)) else 0
  }

  // ---- replacing one slot ----

  ghost predicate SlotOk(level: nat, s: Slot, w: nat)
  {
    match s
    case Nil => w == 0
    case Leaf(_) => level == 0 && w > 0
    case Sub(m) => level > 0 && m.level == level - 1 && Valid(m) && w == m.sum
  }

  ghost predicate Replaced(n: Node, r: Node, b: nat, s: Slot, w: nat)
    requires |n.items| == BRANCHES && |n.weights| == BRANCHES && b < BRANCHES
  {
    r.level == n.level && r.maxItems == n.maxItems && r.items == n.items[b := s] && r.weights == n.weights[b := w] &&
    r.sum + n.weights[b] == n.sum + w && r.cnt + CountIn(n.items[b]) == n.cnt + CountIn(s)
  }

  lemma ReplacedIsValid(n: Node, r: Node, b: nat, s: Slot, w: nat)
    requires Valid(n) && b < BRANCHES && Replaced(n, r, b, s, w) && SlotOk(n.level, s, w)
    ensures Valid(r)
  {
    SumUpdate(n.weights, b, w);
    CountsUpdate(n.items, b, s);
  }

  ghost function SlotAt(s: Slot, w: nat, j: nat): Option<Entry>
  {
    match s
    case Nil => None
    case Leaf(x) => Some(Entry(x, w))
    case Sub(m) => At(m, j)
  }

  lemma ReplacedAt(n: Node, r: Node, b: nat, s: Slot, w: nat, i: nat)
    requires |n.items| == BRANCHES && |n.weights| == BRANCHES && b < BRANCHES && Replaced(n, r, b, s, w)
    requires i < Cap(n.level)
    ensures At(r, i) == if Branch(n, i) == b then SlotAt(s, w, Below(n, i)) else At(n, i)
  {
    InRange(n, i);
  }

  ghost predicate Vacant(n: Node)
  {
    forall i: nat {:trigger At(n, i)} :: i < Cap(n.level) ==> At(n, i) == None
  }

  method Fresh(level: nat) returns (n: Node)
    ensures Valid(n) && n.level == level && n.cnt == 0 && n.sum == 0 && Vacant(n)
  {
    n := Node(level, seq(BRANCHES, _ => Nil), seq(BRANCHES, _ => 0), 0, 0, Cap(level));
    CountsFull(n.items, 0);
    SumZero(n.weights);
    forall i: nat | i < Cap(level) ensures At(n, i) == None {
      InRange(n, i);
    }
  }

  lemma {:induction false} SumZero(s: seq<nat>)
    requires forall i {:trigger s[i]} :: 0 <= i < |s| ==> s[i] == 0
    ensures Sum(s) == 0
  {
    if s != [] {
      SumZero(s[..|s| - 1]);
    }
  }

  /** `r` holds what `n` holds except at index `i`. */
  ghost predicate SetAt(n: Node, r: Node, i: nat, e: Option<Entry>)
  {
    r.level == n.level && i < Cap(n.level) && At(r, i) == e &&
    forall j: nat {:trigger At(r, j)} {:trigger At(n, j)} :: j < Cap(n.level) && j != i ==> At(r, j) == At(n, j)
  }

  /** Index `k` below branch `b` is index `i` of the whole. */
  ghost predicate IsIndex(level: nat, b: nat, k: nat, i: nat)
  {
    i == b * SlotCap(level) + k
  }

  /** A change within branch `b` is a change of the whole at the index that leads there. */
  lemma SetBelow(n: Node, r: Node, b: nat, s: Slot, w: nat, m: Node, k: nat, e: Option<Entry>, i: nat)
    requires |n.items| == BRANCHES && |n.weights| == BRANCHES && b < BRANCHES && n.level > 0 && Replaced(n, r, b, s, w)
    requires s.Sub? && m.level == n.level - 1 && SetAt(m, s.node, k, e) && IsIndex(n.level, b, k, i)
    requires n.items[b] == Sub(m) || (n.items[b] == Nil && Vacant(m))
    ensures SetAt(n, r, i, e)
    ensures At(n, i) == if n.items[b] == Nil then None else At(m, k)
  {
    IndexBelow(n, b, k, i);
    ThisBelow(n, r, b, s, w, m, k, e, i);
    forall j: nat | j < Cap(n.level) && j != i ensures At(r, j) == At(n, j) {
      OtherBelow(n, r, b, s, w, m, k, e, j);
    }
  }

  lemma IndexBelow(n: Node, b: nat, k: nat, i: nat)
    requires b < BRANCHES && k < SlotCap(n.level) && IsIndex(n.level, b, k, i)
    ensures i < Cap(n.level) && Branch(n, i) == b && Below(n, i) == k
  {
    Place(n, b, k);
  }

  lemma ThisBelow(n: Node, r: Node, b: nat, s: Slot, w: nat, m: Node, k: nat, e: Option<Entry>, i: nat)
    requires |n.items| == BRANCHES && |n.weights| == BRANCHES && b < BRANCHES && n.level > 0 && Replaced(n, r, b, s, w)
    requires s.Sub? && m.level == n.level - 1 && SetAt(m, s.node, k, e)
    requires i < Cap(n.level) && Branch(n, i) == b && Below(n, i) == k
    requires n.items[b] == Sub(m) || (n.items[b] == Nil && Vacant(m))
    ensures r.level == n.level && At(r, i) == e
    ensures At(n, i) == if n.items[b] == Nil then None else At(m, k)
  {
    ReplacedAt(n, r, b, s, w, i);
  }

  lemma OtherBelow(n: Node, r: Node, b: nat, s: Slot, w: nat, m: Node, k: nat, e: Option<Entry>, j: nat)
    requires |n.items| == BRANCHES && |n.weights| == BRANCHES && b < BRANCHES && n.level > 0 && Replaced(n, r, b, s, w)
    requires s.Sub? && m.level == n.level - 1 && SetAt(m, s.node, k, e)
    requires n.items[b] == Sub(m) || (n.items[b] == Nil && Vacant(m))
    requires j < Cap(n.level) && j != b * SlotCap(n.level) + k
    ensures At(r, j) == At(n, j)
  {
    InRange(n, j);
    ReplacedAt(n, r, b, s, w, j);
    if Branch(n, j) == b {
      assert At(s.node, Below(n, j)) == At(m, Below(n, j));
    }
  }

  // ---- insert ----

  /** A branch with room: the first that is not full. */
  method FreeBranch(n: Node) returns (b: nat)
    requires Valid(n) && n.cnt < n.maxItems
    ensures b < BRANCHES && (n.items[b] == Nil || (n.items[b].Sub? && n.items[b].node.cnt < n.items[b].node.maxItems))
  {
    b := 0;
    while n.items[b] != Nil && (n.level == 0 || !n.items[b].Sub? || n.items[b].node.cnt == n.items[b].node.maxItems)
      invariant b < BRANCHES
      invariant forall k {:trigger n.items[k]} :: 0 <= k < b ==> CountIn(n.items[k]) == SlotCap(n.level)
      decreases BRANCHES - b
    {
      if b + 1 == BRANCHES {
        CountsFull(n.items, SlotCap(n.level));
        assert false;
      }
      b := b + 1;
    }
    if n.items[b].Sub? {
      CountBound(n.items[b].node);
    }
  }

  /** No node holds more than it can. */
  lemma {:induction false} CountBound(n: Node)
    requires Valid(n)
    ensures n.cnt <= Cap(n.level)
    decreases n
  {
    forall b | 0 <= b < BRANCHES ensures CountIn(n.items[b]) <= SlotCap(n.level) {
      if n.items[b].Sub? {
        CountBound(n.items[b].node);
      }
    }
    CountsAtMost(n.items, SlotCap(n.level));
  }

  lemma {:induction false} CountsAtMost(items: seq<Slot>, cap: nat)
    requires forall b {:trigger items[b]} :: 0 <= b < |items| ==> CountIn(items[b]) <= cap
    ensures Counts(items) <= |items| * cap
  {
    if items != [] {
      var k := |items| - 1;
      CountsAtMost(items[..k], cap);
      assert (k + 1) * cap == k * cap + cap;
    }
  }

  method Insert(n: Node, item: Item, weight: nat) returns (r: Node, idx: nat)
    requires Valid(n) && n.cnt < n.maxItems && weight > 0
    ensures Valid(r) && SetAt(n, r, idx, Some(Entry(item, weight))) && At(n, idx) == None
    ensures r.sum == n.sum + weight && r.cnt == n.cnt + 1
    decreases n.level, 1
  {
    var b := FreeBranch(n);
    r := n.(cnt := n.cnt + 1, sum := n.sum + weight, weights := n.weights[b := n.weights[b] + weight]);
    if n.level == 0 {
      r := r.(items := n.items[b := Leaf(item)]);
      idx := b;
      LeafDone(n, r, b, Leaf(item), weight);
    } else {
      r, idx := InsertBelow(n, r, b, item, weight);
    }
  }

  method InsertBelow(n: Node, counted: Node, b: nat, item: Item, weight: nat) returns (r: Node, idx: nat)
    requires Valid(n) && weight > 0 && n.level > 0
    requires b < BRANCHES && (n.items[b] == Nil || (n.items[b].Sub? && n.items[b].node.cnt < n.items[b].node.maxItems))
    requires counted == n.(cnt := n.cnt + 1, sum := n.sum + weight, weights := n.weights[b := n.weights[b] + weight])
    ensures Valid(r) && SetAt(n, r, idx, Some(Entry(item, weight))) && At(n, idx) == None
    ensures r.sum == n.sum + weight && r.cnt == n.cnt + 1
    decreases n.level, 0
  {
    var sub;
    if n.items[b] == Nil {
      sub := Fresh(n.level - 1);
    } else {
      sub := n.items[b].node;
    }
    var sub2, k := Insert(sub, item, weight);
    r := counted.(items := n.items[b := Sub(sub2)]);
    idx := Index(sub.maxItems, b, k, n.level);
    BelowDone(n, r, b, sub, sub2, k, Some(Entry(item, weight)), idx);
  }

  lemma LeafDone(n: Node, r: Node, b: nat, s: Slot, w: nat)
    requires Valid(n) && n.level == 0 && b < BRANCHES && Replaced(n, r, b, s, w) && SlotOk(0, s, w)
    ensures Valid(r) && SetAt(n, r, b, SlotAt(s, w, 0)) && At(n, b) == SlotAt(n.items[b], n.weights[b], 0)
  {
    ReplacedIsValid(n, r, b, s, w);
    LeafSet(n, r, b, s, w);
  }

  method Index(maxItems: nat, b: nat, k: nat, ghost level: nat) returns (i: nat)
    requires maxItems == SlotCap(level)
    ensures IsIndex(level, b, k, i)
  {
    assert maxItems * b == b * maxItems;
    i := maxItems * b + k;
  }

  lemma BelowDone(n: Node, r: Node, b: nat, m: Node, m2: Node, k: nat, e: Option<Entry>, i: nat)
    requires Valid(n) && n.level > 0 && b < BRANCHES && Valid(m2) && m.level == n.level - 1 && SetAt(m, m2, k, e)
    requires n.items[b] == Sub(m) || (n.items[b] == Nil && Vacant(m))
    requires Replaced(n, r, b, Sub(m2), m2.sum) && IsIndex(n.level, b, k, i)
    ensures Valid(r) && SetAt(n, r, i, e) && At(n, i) == if n.items[b] == Nil then None else At(m, k)
  {
    ReplacedIsValid(n, r, b, Sub(m2), m2.sum);
    SetBelow(n, r, b, Sub(m2), m2.sum, m, k, e, i);
  }

  lemma LeafSet(n: Node, r: Node, b: nat, s: Slot, w: nat)
    requires |n.items| == BRANCHES && |n.weights| == BRANCHES && n.level == 0 && b < BRANCHES
    requires Replaced(n, r, b, s, w) && !s.Sub?
    ensures SetAt(n, r, b, SlotAt(s, w, 0))
  {
    forall j: nat | j < Cap(0) ensures At(r, j) == if j == b then SlotAt(s, w, 0) else At(n, j) {
      ReplacedAt(n, r, b, s, w, j);
    }
  }

  // ---- setWeight ----

  /** Changes the weight at an occupied index; weight zero frees it. */
  method SetWeight(n: Node, idx: nat, weight: nat) returns (r: Node, diff: int)
    requires Valid(n) && idx < Cap(n.level) && At(n, idx).Some?
    ensures Valid(r) && SetAt(n, r, idx, if weight == 0 then None else Some(At(n, idx).value.(weight := weight)))
    ensures diff == weight - At(n, idx).value.weight && r.sum == n.sum + diff
    ensures r.cnt == n.cnt - (if weight == 0 then 1 else 0)
    decreases n.level
  {
    InRange(n, idx);
    if n.level == 0 {
      var slot := if weight == 0 then Nil else n.items[idx];
      diff := weight - n.weights[idx];
      RoomFor(n, idx);
      r := n.(weights := n.weights[idx := weight], sum := n.sum + diff, items := n.items[idx := slot],
              cnt := if weight == 0 then n.cnt - 1 else n.cnt);
      LeafDone(n, r, idx, slot, weight);
    } else {
      var b, k := SplitIndex(n, idx);
      var m := n.items[b].node;
      var m2;
      m2, diff := SetWeight(m, k, weight);
      RoomFor(n, b);
      r := n.(weights := n.weights[b := n.weights[b] + diff], sum := n.sum + diff, items := n.items[b := Sub(m2)],
              cnt := if weight == 0 then n.cnt - 1 else n.cnt);
      BelowDone(n, r, b, m, m2, k, if weight == 0 then None else Some(At(m, k).value.(weight := weight)), idx);
    }
  }

  /** The branch of an index by the node's own capacity, and what is left of it. */
  method SplitIndex(n: Node, idx: nat) returns (b: nat, k: nat)
    requires Valid(n) && n.level > 0 && idx < Cap(n.level)
    ensures b == Branch(n, idx) < BRANCHES && k == Below(n, idx) < SlotCap(n.level) && IsIndex(n.level, b, k, idx)
  {
    InRange(n, idx);
    var branchItems := n.maxItems / BRANCHES;
    b := idx / branchItems;
    k := idx - b * branchItems;
  }

  /** A slot's weight and count are part of the node's. */
  lemma RoomFor(n: Node, b: nat)
    requires Valid(n) && b < BRANCHES
    ensures n.weights[b] <= n.sum && CountIn(n.items[b]) <= n.cnt
  {
    SumUpdate(n.weights, b, 0);
    CountsUpdate(n.items, b, Nil);
  }

  // ---- choose ----

  /** The branch whose share contains `val`, and the value within it. */
  method PickBranch(weights: seq<nat>, val: nat) returns (b: nat, v: nat)
    requires val < Sum(weights)
    ensures b < |weights| && v < weights[b] && v + Sum(weights[..b]) == val
  {
    b, v := 0, val;
    assert weights[..|weights|] == weights;
    while v >= weights[b]
      invariant b < |weights| && v + Sum(weights[..b]) == val
      decreases |weights| - b
    {
      SumNext(weights, b);
      v, b := v - weights[b], b + 1;
    }
  }

  /** Finds the entry whose share of the total contains `val`. */
  method Choose(n: Node, val: nat) returns (e: Entry, ghost idx: nat)
    requires Valid(n) && val < n.sum
    ensures idx < Cap(n.level) && At(n, idx) == Some(e) && Before(n, idx) <= val < Before(n, idx) + e.weight
    decreases n.level
  {
    var b, v := PickBranch(n.weights, val);
    if n.level == 0 {
      e, idx := Entry(n.items[b].item, n.weights[b]), b;
    } else {
      ghost var k;
      e, k := Choose(n.items[b].node, v);
      idx := FoundBelow(n, b, k, e);
    }
  }

  lemma FoundBelow(n: Node, b: nat, k: nat, e: Entry) returns (i: nat)
    requires |n.items| == BRANCHES && |n.weights| == BRANCHES && b < BRANCHES && n.items[b].Sub? && k < SlotCap(n.level)
    requires At(n.items[b].node, k) == Some(e)
    ensures i < Cap(n.level) && At(n, i) == Some(e) && Before(n, i) == Sum(n.weights[..b]) + Before(n.items[b].node, k)
  {
    i := b * SlotCap(n.level) + k;
    Place(n, b, k);
  }

  /** An entry's share lies within the node's total. */
  lemma {:induction false} ShareInside(n: Node, i: nat)
    requires Valid(n) && i < Cap(n.level) && At(n, i).Some?
    ensures Before(n, i) + At(n, i).value.weight <= n.sum && At(n, i).value.weight > 0
    decreases n.level
  {
    InRange(n, i);
    var b := Branch(n, i);
    if n.items[b].Sub? {
      ShareInside(n.items[b].node, Below(n, i));
    }
    assert n.weights[..BRANCHES] == n.weights;
    SumPrefix(n.weights, b, BRANCHES);
  }

  /** Shares of different entries do not overlap. */
  lemma {:induction false} SharesApart(n: Node, i: nat, j: nat)
    requires Valid(n) && i < j < Cap(n.level) && At(n, i).Some?
    ensures Before(n, i) + At(n, i).value.weight <= Before(n, j)
    decreases n.level
  {
    InRange(n, i);
    InRange(n, j);
    var b, c := Branch(n, i), Branch(n, j);
    TimesOrder(b, c, SlotCap(n.level), Below(n, i), Below(n, j));
    if b == c {
      SharesApart(n.items[b].node, Below(n, i), Below(n, j));
    } else {
      if n.items[b].Sub? {
        ShareInside(n.items[b].node, Below(n, i));
      }
      SumPrefix(n.weights, b, c);
    }
  }

  lemma TimesOrder(b: nat, c: nat, w: nat, x: nat, y: nat)
    requires b * w + x < c * w + y && x < w && y < w
    ensures b <= c && (b == c ==> x < y)
  {
    assert (c + 1) * w == c * w + w;
    if c < b {
      TimesMonotone(w, c + 1, b);
    }
  }

  /** An entry is chosen by exactly as many values as it weighs. */
  lemma ChosenExactly(n: Node, val: nat, idx: nat, i: nat)
    requires Valid(n) && idx < Cap(n.level) && At(n, idx).Some?
    requires Before(n, idx) <= val < Before(n, idx) + At(n, idx).value.weight
    requires i < Cap(n.level) && At(n, i).Some?
    ensures i == idx <==> Before(n, i) <= val < Before(n, i) + At(n, i).value.weight
  {
    if i < idx {
      SharesApart(n, i, idx);
    } else if idx < i {
      SharesApart(n, idx, i);
    }
  }
}
