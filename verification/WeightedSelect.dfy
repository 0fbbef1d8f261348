/** The selection set around the tree (les/randselect.go): items, their places in the tree, and the
    random choice. */
module WeightedSelect {
  import opened Transactions
  import opened RandSelect
  import opened Traces
  import MapSums

  /** The entries of a tree by their index. */
  ghost function Contents(root: Node): map<nat, RandSelect.Entry>
  {
    map i: nat | i < Cap(root.level) && At(root, i).Some? :: At(root, i).value
  }

  /** Every known item is at its index, and nothing else is there. */
  ghost predicate Indexed(c: map<nat, RandSelect.Entry>, idx: map<Item, nat>)
  {
    (forall x {:trigger x in idx} :: x in idx ==> idx[x] in c && c[idx[x]].item == x) &&
    (forall i {:trigger i in c} :: i in c ==> c[i].item in idx && idx[c[i].item] == i)
  }

  ghost predicate Consistent(root: Node, idx: map<Item, nat>)
  {
    Valid(root) && Indexed(Contents(root), idx)
  }

  ghost function WeightsIn(c: map<nat, RandSelect.Entry>, idx: map<Item, nat>): map<Item, int>
  {
    map x | x in idx :: if idx[x] in c then c[idx[x]].weight else 0
  }

  /** The map from items to weights that the tree stands for. */
  ghost function View(root: Node, idx: map<Item, nat>): map<Item, int>
  {
    WeightsIn(Contents(root), idx)
  }

  ghost predicate Exact(root: Node, idx: map<Item, nat>)
  {
    Consistent(root, idx) && root.sum == MapSums.MapSum(View(root, idx))
  }

  /** A full tree gets a new root above it; every index still leads to the same entry. */
  method AddLevel(root: Node) returns (r: Node)
    requires Valid(root)
    ensures Valid(r) && r.level == root.level + 1 && r.sum == root.sum && r.cnt == root.cnt
    ensures forall i: nat {:trigger At(r, i)} ::
      i < Cap(r.level) ==> At(r, i) == if i < Cap(root.level) then At(root, i) else None
  {
    var f := Fresh(root.level + 1);
    r := f.(items := f.items[0 := Sub(root)], weights := f.weights[0 := root.sum], sum := root.sum, cnt := root.cnt);
    FreshSlots(f);
    ReplacedIsValid(f, r, 0, Sub(root), root.sum);
    forall i: nat | i < Cap(r.level) ensures At(r, i) == if i < Cap(root.level) then At(root, i) else None {
      ReplacedAt(f, r, 0, Sub(root), root.sum, i);
      FirstBranch(f, i);
    }
  }

  /** Nothing is counted or weighed in a node whose totals are zero. */
  lemma FreshSlots(f: Node)
    requires Valid(f) && f.cnt == 0 && f.sum == 0
    ensures CountIn(f.items[0]) == 0 && f.weights[0] == 0
  {
    RoomFor(f, 0);
  }

  lemma FirstBranch(n: Node, i: nat)
    requires n.level > 0 && i < Cap(n.level)
    ensures Branch(n, i) == 0 <==> i < Cap(n.level - 1)
    ensures i < Cap(n.level - 1) ==> Below(n, i) == i
  {
    InRange(n, i);
    if i < Cap(n.level - 1) {
      DivUnique(i, SlotCap(n.level), 0, i);
    }
  }

  lemma LevelKeeps(root: Node, r: Node)
    requires r.level == root.level + 1
    requires forall i: nat {:trigger At(r, i)} ::
      i < Cap(r.level) ==> At(r, i) == if i < Cap(root.level) then At(root, i) else None
    ensures Contents(r) == Contents(root)
  {
    assert Cap(r.level) == 8 * Cap(root.level);
  }

  /** Setting one index changes that entry alone. */
  lemma SetContents(n: Node, r: Node, i: nat, e: Option<RandSelect.Entry>)
    requires SetAt(n, r, i, e)
    ensures Contents(r) == if e.Some? then Contents(n)[i := e.value] else Contents(n) - {i}
  {
  }

  /** Inserting at a free index adds one entry to the map. */
  lemma InsertKeeps(c: map<nat, RandSelect.Entry>, idx: map<Item, nat>, i: nat, item: Item, weight: nat)
    requires Indexed(c, idx) && item !in idx && i !in c
    ensures var c2, idx2 := c[i := RandSelect.Entry(item, weight)], idx[item := i];
            Indexed(c2, idx2) && WeightsIn(c2, idx2) == WeightsIn(c, idx)[item := weight]
  {
  }

  /** Reweighing an item's index changes its entry in the map and no other. */
  lemma ReweighKeeps(c: map<nat, RandSelect.Entry>, idx: map<Item, nat>, item: Item, weight: nat)
    requires Indexed(c, idx) && item in idx
    ensures var c2 := c[idx[item] := RandSelect.Entry(item, weight)];
            Indexed(c2, idx) && WeightsIn(c2, idx) == WeightsIn(c, idx)[item := weight]
  {
  }

  /** And so does freeing it. */
  lemma FreeKeeps(c: map<nat, RandSelect.Entry>, idx: map<Item, nat>, item: Item)
    requires Indexed(c, idx) && item in idx
    ensures var c2, idx2 := c - {idx[item]}, idx - {item};
            Indexed(c2, idx2) && WeightsIn(c2, idx2) == WeightsIn(c, idx) - {item}
  {
  }

  /** The total moves with the entry. */
  lemma TotalMoves(v: map<Item, int>, v2: map<Item, int>, item: Item, weight: nat, sum: int, sum2: int)
    requires sum == MapSums.MapSum(v) && v2 == if weight == 0 then v - {item} else v[item := weight]
    requires sum2 == sum + weight - if item in v then v[item] else 0
    ensures sum2 == MapSums.MapSum(v2)
  {
    if weight > 0 {
      MapSums.MapSumUpdate(v, item, weight);
    } else if item in v {
      MapSums.MapSumRemove(v, item);
    } else {
      assert v2 == v;
    }
  }

  /** A known item. */
  method Reweigh(root: Node, idx: map<Item, nat>, item: Item, weight: nat) returns (r: Node, idx2: map<Item, nat>)
    requires Consistent(root, idx) && item in idx
    ensures Consistent(r, idx2) && r.sum == root.sum + weight - View(root, idx)[item]
    ensures View(r, idx2) == if weight == 0 then View(root, idx) - {item} else View(root, idx)[item := weight]
  {
    ghost var c := Contents(root);
    assert idx[item] in c;
    var diff;
    r, diff := SetWeight(root, idx[item], weight);
    idx2 := idx;
    SetContents(root, r, idx[item], if weight == 0 then None else Some(RandSelect.Entry(item, weight)));
    if weight == 0 {
      idx2 := idx - {item};
      FreeKeeps(c, idx, item);
    } else {
      ReweighKeeps(c, idx, item, weight);
    }
  }

  /** A new item. */
  method AddItem(root: Node, idx: map<Item, nat>, item: Item, weight: nat) returns (r: Node, idx2: map<Item, nat>)
    requires Consistent(root, idx) && item !in idx && weight > 0
    ensures Consistent(r, idx2) && r.sum == root.sum + weight && View(r, idx2) == View(root, idx)[item := weight]
  {
    r := root;
    if root.cnt == root.maxItems {
      r := AddLevel(root);
      LevelKeeps(root, r);
    }
    ghost var roomy := r;
    CountBound(root);
    var i;
    r, i := Insert(r, item, weight);
    idx2 := idx[item := i];
    SetContents(roomy, r, i, Some(RandSelect.Entry(item, weight)));
    InsertKeeps(Contents(roomy), idx, i, item, weight);
  }

  /** Sets an item's weight: zero removes it, an unknown item is inserted. */
  method SetItem(root: Node, idx: map<Item, nat>, item: Item, weight: nat) returns (r: Node, idx2: map<Item, nat>)
    requires Exact(root, idx)
    ensures Exact(r, idx2)
    ensures View(r, idx2) == if weight == 0 then View(root, idx) - {item} else View(root, idx)[item := weight]
    ensures r.sum == root.sum + weight - if item in idx then View(root, idx)[item] else 0
  {
    r, idx2 := root, idx;
    if item in idx {
      r, idx2 := Reweigh(root, idx, item, weight);
    } else if weight != 0 {
      r, idx2 := AddItem(root, idx, item, weight);
    } else {
      assert View(root, idx) - {item} == View(root, idx);
    }
    TotalMoves(View(root, idx), View(r, idx2), item, weight, root.sum, r.sum);
  }

  // ---- the random choice ----

  /** The values below the total that lead to item `x`. */
  ghost function Share(root: Node, idx: map<Item, nat>, x: Item): set<nat>
    requires x in idx
  {
    Range(root.sum, Before(root, idx[x]), View(root, idx)[x])
  }

  predicate Within(v: nat, start: int, size: int)
  {
    start <= v < start + size
  }

  function Range(total: nat, start: int, size: int): set<nat>
  {
    set v: nat | v < total && Within(v, start, size)
  }

  /** An item is chosen by exactly as many values as it weighs. */
  lemma ShareIsWeight(root: Node, idx: map<Item, nat>, x: Item)
    requires Exact(root, idx) && x in idx
    ensures |Share(root, idx, x)| == View(root, idx)[x]
  {
    assert idx[x] in Contents(root);
    ShareInside(root, idx[x]);
    RangeSize(root.sum, Before(root, idx[x]), View(root, idx)[x]);
  }

  lemma {:induction false} RangeSize(total: nat, start: nat, size: nat)
    requires start + size <= total
    ensures |Range(total, start, size)| == size
  {
    if size == 0 {
      assert Range(total, start, size) == {};
    } else {
      RangeSize(total, start, size - 1);
      assert Range(total, start, size) == Range(total, start, size - 1) + {start + size - 1};
    }
  }

  /** One draw: value `val` chooses the item that it is a share of, and no other. */
  method Draw(root: Node, idx: map<Item, nat>, val: nat) returns (item: Item, last: nat)
    requires Exact(root, idx) && val < root.sum
    ensures item in idx && View(root, idx)[item] == last && last > 0
    ensures forall x {:trigger Share(root, idx, x)} :: x in idx ==> (x == item <==> val in Share(root, idx, x))
  {
    var e;
    ghost var i;
    e, i := Choose(root, val);
    item, last := e.item, e.weight;
    assert i in Contents(root);
    ShareInside(root, i);
    forall x | x in idx ensures x == item <==> val in Share(root, idx, x) {
      assert idx[x] in Contents(root);
      ChosenExactly(root, val, i, idx[x]);
    }
  }

  lemma AllWeigh(root: Node, idx: map<Item, nat>)
    requires Consistent(root, idx)
    ensures forall x {:trigger x in View(root, idx)} :: x in View(root, idx) ==> View(root, idx)[x] > 0
  {
    forall x | x in idx ensures View(root, idx)[x] > 0 {
      assert idx[x] in Contents(root);
      ShareInside(root, idx[x]);
    }
  }

  lemma NothingLeft(root: Node, idx: map<Item, nat>)
    requires Exact(root, idx) && root.sum == 0
    ensures View(root, idx) == map[]
  {
    AllWeigh(root, idx);
    MapSums.MapSumNonNegative(View(root, idx));
  }

  /** The weights that items report, which may fall from one draw to the next. */
  type Weights = (nat, Item) -> nat

  /** The item reported this weight in one of the first `rounds` draws. */
  ghost predicate Reported(weightAt: Weights, rounds: nat, x: Item, weight: int)
  {
    exists k: nat {:trigger weightAt(k, x)} :: k < rounds && weightAt(k, x) == weight
  }

  /** An item keeps its weight or has been brought up to date, and is gone only if it was weightless. */
  ghost predicate RefreshedAt(v: map<Item, int>, w: map<Item, int>, weightAt: Weights, rounds: nat, x: Item)
  {
    (x in w ==> x in v && (w[x] == v[x] || Reported(weightAt, rounds, x, w[x]))) &&
    (x in v ==> x in w || Reported(weightAt, rounds, x, 0))
  }

  ghost predicate Refreshed(v: map<Item, int>, w: map<Item, int>, weightAt: Weights, rounds: nat)
  {
    forall x {:trigger RefreshedAt(v, w, weightAt, rounds, x)} :: RefreshedAt(v, w, weightAt, rounds, x)
  }

  lemma RefreshedOnce(u: map<Item, int>, v: map<Item, int>, w: map<Item, int>, item: Item, weightAt: Weights,
                      round: nat)
    requires Refreshed(u, v, weightAt, round) && item in v
    requires var weight := weightAt(round, item); w == if weight == 0 then v - {item} else v[item := weight]
    ensures Refreshed(u, w, weightAt, round + 1) && item in u
  {
    assert RefreshedAt(u, v, weightAt, round, item);
    assert Reported(weightAt, round + 1, item, weightAt(round, item));
    var next := round + 1;
    forall x ensures RefreshedAt(u, w, weightAt, next, x) {
      assert RefreshedAt(u, v, weightAt, round, x);
      assert x != item && x in w ==> w[x] == v[x];
    }
  }

  /** The random numbers: a value below a bound for each round. */
  type Dice = (nat, nat) -> nat

  ghost predicate Bounded(dice: Dice)
  {
    forall k, bound {:trigger dice(k, bound)} :: bound > 0 ==> dice(k, bound) < bound
  }

  /** An item passes whose weight has not fallen from `last`, or by a second value below its weight. */
  predicate Passes(last: nat, weight: nat, luck: nat)
  {
    weight >= last || luck < weight
  }

  ghost function Passing(last: nat, weight: nat): set<nat>
  {
    set luck: nat | luck < last && Passes(last, weight, luck)
  }

  /** The pairs of values by which a round returns item `x`. */
  ghost function Returning(root: Node, idx: map<Item, nat>, x: Item, weight: nat): set<(nat, nat)>
    requires Exact(root, idx) && x in idx
  {
    WeightIsPositive(root, idx, x);
    set v, luck | v in Share(root, idx, x) && luck in Passing(View(root, idx)[x], weight) :: (v, luck)
  }

  lemma WeightIsPositive(root: Node, idx: map<Item, nat>, x: Item)
    requires Exact(root, idx) && x in idx
    ensures View(root, idx)[x] > 0
  {
    AllWeigh(root, idx);
    assert x in View(root, idx);
  }

  /** An item passes by its whole share if its weight has not fallen, and else by its new weight out of the old. */
  lemma PassingSize(last: nat, weight: nat)
    ensures |Passing(last, weight)| == if weight < last then weight else last
  {
    var size := if weight < last then weight else last;
    RangeSize(last, 0, size);
    forall luck: nat ensures luck in Passing(last, weight) <==> luck in Range(last, 0, size) {
      assert Within(luck, 0, size) <==> luck < size;
      assert luck < last ==> (Passes(last, weight, luck) <==> luck < size);
    }
    assert Passing(last, weight) == Range(last, 0, size);
  }

  ghost function Pairs(a: set<nat>, b: set<nat>): set<(nat, nat)>
  {
    set x, y | x in a && y in b :: (x, y)
  }

  lemma {:induction false} RowSize(x: nat, b: set<nat>)
    ensures |Pairs({x}, b)| == |b|
    decreases b
  {
    if b == {} {
      assert Pairs({x}, b) == {};
    } else {
      var y :| y in b;
      RowSize(x, b - {y});
      assert Pairs({x}, b) == Pairs({x}, b - {y}) + {(x, y)};
    }
  }

  lemma {:induction false} PairsSize(a: set<nat>, b: set<nat>)
    ensures |Pairs(a, b)| == |a| * |b|
    decreases a
  {
    if a == {} {
      assert Pairs(a, b) == {};
    } else {
      var x :| x in a;
      PairsSize(a - {x}, b);
      RowSize(x, b);
      OneRowMore(a, x, b);
      Distributes(|a|, |b|);
    }
  }

  lemma OneRowMore(a: set<nat>, x: nat, b: set<nat>)
    requires x in a
    ensures |Pairs(a, b)| == |Pairs(a - {x}, b)| + |Pairs({x}, b)|
  {
    assert Pairs(a, b) == Pairs(a - {x}, b) + Pairs({x}, b);
    assert Pairs(a - {x}, b) !! Pairs({x}, b);
  }

  lemma Distributes(a: int, b: int)
    ensures a * b == (a - 1) * b + b
  {
  }

  /** Of the pairs of values, one below the total and one below the item's stored weight, as many return the item as
      that weight times the new one, or times itself if the weight has not fallen. */
  lemma ReturningSize(root: Node, idx: map<Item, nat>, x: Item, weight: nat)
    requires Exact(root, idx) && x in idx
    ensures var last := View(root, idx)[x];
            |Returning(root, idx, x, weight)| == last * (if weight < last then weight else last) &&
            forall v, luck :: (v, luck) in Returning(root, idx, x, weight) ==> v < root.sum && luck < last
  {
    var last := View(root, idx)[x];
    WeightIsPositive(root, idx, x);
    ShareIsWeight(root, idx, x);
    PassingSize(last, weight);
    PairsSize(Share(root, idx, x), Passing(last, weight));
    assert Returning(root, idx, x, weight) == Pairs(Share(root, idx, x), Passing(last, weight));
  }

  /** A selection between two rounds. */
  datatype Turn = Turn(root: Node, idx: map<Item, nat>)

  /** What a round drew, and whether it returned the item. */
  datatype Spin = Spin(round: nat, item: Item, accepted: bool)

  /** The weights that items report and the random numbers of the rounds. */
  datatype Luck = Luck(weightAt: Weights, first: Dice, second: Dice)

  /** The two values of a round, the second one below the stored weight of item `x`. */
  ghost function ValuesFor(t: Turn, round: nat, x: Item, luck: Luck): (nat, nat)
    requires Exact(t.root, t.idx) && x in t.idx
  {
    WeightIsPositive(t.root, t.idx, x);
    (luck.first(round, t.root.sum), luck.second(round, View(t.root, t.idx)[x]))
  }

  /** One round: the item whose share the first value is in is brought up to date, and returned if its weight has
      not fallen or the second value is below it. */
  ghost predicate Spun(t: Turn, s: Spin, t2: Turn, luck: Luck)
  {
    Exact(t.root, t.idx) && Exact(t2.root, t2.idx) && t.root.sum > 0 && s.item in t.idx &&
    luck.first(s.round, t.root.sum) in Share(t.root, t.idx, s.item) &&
    var v, weight := View(t.root, t.idx), luck.weightAt(s.round, s.item);
    v[s.item] > 0 && (s.accepted <==> Passes(v[s.item], weight, luck.second(s.round, v[s.item]))) &&
    View(t2.root, t2.idx) == if weight == 0 then v - {s.item} else v[s.item := weight]
  }

  /** A round returns an item exactly by the pairs of values that are counted in `ReturningSize`. */
  lemma ReturnedBy(t: Turn, s: Spin, t2: Turn, luck: Luck, x: Item)
    requires Spun(t, s, t2, luck) && Bounded(luck.first) && Bounded(luck.second) && x in t.idx
    ensures s.accepted && s.item == x <==>
            ValuesFor(t, s.round, x, luck) in Returning(t.root, t.idx, x, luck.weightAt(s.round, x))
  {
    WeightIsPositive(t.root, t.idx, x);
    OneShare(t, luck.first(s.round, t.root.sum), s.item, x);
    var last := View(t.root, t.idx)[x];
    var second := luck.second(s.round, last);
    assert second in Passing(last, luck.weightAt(s.round, x)) <==> Passes(last, luck.weightAt(s.round, x), second);
  }

  /** A value is in one share only. */
  lemma OneShare(t: Turn, val: nat, x: Item, y: Item)
    requires Exact(t.root, t.idx) && val < t.root.sum && x in t.idx && y in t.idx && val in Share(t.root, t.idx, x)
    ensures val in Share(t.root, t.idx, y) <==> x == y
  {
    assert t.idx[x] in Contents(t.root) && t.idx[y] in Contents(t.root);
    ChosenExactly(t.root, val, t.idx[x], t.idx[y]);
  }

  ghost function SpunBy(luck: Luck): (Turn, Spin, Turn) -> bool
  {
    (t, s, t2) => Spun(t, s, t2, luck)
  }

  /** One round: draw an item and bring its weight up to date. A drawn item whose weight has fallen is
      accepted only with the matching chance. */
  method Round(root: Node, idx: map<Item, nat>, luck: Luck, round: nat)
    returns (r: Node, idx2: map<Item, nat>, item: Item, accepted: bool)
    requires Exact(root, idx) && root.sum > 0 && Bounded(luck.first) && Bounded(luck.second)
    ensures Spun(Turn(root, idx), Spin(round, item, accepted), Turn(r, idx2), luck)
    ensures !accepted ==> r.sum < root.sum
    ensures accepted ==> luck.weightAt(round, item) > 0
  {
    var val := luck.first(round, root.sum);
    var last;
    item, last := Draw(root, idx, val);
    var weight := luck.weightAt(round, item);
    r, idx2 := root, idx;
    if weight != last {
      r, idx2 := SetItem(root, idx, item, weight);
    } else {
      assert View(root, idx)[item := weight] == View(root, idx);
    }
    accepted := weight >= last || luck.second(round, last) < weight;
  }

  /** The rounds are numbered, and only the last one can have returned its item. */
  ghost predicate Rounds(spins: seq<Spin>, choice: Option<Item>)
  {
    (forall i {:trigger spins[i]} :: 0 <= i < |spins| ==>
       spins[i].round == i && (spins[i].accepted <==> i == |spins| - 1 && choice.Some?)) &&
    (choice.Some? ==> spins != [] && choice.value == spins[|spins| - 1].item)
  }

  /** What a round does. */
  type Rule = (Turn, Spin, Turn) -> bool

  /** One more round, whatever a round does. */
  lemma SpinMore(turns: seq<Turn>, spins: seq<Spin>, t: Turn, s: Spin, rule: Rule)
    requires Follows(turns, spins, rule) && Rounds(spins, None) && s.round == |spins| && rule(turns[|spins|], s, t)
    ensures Follows(turns + [t], spins + [s], rule)
    ensures Rounds(spins + [s], if s.accepted then Some(s.item) else None)
  {
    var more := spins + [s];
    assert more[..|spins|] == spins && more[..|spins| + 1] == more;
    FollowsMore(turns, more, |spins|, t, rule);
  }

  /** Where the choice stands after some rounds. */
  ghost predicate Going(start: Turn, luck: Luck, rule: Rule, t: Turn, choice: Option<Item>, turns: seq<Turn>,
                        spins: seq<Spin>)
  {
    Follows(turns, spins, rule) && Rounds(spins, choice) && turns[0] == start && turns[|spins|] == t &&
    Booked(start, luck, t, choice, |spins|)
  }

  /** The weights after that many rounds, and that of the item that was returned. */
  ghost predicate Booked(start: Turn, luck: Luck, t: Turn, choice: Option<Item>, rounds: nat)
  {
    Exact(start.root, start.idx) && Exact(t.root, t.idx) &&
    Refreshed(View(start.root, start.idx), View(t.root, t.idx), luck.weightAt, rounds) &&
    (choice.Some? ==>
       rounds > 0 && choice.value in View(start.root, start.idx) && choice.value in View(t.root, t.idx) &&
       View(t.root, t.idx)[choice.value] == luck.weightAt(rounds - 1, choice.value) > 0)
  }

  type Stage = (Turn, Option<Item>, seq<Turn>, seq<Spin>) -> bool

  ghost predicate Tells(stage: Stage, start: Turn, luck: Luck, rule: Rule)
  {
    (forall t, choice, turns, spins {:trigger Going(start, luck, rule, t, choice, turns, spins)} ::
       stage(t, choice, turns, spins) <==> Going(start, luck, rule, t, choice, turns, spins)) && Covers(rule, luck)
  }

  /** Every round keeps the rule. */
  ghost predicate Covers(rule: Rule, luck: Luck)
  {
    forall t, s, t2 {:trigger Spun(t, s, t2, luck)} :: Spun(t, s, t2, luck) ==> rule(t, s, t2)
  }

  lemma BooksGoOn(start: Turn, luck: Luck, t: Turn, t2: Turn, s: Spin, choice: Option<Item>)
    requires Booked(start, luck, t, None, s.round) && Spun(t, s, t2, luck)
    requires s.accepted ==> luck.weightAt(s.round, s.item) > 0
    requires choice == if s.accepted then Some(s.item) else None
    ensures Booked(start, luck, t2, choice, s.round + 1)
  {
    RefreshedOnce(View(start.root, start.idx), View(t.root, t.idx), View(t2.root, t2.idx), s.item, luck.weightAt,
      s.round);
  }

  lemma StageIsBooked(start: Turn, luck: Luck, rule: Rule, t: Turn, choice: Option<Item>, turns: seq<Turn>,
                      spins: seq<Spin>, stage: Stage)
    requires Tells(stage, start, luck, rule) && stage(t, choice, turns, spins)
    ensures Booked(start, luck, t, choice, |spins|)
  {
    assert Going(start, luck, rule, t, choice, turns, spins);
  }

  lemma StageFollows(start: Turn, luck: Luck, rule: Rule, t: Turn, choice: Option<Item>, turns: seq<Turn>,
                     spins: seq<Spin>, stage: Stage)
    requires Tells(stage, start, luck, rule) && stage(t, choice, turns, spins)
    ensures Follows(turns, spins, rule) && Rounds(spins, choice) && turns[0] == start && turns[|spins|] == t
  {
    assert Going(start, luck, rule, t, choice, turns, spins);
  }

  lemma NextStage(start: Turn, luck: Luck, rule: Rule, t: Turn, turns: seq<Turn>, spins: seq<Spin>, t2: Turn, s: Spin,
                  choice: Option<Item>, stage: Stage)
    requires Tells(stage, start, luck, rule) && stage(t, None, turns, spins) && rule(t, s, t2) && s.round == |spins|
    requires choice == (if s.accepted then Some(s.item) else None) && Booked(start, luck, t2, choice, |spins| + 1)
    ensures stage(t2, choice, turns + [t2], spins + [s])
  {
    assert Going(start, luck, rule, t, None, turns, spins);
    GoesOn(start, luck, rule, t, turns, spins, t2, s, choice);
  }

  ghost function StageOf(start: Turn, luck: Luck, rule: Rule): Stage
  {
    (t, choice, turns, spins) => Going(start, luck, rule, t, choice, turns, spins)
  }

  lemma StageTells(start: Turn, luck: Luck)
    ensures Tells(StageOf(start, luck, SpunBy(luck)), start, luck, SpunBy(luck))
  {
  }

  lemma FirstStage(start: Turn, luck: Luck, rule: Rule)
    requires Exact(start.root, start.idx)
    ensures StageOf(start, luck, rule)(start, None, [start], [])
  {
    assert Going(start, luck, rule, start, None, [start], []);
  }

  lemma GoesOn(start: Turn, luck: Luck, rule: Rule, t: Turn, turns: seq<Turn>, spins: seq<Spin>, t2: Turn, s: Spin,
               choice: Option<Item>)
    requires Going(start, luck, rule, t, None, turns, spins) && rule(t, s, t2) && s.round == |spins|
    requires choice == (if s.accepted then Some(s.item) else None) && Booked(start, luck, t2, choice, |spins| + 1)
    ensures Going(start, luck, rule, t2, choice, turns + [t2], spins + [s])
  {
    SpinMore(turns, spins, t2, s, rule);
    assert (turns + [t2])[0] == turns[0] && (turns + [t2])[|spins + [s]|] == t2;
  }

  /** A round as the next stage of a choice that has returned nothing so far. */
  lemma AfterRound(start: Turn, luck: Luck, rule: Rule, t: Turn, turns: seq<Turn>, spins: seq<Spin>, t2: Turn, s: Spin,
                   choice: Option<Item>, stage: Stage)
    requires Tells(stage, start, luck, rule) && stage(t, None, turns, spins) && Spun(t, s, t2, luck)
    requires s.round == |spins| && (s.accepted ==> luck.weightAt(s.round, s.item) > 0)
    requires choice == if s.accepted then Some(s.item) else None
    ensures stage(t2, choice, turns + [t2], spins + [s])
  {
    StageIsBooked(start, luck, rule, t, None, turns, spins, stage);
    BooksGoOn(start, luck, t, t2, s, choice);
    NextStage(start, luck, rule, t, turns, spins, t2, s, choice, stage);
  }

  lemma StageIsExact(start: Turn, luck: Luck, rule: Rule, t: Turn, turns: seq<Turn>, spins: seq<Spin>, stage: Stage)
    requires Tells(stage, start, luck, rule) && stage(t, None, turns, spins)
    ensures Exact(t.root, t.idx)
  {
    StageIsBooked(start, luck, rule, t, None, turns, spins, stage);
  }

  method NextRound(ghost start: Turn, root: Node, idx: map<Item, nat>, luck: Luck, round: nat, ghost turns: seq<Turn>,
                   ghost spins: seq<Spin>, ghost rule: Rule, ghost stage: Stage)
    returns (r: Node, idx2: map<Item, nat>, choice: Option<Item>, ghost turns2: seq<Turn>, ghost spins2: seq<Spin>)
    requires Bounded(luck.first) && Bounded(luck.second) && Tells(stage, start, luck, rule) && root.sum > 0
    requires stage(Turn(root, idx), None, turns, spins) && |spins| == round
    ensures stage(Turn(r, idx2), choice, turns2, spins2) && |spins2| == round + 1
    ensures choice.None? ==> r.sum < root.sum
  {
    StageIsExact(start, luck, rule, Turn(root, idx), turns, spins, stage);
    var item, accepted;
    r, idx2, item, accepted := Round(root, idx, luck, round);
    choice := if accepted then Some(item) else None;
    ghost var s := Spin(round, item, accepted);
    AfterRound(start, luck, rule, Turn(root, idx), turns, spins, Turn(r, idx2), s, choice, stage);
    turns2, spins2 := turns + [Turn(r, idx2)], spins + [s];
  }

  /** Draws until an item is accepted; the total falls each time round. */
  method ChooseItem(root: Node, idx: map<Item, nat>, luck: Luck)
    returns (r: Node, idx2: map<Item, nat>, choice: Option<Item>, rounds: nat, ghost turns: seq<Turn>,
             ghost spins: seq<Spin>)
    requires Exact(root, idx) && Bounded(luck.first) && Bounded(luck.second)
    ensures Follows(turns, spins, SpunBy(luck)) && Rounds(spins, choice) && |spins| == rounds
    ensures turns[0] == Turn(root, idx) && turns[rounds] == Turn(r, idx2)
    ensures Exact(r, idx2) && Refreshed(View(root, idx), View(r, idx2), luck.weightAt, rounds)
    ensures choice.None? ==> View(r, idx2) == map[]
    ensures choice.Some? ==> rounds > 0 && choice.value in View(root, idx) && choice.value in View(r, idx2)
    ensures choice.Some? ==> View(r, idx2)[choice.value] == luck.weightAt(rounds - 1, choice.value) > 0
  {
    ghost var start := Turn(root, idx);
    ghost var rule := SpunBy(luck);
    ghost var stage := StageOf(start, luck, rule);
    StageTells(start, luck);
    FirstStage(start, luck, rule);
    r, idx2, choice, rounds, turns, spins := ChooseBy(root, idx, luck, start, rule, stage);
    StageIsBooked(start, luck, rule, Turn(r, idx2), choice, turns, spins, stage);
    StageFollows(start, luck, rule, Turn(r, idx2), choice, turns, spins, stage);
    if choice.None? {
      NothingLeft(r, idx2);
    }
  }

  method ChooseBy(root: Node, idx: map<Item, nat>, luck: Luck, ghost start: Turn, ghost rule: Rule, ghost stage: Stage)
    returns (r: Node, idx2: map<Item, nat>, choice: Option<Item>, rounds: nat, ghost turns: seq<Turn>,
             ghost spins: seq<Spin>)
    requires Bounded(luck.first) && Bounded(luck.second) && Tells(stage, start, luck, rule)
    requires start == Turn(root, idx) && stage(start, None, [start], [])
    ensures stage(Turn(r, idx2), choice, turns, spins) && |spins| == rounds && (choice.None? ==> r.sum == 0)
  {
    r, idx2, rounds, choice, turns, spins := root, idx, 0, None, [start], [];
    while r.sum != 0
      invariant stage(Turn(r, idx2), choice, turns, spins) && |spins| == rounds && choice.None?
      decreases r.sum
    {
      r, idx2, choice, turns, spins := NextRound(start, r, idx2, luck, rounds, turns, spins, rule, stage);
      rounds := rounds + 1;
      if choice.Some? {
        return;
      }
    }
  }

  class WeightedRandomSelect {
    var root: Node
    var idx: map<Item, nat>

    constructor ()
      ensures Exact(root, idx) && View(root, idx) == map[]
    {
      var n := Fresh(0);
      root, idx := n, map[];
      new;
      EmptyIsExact(n);
    }

    /** update and remove: the new weight is stored, zero forgets the item. */
    method Update(item: Item, weight: nat)
      requires Exact(root, idx)
      modifies this
      ensures Exact(root, idx)
      ensures View(root, idx) == if weight == 0 then old(View(root, idx)) - {item}
        else old(View(root, idx))[item := weight]
    {
      root, idx := SetItem(root, idx, item, weight);
    }

    method Pick(luck: Luck)
      returns (choice: Option<Item>, rounds: nat, ghost turns: seq<Turn>, ghost spins: seq<Spin>)
      requires Exact(root, idx) && Bounded(luck.first) && Bounded(luck.second)
      modifies this
      ensures Follows(turns, spins, SpunBy(luck)) && Rounds(spins, choice) && |spins| == rounds
      ensures turns[0] == old(Turn(root, idx)) && turns[rounds] == Turn(root, idx)
      ensures Exact(root, idx) && Refreshed(old(View(root, idx)), View(root, idx), luck.weightAt, rounds)
      ensures choice.None? ==> View(root, idx) == map[]
      ensures choice.Some? ==> rounds > 0 && choice.value in old(View(root, idx)) && choice.value in View(root, idx)
      ensures choice.Some? ==> View(root, idx)[choice.value] == luck.weightAt(rounds - 1, choice.value) > 0
    {
      root, idx, choice, rounds, turns, spins := ChooseItem(root, idx, luck);
    }
  }

  lemma EmptyIsExact(n: Node)
    requires Valid(n) && n.sum == 0 && Vacant(n)
    ensures Exact(n, map[]) && View(n, map[]) == map[]
  {
    forall i: nat ensures i !in Contents(n) {
      assert i < Cap(n.level) ==> At(n, i) == None;
    }
    assert View(n, map[]) == map[];
  }
}
