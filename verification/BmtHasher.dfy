/** The concurrent tree hasher on a full chunk (bmt/bmt.go): one goroutine for each leaf section, every
    shared access one step, any interleaving. */
module BmtHasher {
  import opened Bmt
  import opened Numbers

  /** A node as the source numbers it: its level from the root and its index in that level. */
  datatype Node = Node(level: nat, index: nat)

  function Parent(c: Node): Node
    requires c.level > 0
  {
    Node(c.level - 1, c.index / 2)
  }

  predicate IsLeft(c: Node)
  {
    c.index % 2 == 0
  }

  function Child(n: Node, right: bool): Node
  {
    Node(n.level + 1, 2 * n.index + if right then 1 else 0)
  }

  /** The node hangs below the root. */
  predicate InTree(c: Node)
    decreases c.level
  {
    if c.level == 0 then c.index == 0 else InTree(Parent(c))
  }

  lemma {:induction false} InTreeIs(c: Node)
    ensures InTree(c) <==> c.index < Pow2(c.level)
    decreases c.level
  {
    if c.level > 0 {
      InTreeIs(Parent(c));
    }
  }

  /** The other child of the same parent. */
  function Sibling(c: Node): Node
    requires c.level > 0
  {
    Child(Parent(c), IsLeft(c))
  }

  lemma Family(c: Node)
    requires c.level > 0
    ensures Sibling(c) != c && Child(Parent(c), !IsLeft(c)) == c
    ensures Parent(Sibling(c)) == Parent(c) && IsLeft(Sibling(c)) == !IsLeft(c)
  {
  }

  // ---- what each node should hash to ----

  ghost function Half<T>(s: seq<T>, left: bool): seq<T>
  {
    if left then s[..|s| / 2] else s[|s| / 2..]
  }

  /** The part of the chunk below a node. */
  ghost function Part(d: Bytes, c: Node): Bytes
    decreases c.level
  {
    if c.level == 0 then d else Half(Part(d, Parent(c)), IsLeft(c))
  }

  /** The hash that belongs at a node of a tree of the given depth. */
  ghost function Expected(H: Bytes -> Bytes, d: Bytes, depth: nat, c: Node): Bytes
  {
    Perfect(H, Part(d, c), if c.level < depth then depth - c.level else 0)
  }

  lemma ExpectedFromChildren(H: Bytes -> Bytes, d: Bytes, depth: nat, n: Node)
    requires n.level < depth
    ensures Expected(H, d, depth, n) ==
      H(Expected(H, d, depth, Child(n, false)) + Expected(H, d, depth, Child(n, true)))
  {
    assert Parent(Child(n, false)) == n && Parent(Child(n, true)) == n;
    assert IsLeft(Child(n, false)) && !IsLeft(Child(n, true));
  }

  // ---- the state machine ----

  /** Where a leaf's goroutine is: before hashing its section, about to write the value of node `at`
      into the parent, about to toggle the parent, second there and about to hash it, or finished. */
  datatype Pc = Ready | Carry(at: Node, value: Bytes) | Wrote(at: Node) | Second(at: Node) | Exited | Sent

  /** Where finalise is on its way from the last leaf to the root; `fromLeft` is what it is about to write
      into the node. */
  datatype Walk = Unstarted | Walking(at: Node, fromLeft: bool) | Walked

  datatype State = State(pcs: seq<Pc>, left: map<Node, Bytes>, right: map<Node, Bytes>,
                         toggles: map<Node, nat>, unbalanced: set<Node>, walk: Walk, result: seq<Bytes>)

  function Held(m: map<Node, Bytes>, n: Node): Bytes
  {
    if n in m then m[n] else []
  }

  function Count(m: map<Node, nat>, n: Node): nat
  {
    if n in m then m[n] else 0
  }

  /** The nodes on the path from the last leaf to the root. */
  predicate Rightmost(c: Node)
    decreases c.level
  {
    if c.level == 0 then c.index == 0 else !IsLeft(c) && Rightmost(Parent(c))
  }

  lemma {:induction false} RightmostIs(c: Node)
    ensures Rightmost(c) <==> c.index + 1 == Pow2(c.level)
    decreases c.level
  {
    if c.level > 0 {
      RightmostIs(Parent(c));
    }
  }

  /** A goroutine can take a step; the last leaf's is started only after finalise. */
  predicate Enabled(s: State, i: nat)
  {
    i < |s.pcs| && s.pcs[i] != Exited && s.pcs[i] != Sent &&
    (s.pcs[i] == Ready && i == |s.pcs| - 1 ==> s.walk == Walked)
  }

  /** One step of goroutine `i`. `sections` are the leaf sections of the chunk. */
  function Step(H: Bytes -> Bytes, depth: nat, sections: seq<Bytes>, s: State, i: nat): State
    requires Enabled(s, i) && |sections| == |s.pcs|
    requires s.pcs[i].Carry? || s.pcs[i].Wrote? || s.pcs[i].Second? ==> s.pcs[i].at.level > 0
  {
    match s.pcs[i]
    case Ready => s.(pcs := s.pcs[i := Carry(Node(depth, i), H(sections[i]))])
    case Carry(c, v) =>
      var n := Parent(c);
      if IsLeft(c) then s.(left := s.left[n := v], pcs := s.pcs[i := Wrote(c)])
      else s.(right := s.right[n := v], pcs := s.pcs[i := Wrote(c)])
    case Wrote(c) =>
      var n := Parent(c);
      var t := Count(s.toggles, n) + 1;
      if n in s.unbalanced then s.(pcs := s.pcs[i := Second(c)])
      else s.(toggles := s.toggles[n := t], pcs := s.pcs[i := if t % 2 == 1 then Exited else Second(c)])
    case Second(c) =>
      var n := Parent(c);
      var both := Held(s.left, n) + Held(s.right, n);
      var v := if n in s.unbalanced && IsLeft(c) then both else H(both);
      if n.level == 0 then s.(result := s.result + [v], pcs := s.pcs[i := Sent])
      else s.(pcs := s.pcs[i := Carry(n, v)])
    case _ => s
  }

  /** One step of finalise, which takes no lock: from the last leaf's parent to the root it sets each
      node's balance mark and clears its right value. */
  function WalkStep(depth: nat, s: State): State
    requires depth > 0 && s.pcs != [] && (s.walk.Walking? ==> InTree(s.walk.at))
  {
    match s.walk
    case Unstarted =>
      var last := Node(depth, |s.pcs| - 1);
      s.(walk := Walking(Parent(last), IsLeft(last)))
    case Walking(n, fromLeft) =>
      s.(unbalanced := if fromLeft then s.unbalanced + {n} else s.unbalanced - {n},
         right := s.right - {n},
         walk := if n.index == 0 then Walked else Walking(Parent(n), IsLeft(n)))
    case Walked => s
  }

  // ---- the invariant ----

  /** How far the value of a node has come; `who` is the goroutine that has it. */
  datatype Phase = Idle | Carried(who: nat) | Written(who: nat) | Hashing(who: nat) | Out | Passed

  type Phases = map<Node, Phase>

  ghost function PhaseOf(ph: Phases, c: Node): Phase
  {
    if c in ph then ph[c] else Idle
  }

  ghost predicate Toggled(p: Phase)
  {
    p.Hashing? || p.Out? || p.Passed?
  }

  ghost predicate Arrived(p: Phase)
  {
    p.Written? || Toggled(p)
  }

  /** Goroutine `i` and the phases agree on where it is and what it carries. */
  ghost predicate ThreadOk(want: Node -> Bytes, depth: nat, s: State, ph: Phases, i: nat)
    requires i < |s.pcs|
  {
    (s.pcs[i] == Ready <==> PhaseOf(ph, Node(depth, i)) == Idle) &&
    match s.pcs[i]
    case Carry(c, v) => 0 < c.level <= depth && InTree(c) && PhaseOf(ph, c) == Carried(i) && v == want(c)
    case Wrote(c) => 0 < c.level <= depth && InTree(c) && PhaseOf(ph, c) == Written(i)
    case Second(c) => 0 < c.level <= depth && InTree(c) && PhaseOf(ph, c) == Hashing(i)
    case _ => true
  }

  ghost predicate OwnerOk(s: State, ph: Phases, c: Node)
  {
    match PhaseOf(ph, c)
    case Carried(i) => i < |s.pcs| && s.pcs[i].Carry? && s.pcs[i].at == c
    case Written(i) => i < |s.pcs| && s.pcs[i] == Wrote(c)
    case Hashing(i) => i < |s.pcs| && s.pcs[i] == Second(c)
    case _ => true
  }

  /** Of two arrivals at a node, the first to toggle is out and the second goes on. */
  ghost predicate PairOk(a: Phase, b: Phase)
  {
    (Toggled(a) && !Toggled(b) ==> a.Out?) &&
    (Toggled(b) && !Toggled(a) ==> b.Out?) &&
    (Toggled(a) && Toggled(b) ==> (a.Out? <==> !b.Out?))
  }

  ghost function Toggles(p: Phase): nat
  {
    if Toggled(p) then 1 else 0
  }

  /** An inner node: what has arrived is there, the toggles are counted, and its own value is on its
      way exactly if one of the arrivals has passed. */
  ghost predicate NodeOk(want: Node -> Bytes, depth: nat, before: map<Node, nat>, s: State, ph: Phases, n: Node)
    requires n.level < depth
  {
    var a, b := PhaseOf(ph, Child(n, false)), PhaseOf(ph, Child(n, true));
    (Arrived(a) ==> Held(s.left, n) == want(Child(n, false))) &&
    (Arrived(b) ==> Held(s.right, n) == want(Child(n, true))) &&
    Count(s.toggles, n) == Count(before, n) + Toggles(a) + Toggles(b) &&
    PairOk(a, b) &&
    (if n.level == 0 then n.index == 0 ==> s.result == if a.Passed? || b.Passed? then [want(n)] else []
     else PhaseOf(ph, n) != Idle <==> a.Passed? || b.Passed?)
  }

  /** `want` gives every node its hash: the leaves' from the sections, the inner ones' from their children. */
  ghost predicate Fits(H: Bytes -> Bytes, want: Node -> Bytes, depth: nat, sections: seq<Bytes>)
  {
    |sections| == Pow2(depth) &&
    (forall i {:trigger sections[i]} :: 0 <= i < |sections| ==> want(Node(depth, i)) == H(sections[i])) &&
    forall n: Node {:trigger want(n)} :: n.level < depth ==> want(n) == H(want(Child(n, false)) + want(Child(n, true)))
  }

  ghost predicate AllEven(toggles: map<Node, nat>)
  {
    forall n {:trigger Count(toggles, n)} :: Count(toggles, n) % 2 == 0
  }

  ghost predicate Threads(want: Node -> Bytes, depth: nat, s: State, ph: Phases)
  {
    |s.pcs| == Pow2(depth) &&
    forall i: nat {:trigger ThreadOk(want, depth, s, ph, i)} :: i < |s.pcs| ==> ThreadOk(want, depth, s, ph, i)
  }

  ghost predicate Owners(depth: nat, s: State, ph: Phases)
  {
    forall c: Node {:trigger OwnerOk(s, ph, c)} :: 0 < c.level <= depth ==> OwnerOk(s, ph, c)
  }

  ghost predicate Nodes(want: Node -> Bytes, depth: nat, before: map<Node, nat>, s: State, ph: Phases)
  {
    forall n: Node {:trigger NodeOk(want, depth, before, s, ph, n)} :: n.level < depth ==>
      NodeOk(want, depth, before, s, ph, n)
  }

  /** finalise is on the last leaf's path and marks no node; until it is through, nobody has reached
      that path. */
  ghost predicate WalkOk(depth: nat, s: State, ph: Phases)
  {
    s.unbalanced == {} &&
    (s.walk.Walking? ==> s.walk.at.level < depth && InTree(s.walk.at) && Rightmost(s.walk.at) && !s.walk.fromLeft) &&
    (s.walk != Walked ==>
       forall c: Node {:trigger Rightmost(c)} :: 0 < c.level <= depth && Rightmost(c) ==> PhaseOf(ph, c) == Idle)
  }

  ghost predicate Inv(want: Node -> Bytes, depth: nat, before: map<Node, nat>, s: State, ph: Phases)
  {
    Threads(want, depth, s, ph) && Owners(depth, s, ph) && Nodes(want, depth, before, s, ph) && WalkOk(depth, s, ph)
  }

  // ---- every step keeps the invariant ----

  ghost predicate HeldBy(p: Phase, i: nat)
  {
    p == Carried(i) || p == Written(i) || p == Hashing(i)
  }

  /** What a step of goroutine `i` may do to the phase of a node: nothing, if the node is not its own;
      else a new phase, if the node was its own or not yet reached. */
  ghost predicate Turn(depth: nat, t: State, ph: Phases, ph2: Phases, i: nat, e: Node)
  {
    (PhaseOf(ph2, e) == PhaseOf(ph, e) && !HeldBy(PhaseOf(ph, e), i)) ||
    (PhaseOf(ph2, e) != Idle && OwnerOk(t, ph2, e) &&
     (HeldBy(PhaseOf(ph, e), i) || (PhaseOf(ph, e) == Idle && (e.level == depth ==> e.index == i))))
  }

  lemma OthersKeep(want: Node -> Bytes, depth: nat, s: State, t: State, ph: Phases, ph2: Phases, i: nat)
    requires Threads(want, depth, s, ph) && Owners(depth, s, ph) && i < |s.pcs| == |t.pcs|
    requires (forall j :: 0 <= j < |s.pcs| && j != i ==> t.pcs[j] == s.pcs[j]) && ThreadOk(want, depth, t, ph2, i)
    requires forall e: Node {:trigger Turn(depth, t, ph, ph2, i, e)} ::
      0 < e.level <= depth ==> Turn(depth, t, ph, ph2, i, e)
    ensures Threads(want, depth, t, ph2) && Owners(depth, t, ph2)
  {
    forall j: nat | j < |t.pcs| ensures ThreadOk(want, depth, t, ph2, j) {
      if j != i {
        OtherKeeps(want, depth, s, t, ph, ph2, i, j);
      }
    }
    forall e: Node | 0 < e.level <= depth ensures OwnerOk(t, ph2, e) {
      assert OwnerOk(s, ph, e) && Turn(depth, t, ph, ph2, i, e);
    }
  }

  lemma OtherKeeps(want: Node -> Bytes, depth: nat, s: State, t: State, ph: Phases, ph2: Phases, i: nat, j: nat)
    requires Threads(want, depth, s, ph) && i < |s.pcs| == |t.pcs| && j < |s.pcs| && i != j && t.pcs[j] == s.pcs[j]
    requires forall e: Node {:trigger Turn(depth, t, ph, ph2, i, e)} ::
      0 < e.level <= depth ==> Turn(depth, t, ph, ph2, i, e)
    ensures ThreadOk(want, depth, t, ph2, j)
  {
    assert ThreadOk(want, depth, s, ph, j);
    var leaf := Node(depth, j);
    assert depth > 0 ==> Turn(depth, t, ph, ph2, i, leaf);
    match s.pcs[j]
    case Carry(c, _) => assert Turn(depth, t, ph, ph2, i, c);
    case Wrote(c) => assert Turn(depth, t, ph, ph2, i, c);
    case Second(c) => assert Turn(depth, t, ph, ph2, i, c);
    case _ =>
  }

  /** The two phases look the same to the parent. */
  ghost predicate SameArrival(p: Phase, q: Phase)
  {
    (Arrived(p) <==> Arrived(q)) && (Toggled(p) <==> Toggled(q)) && (p.Out? <==> q.Out?) && (p.Passed? <==> q.Passed?)
  }

  /** Nothing that concerns inner node `n` has changed. */
  ghost predicate Undisturbed(s: State, t: State, ph: Phases, ph2: Phases, n: Node)
  {
    Held(t.left, n) == Held(s.left, n) && Held(t.right, n) == Held(s.right, n) &&
    Count(t.toggles, n) == Count(s.toggles, n) &&
    SameArrival(PhaseOf(ph, Child(n, false)), PhaseOf(ph2, Child(n, false))) &&
    SameArrival(PhaseOf(ph, Child(n, true)), PhaseOf(ph2, Child(n, true))) &&
    (if n.level == 0 then n.index == 0 ==> t.result == s.result
     else PhaseOf(ph2, n) == Idle <==> PhaseOf(ph, n) == Idle)
  }

  lemma NodesKeep(want: Node -> Bytes, depth: nat, before: map<Node, nat>, s: State, t: State, ph: Phases,
                  ph2: Phases, m: Node)
    requires Nodes(want, depth, before, s, ph) && (m.level < depth ==> NodeOk(want, depth, before, t, ph2, m))
    requires forall n: Node {:trigger Undisturbed(s, t, ph, ph2, n)} ::
      n.level < depth && n != m ==> Undisturbed(s, t, ph, ph2, n)
    ensures Nodes(want, depth, before, t, ph2)
  {
    forall n: Node | n.level < depth ensures NodeOk(want, depth, before, t, ph2, n) {
      if n != m {
        assert NodeOk(want, depth, before, s, ph, n) && Undisturbed(s, t, ph, ph2, n);
      }
    }
  }

  ghost predicate Carries(pc: Pc, c: Node)
  {
    (pc.Carry? || pc.Wrote? || pc.Second?) && pc.at == c
  }

  /** A goroutine moves on at the node that it has. */
  lemma ThreadMoves(want: Node -> Bytes, depth: nat, s: State, t: State, ph: Phases, p: Phase, c: Node, i: nat)
    requires Threads(want, depth, s, ph) && Owners(depth, s, ph) && i < |s.pcs| == |t.pcs| && 0 < c.level <= depth
    requires forall j :: 0 <= j < |s.pcs| && j != i ==> t.pcs[j] == s.pcs[j]
    requires ThreadOk(want, depth, t, ph[c := p], i)
    requires Carries(s.pcs[i], c) && HeldBy(PhaseOf(ph, c), i) && p != Idle && OwnerOk(t, ph[c := p], c)
    ensures Threads(want, depth, t, ph[c := p]) && Owners(depth, t, ph[c := p])
  {
    var ph2 := ph[c := p];
    forall e: Node | 0 < e.level <= depth ensures Turn(depth, t, ph, ph2, i, e) {
      assert OwnerOk(s, ph, e);
    }
    OthersKeep(want, depth, s, t, ph, ph2, i);
  }

  /** Only the fields of node `m` have changed. */
  ghost predicate OnlyAt(s: State, t: State, m: Node)
  {
    forall n: Node {:trigger Held(t.left, n)} {:trigger Held(t.right, n)} {:trigger Count(t.toggles, n)} :: n != m ==>
      Held(t.left, n) == Held(s.left, n) && Held(t.right, n) == Held(s.right, n) &&
      Count(t.toggles, n) == Count(s.toggles, n)
  }

  lemma ElsewhereUndisturbed(s: State, t: State, ph: Phases, p: Phase, c: Node, n: Node)
    requires 0 < c.level && n != Parent(c) && OnlyAt(s, t, Parent(c)) && t.result == s.result
    requires p == Idle <==> PhaseOf(ph, c) == Idle
    ensures Undisturbed(s, t, ph, ph[c := p], n)
  {
    assert Parent(Child(n, false)) == n && Parent(Child(n, true)) == n;
    assert Held(t.left, n) == Held(s.left, n);
  }

  /** A change at node `c` concerns its parent only. */
  lemma NodeMoves(want: Node -> Bytes, depth: nat, before: map<Node, nat>, s: State, t: State, ph: Phases, p: Phase,
                  c: Node)
    requires Nodes(want, depth, before, s, ph) && 0 < c.level <= depth && OnlyAt(s, t, Parent(c))
    requires t.result == s.result
    requires (p == Idle <==> PhaseOf(ph, c) == Idle) && NodeOk(want, depth, before, t, ph[c := p], Parent(c))
    ensures Nodes(want, depth, before, t, ph[c := p])
  {
    var ph2 := ph[c := p];
    forall n: Node | n.level < depth && n != Parent(c) ensures Undisturbed(s, t, ph, ph2, n) {
      ElsewhereUndisturbed(s, t, ph, p, c, n);
    }
    NodesKeep(want, depth, before, s, t, ph, ph2, Parent(c));
  }

  lemma WalkUndisturbed(depth: nat, s: State, t: State, ph: Phases, p: Phase, c: Node)
    requires WalkOk(depth, s, ph) && t.walk == s.walk && t.unbalanced == s.unbalanced
    requires 0 < c.level <= depth && PhaseOf(ph, c) != Idle
    ensures WalkOk(depth, t, ph[c := p])
  {
  }

  /** The goroutine writes its value into the parent. */
  lemma KeepsCarry(H: Bytes -> Bytes, want: Node -> Bytes, depth: nat, sections: seq<Bytes>, before: map<Node, nat>,
                   s: State, ph: Phases, i: nat)
    requires Inv(want, depth, before, s, ph) && |sections| == |s.pcs| && Enabled(s, i) && s.pcs[i].Carry?
    requires s.pcs[i].at.level > 0
    ensures Inv(want, depth, before, Step(H, depth, sections, s, i), ph[s.pcs[i].at := Written(i)])
  {
    var t, c, p := Step(H, depth, sections, s, i), s.pcs[i].at, Written(i);
    assert ThreadOk(want, depth, s, ph, i);
    ThreadMoves(want, depth, s, t, ph, p, c, i);
    CarryNode(want, depth, before, s, t, ph, c, s.pcs[i].value, i);
    NodeMoves(want, depth, before, s, t, ph, p, c);
    WalkUndisturbed(depth, s, t, ph, p, c);
  }

  lemma CarryNode(want: Node -> Bytes, depth: nat, before: map<Node, nat>, s: State, t: State, ph: Phases, c: Node,
                  v: Bytes, i: nat)
    requires Nodes(want, depth, before, s, ph) && 0 < c.level <= depth && PhaseOf(ph, c).Carried? && v == want(c)
    requires t.toggles == s.toggles && t.result == s.result
    requires if IsLeft(c) then t.left == s.left[Parent(c) := v] && t.right == s.right
             else t.right == s.right[Parent(c) := v] && t.left == s.left
    ensures NodeOk(want, depth, before, t, ph[c := Written(i)], Parent(c))
  {
    Family(c);
    assert NodeOk(want, depth, before, s, ph, Parent(c));
    assert Parent(c) != c;
  }

  /** The goroutine toggles the parent: the first one leaves, the second stays. */
  lemma KeepsWrote(H: Bytes -> Bytes, want: Node -> Bytes, depth: nat, sections: seq<Bytes>, before: map<Node, nat>,
                   s: State, ph: Phases, i: nat)
    requires Inv(want, depth, before, s, ph) && AllEven(before) && |sections| == |s.pcs| && Enabled(s, i)
    requires s.pcs[i].Wrote? && s.pcs[i].at.level > 0
    ensures var t := Step(H, depth, sections, s, i);
            Inv(want, depth, before, t, ph[s.pcs[i].at := if t.pcs[i] == Exited then Out else Hashing(i)])
  {
    var t, c := Step(H, depth, sections, s, i), s.pcs[i].at;
    var p := if t.pcs[i] == Exited then Out else Hashing(i);
    assert ThreadOk(want, depth, s, ph, i);
    ThreadMoves(want, depth, s, t, ph, p, c, i);
    WroteNode(want, depth, before, s, t, ph, p, c);
    NodeMoves(want, depth, before, s, t, ph, p, c);
    WalkUndisturbed(depth, s, t, ph, p, c);
  }

  lemma WroteNode(want: Node -> Bytes, depth: nat, before: map<Node, nat>, s: State, t: State, ph: Phases, p: Phase,
                  c: Node)
    requires Nodes(want, depth, before, s, ph) && AllEven(before) && 0 < c.level <= depth && PhaseOf(ph, c).Written?
    requires t.left == s.left && t.right == s.right && t.result == s.result
    requires t.toggles == s.toggles[Parent(c) := Count(s.toggles, Parent(c)) + 1]
    requires if Count(t.toggles, Parent(c)) % 2 == 1 then p.Out? else p.Hashing?
    ensures NodeOk(want, depth, before, t, ph[c := p], Parent(c))
  {
    Family(c);
    assert NodeOk(want, depth, before, s, ph, Parent(c));
    assert Count(before, Parent(c)) % 2 == 0;
    assert Parent(c) != c;
  }

  /** The goroutine hashes its section. */
  lemma KeepsReady(H: Bytes -> Bytes, want: Node -> Bytes, depth: nat, sections: seq<Bytes>, before: map<Node, nat>,
                   s: State, ph: Phases, i: nat)
    requires Inv(want, depth, before, s, ph) && Fits(H, want, depth, sections) && depth > 0 && Enabled(s, i)
    requires s.pcs[i] == Ready
    ensures Inv(want, depth, before, Step(H, depth, sections, s, i), ph[Node(depth, i) := Carried(i)])
  {
    var t, leaf, p := Step(H, depth, sections, s, i), Node(depth, i), Carried(i);
    assert ThreadOk(want, depth, s, ph, i);
    ReadyThreads(want, depth, s, t, ph, i);
    ReadyNodes(want, depth, before, s, t, ph, p, leaf);
    RightmostIs(leaf);
  }

  lemma ReadyThreads(want: Node -> Bytes, depth: nat, s: State, t: State, ph: Phases, i: nat)
    requires Threads(want, depth, s, ph) && Owners(depth, s, ph) && depth > 0 && i < |s.pcs| && s.pcs[i] == Ready
    requires t.pcs == s.pcs[i := Carry(Node(depth, i), want(Node(depth, i)))]
    ensures Threads(want, depth, t, ph[Node(depth, i) := Carried(i)])
    ensures Owners(depth, t, ph[Node(depth, i) := Carried(i)])
  {
    var leaf := Node(depth, i);
    var ph2 := ph[leaf := Carried(i)];
    InTreeIs(leaf);
    assert ThreadOk(want, depth, s, ph, i);
    forall e: Node | 0 < e.level <= depth ensures Turn(depth, t, ph, ph2, i, e) {
      assert OwnerOk(s, ph, e);
    }
    OthersKeep(want, depth, s, t, ph, ph2, i);
  }

  lemma ReadyNodes(want: Node -> Bytes, depth: nat, before: map<Node, nat>, s: State, t: State, ph: Phases, p: Phase,
                   leaf: Node)
    requires Nodes(want, depth, before, s, ph) && leaf.level == depth && t == s.(pcs := t.pcs)
    requires PhaseOf(ph, leaf) == Idle && p.Carried?
    ensures Nodes(want, depth, before, t, ph[leaf := p])
  {
    var ph2 := ph[leaf := p];
    forall n: Node | n.level < depth && n != leaf ensures Undisturbed(s, t, ph, ph2, n) {}
    NodesKeep(want, depth, before, s, t, ph, ph2, leaf);
  }

  /** The phases after the second goroutine has left node `c` for its parent. */
  ghost function PassedOn(ph: Phases, c: Node, i: nat): Phases
    requires c.level > 0
  {
    if c.level == 1 then ph[c := Passed] else ph[c := Passed][Parent(c) := Carried(i)]
  }

  /** The second goroutine hashes the node and goes on with its value, or sends the root's. */
  lemma KeepsSecond(H: Bytes -> Bytes, want: Node -> Bytes, depth: nat, sections: seq<Bytes>, before: map<Node, nat>,
                    s: State, ph: Phases, i: nat)
    requires Inv(want, depth, before, s, ph) && Fits(H, want, depth, sections) && |s.pcs| == |sections|
    requires Enabled(s, i) && s.pcs[i].Second? && s.pcs[i].at.level > 0
    ensures Inv(want, depth, before, Step(H, depth, sections, s, i), PassedOn(ph, s.pcs[i].at, i))
  {
    var t, c := Step(H, depth, sections, s, i), s.pcs[i].at;
    assert ThreadOk(want, depth, s, ph, i);
    SecondHashes(H, want, depth, sections, before, s, ph, c);
    SecondThreads(want, depth, s, t, ph, c, i);
    SecondNodes(want, depth, before, s, t, ph, c, i);
    if s.walk != Walked {
      SecondNotYet(want, depth, before, s, ph, c);
    }
  }

  lemma SecondThreads(want: Node -> Bytes, depth: nat, s: State, t: State, ph: Phases, c: Node, i: nat)
    requires Threads(want, depth, s, ph) && Owners(depth, s, ph) && i < |s.pcs| && s.pcs[i] == Second(c)
    requires 0 < c.level <= depth
    requires t.pcs == s.pcs[i := if c.level == 1 then Sent else Carry(Parent(c), want(Parent(c)))]
    requires c.level > 1 ==> PhaseOf(ph, Parent(c)) == Idle
    ensures Threads(want, depth, t, PassedOn(ph, c, i)) && Owners(depth, t, PassedOn(ph, c, i))
  {
    var ph2 := PassedOn(ph, c, i);
    assert ThreadOk(want, depth, s, ph, i);
    assert ThreadOk(want, depth, t, ph2, i);
    forall e: Node | 0 < e.level <= depth ensures Turn(depth, t, ph, ph2, i, e) {
      assert OwnerOk(s, ph, e);
    }
    OthersKeep(want, depth, s, t, ph, ph2, i);
  }

  lemma SecondNodes(want: Node -> Bytes, depth: nat, before: map<Node, nat>, s: State, t: State, ph: Phases, c: Node,
                    i: nat)
    requires Nodes(want, depth, before, s, ph) && 0 < c.level <= depth && InTree(c) && PhaseOf(ph, c).Hashing?
    requires t == s.(pcs := t.pcs, result := if c.level == 1 then [want(Parent(c))] else s.result)
    requires c.level > 1 ==> PhaseOf(ph, Parent(c)) == Idle
    ensures Nodes(want, depth, before, t, PassedOn(ph, c, i))
  {
    var ph2, m := PassedOn(ph, c, i), Parent(c);
    SecondNode(want, depth, before, s, t, ph, c, i);
    forall n: Node | n.level < depth && n != m ensures Undisturbed(s, t, ph, ph2, n) {
      SecondElsewhere(want, depth, s, t, ph, c, i, n);
    }
    NodesKeep(want, depth, before, s, t, ph, ph2, m);
  }

  lemma SecondNode(want: Node -> Bytes, depth: nat, before: map<Node, nat>, s: State, t: State, ph: Phases, c: Node,
                   i: nat)
    requires Nodes(want, depth, before, s, ph) && 0 < c.level <= depth && InTree(c) && PhaseOf(ph, c).Hashing?
    requires t == s.(pcs := t.pcs, result := if c.level == 1 then [want(Parent(c))] else s.result)
    ensures NodeOk(want, depth, before, t, PassedOn(ph, c, i), Parent(c))
  {
    Family(c);
    assert NodeOk(want, depth, before, s, ph, Parent(c));
  }

  lemma SecondElsewhere(want: Node -> Bytes, depth: nat, s: State, t: State, ph: Phases, c: Node, i: nat, n: Node)
    requires 0 < c.level <= depth && InTree(c) && PhaseOf(ph, c).Hashing? && n != Parent(c)
    requires t == s.(pcs := t.pcs, result := if c.level == 1 then [want(Parent(c))] else s.result)
    requires c.level > 1 ==> PhaseOf(ph, Parent(c)) == Idle
    ensures Undisturbed(s, t, ph, PassedOn(ph, c, i), n)
  {
    assert Parent(Child(n, false)) == n && Parent(Child(n, true)) == n;
  }

  /** When a goroutine is second at a node, both values are there and nobody has gone on yet. */
  lemma SecondHashes(H: Bytes -> Bytes, want: Node -> Bytes, depth: nat, sections: seq<Bytes>, before: map<Node,
                     nat>, s: State, ph: Phases, c: Node)
    requires 0 < c.level <= depth && InTree(c) && Nodes(want, depth, before, s, ph) && PhaseOf(ph, c).Hashing?
    requires Fits(H, want, depth, sections)
    ensures var m := Parent(c);
            H(Held(s.left, m) + Held(s.right, m)) == want(m) &&
            PhaseOf(ph, Sibling(c)).Out? && (if m.level == 0 then s.result == [] else PhaseOf(ph, m) == Idle)
  {
    Family(c);
    assert NodeOk(want, depth, before, s, ph, Parent(c));
  }

  /** Before finalise nobody has reached the last leaf's path. */
  lemma SecondNotYet(want: Node -> Bytes, depth: nat, before: map<Node, nat>, s: State, ph: Phases, c: Node)
    requires 0 < c.level <= depth && Nodes(want, depth, before, s, ph) && PhaseOf(ph, c).Hashing?
    requires WalkOk(depth, s, ph) && s.walk != Walked
    ensures !Rightmost(c) && !Rightmost(Parent(c))
  {
    var m := Parent(c);
    Family(c);
    assert NodeOk(want, depth, before, s, ph, m);
    assert Parent(Child(m, true)) == m && !IsLeft(Child(m, true));
    assert Rightmost(m) ==> Rightmost(Child(m, true));
  }

  /** The nodes of the last leaf's path are each other's parents, down to the last leaf's own. */
  lemma UpTheEdge(depth: nat, s: State)
    requires depth > 0 && |s.pcs| == Pow2(depth)
    ensures s.pcs != []
    ensures var last := Node(depth, |s.pcs| - 1); !IsLeft(last) && Rightmost(Parent(last)) && InTree(Parent(last))
    ensures s.walk.Walking? && Rightmost(s.walk.at) && InTree(s.walk.at) && s.walk.at.index != 0 ==>
              !IsLeft(s.walk.at) && Rightmost(Parent(s.walk.at)) && InTree(Parent(s.walk.at))
  {
    var last := Node(depth, |s.pcs| - 1);
    Pow2Positive(depth);
    RightmostIs(last);
    InTreeIs(last);
    assert Rightmost(last) && InTree(last);
  }

  /** A step of finalise loses nothing, whatever the goroutines have done between its steps: no right
      value has arrived where it clears, and it marks no node as unbalanced. */
  lemma KeepsWalk(want: Node -> Bytes, depth: nat, before: map<Node, nat>, s: State, ph: Phases)
    requires Inv(want, depth, before, s, ph) && s.walk != Walked && depth > 0 && s.pcs != []
    ensures Inv(want, depth, before, WalkStep(depth, s), ph)
  {
    var t := WalkStep(depth, s);
    UpTheEdge(depth, s);
    forall i: nat | i < |t.pcs| ensures ThreadOk(want, depth, t, ph, i) {
      assert ThreadOk(want, depth, s, ph, i);
    }
    forall c: Node | 0 < c.level <= depth ensures OwnerOk(t, ph, c) {
      assert OwnerOk(s, ph, c);
    }
    WalkNodes(want, depth, before, s, t, ph);
  }

  lemma WalkNodes(want: Node -> Bytes, depth: nat, before: map<Node, nat>, s: State, t: State, ph: Phases)
    requires Nodes(want, depth, before, s, ph) && WalkOk(depth, s, ph) && s.walk != Walked
    requires t.left == s.left && t.toggles == s.toggles && t.result == s.result
    requires t.right == if s.walk.Walking? then s.right - {s.walk.at} else s.right
    ensures Nodes(want, depth, before, t, ph)
  {
    forall n: Node | n.level < depth ensures NodeOk(want, depth, before, t, ph, n) {
      assert NodeOk(want, depth, before, s, ph, n);
      var c := Child(n, true);
      assert Parent(c) == n && !IsLeft(c);
      assert Rightmost(n) ==> Rightmost(c);
    }
  }

  // ---- whole runs ----

  ghost predicate Start(depth: nat, before: map<Node, nat>, s: State)
  {
    |s.pcs| == Pow2(depth) && (forall i {:trigger s.pcs[i]} :: 0 <= i < |s.pcs| ==> s.pcs[i] == Ready) &&
    s.toggles == before && AllEven(before) && s.unbalanced == {} && s.walk == Unstarted && s.result == []
  }

  lemma StartIsInv(want: Node -> Bytes, depth: nat, before: map<Node, nat>, s: State)
    requires Start(depth, before, s)
    ensures Inv(want, depth, before, s, map[])
  {
    forall i: nat | i < |s.pcs| ensures ThreadOk(want, depth, s, map[], i) {}
    forall c: Node | 0 < c.level <= depth ensures OwnerOk(s, map[], c) {}
    forall n: Node | n.level < depth ensures NodeOk(want, depth, before, s, map[], n) {}
  }

  predicate CanStep(s: State, i: nat)
  {
    Enabled(s, i) && (s.pcs[i].Carry? || s.pcs[i].Wrote? || s.pcs[i].Second? ==> s.pcs[i].at.level > 0)
  }

  /** A goroutine that has not finished can always move: nothing but finalise is ever waited for. */
  lemma NeverStuck(want: Node -> Bytes, depth: nat, before: map<Node, nat>, s: State, ph: Phases, i: nat)
    requires Inv(want, depth, before, s, ph) && Enabled(s, i)
    ensures CanStep(s, i)
  {
    assert ThreadOk(want, depth, s, ph, i);
  }

  lemma StepKeeps(H: Bytes -> Bytes, want: Node -> Bytes, depth: nat, sections: seq<Bytes>, before: map<Node, nat>,
                  s: State, ph: Phases, i: nat)
    returns (ph2: Phases)
    requires Inv(want, depth, before, s, ph) && Fits(H, want, depth, sections) && AllEven(before) && depth > 0
    requires |s.pcs| == |sections| && CanStep(s, i)
    ensures Inv(want, depth, before, Step(H, depth, sections, s, i), ph2)
  {
    if s.pcs[i].Ready? {
      KeepsReady(H, want, depth, sections, before, s, ph, i);
      ph2 := ph[Node(depth, i) := Carried(i)];
    } else if s.pcs[i].Carry? {
      KeepsCarry(H, want, depth, sections, before, s, ph, i);
      ph2 := ph[s.pcs[i].at := Written(i)];
    } else if s.pcs[i].Wrote? {
      KeepsWrote(H, want, depth, sections, before, s, ph, i);
      var t := Step(H, depth, sections, s, i);
      ph2 := ph[s.pcs[i].at := if t.pcs[i] == Exited then Out else Hashing(i)];
    } else {
      KeepsSecond(H, want, depth, sections, before, s, ph, i);
      ph2 := PassedOn(ph, s.pcs[i].at, i);
    }
  }

  /** The node's goroutine has left: it was first at the parent, or has gone on. */
  ghost predicate Over(p: Phase)
  {
    p == Out || p == Passed
  }

  const ROOT := Node(0, 0)

  /** Once the result is out, every value in the tree has been used. */
  lemma {:induction false} DeliveredIsOver(want: Node -> Bytes, depth: nat, before: map<Node, nat>, s: State,
                                           ph: Phases, c: Node)
    requires Inv(want, depth, before, s, ph) && s.result != [] && 0 < c.level <= depth && InTree(c)
    ensures Over(PhaseOf(ph, c)) && Over(PhaseOf(ph, Sibling(c))) && PhaseOf(ph, c) != PhaseOf(ph, Sibling(c))
    decreases c.level
  {
    Family(c);
    assert NodeOk(want, depth, before, s, ph, Parent(c));
    if c.level > 1 {
      DeliveredIsOver(want, depth, before, s, ph, Parent(c));
    }
  }

  /** When the result is out it is the root's hash, every toggle is even again and every goroutine has
      finished: the tree can be handed to the next user at once. */
  lemma DeliveredIsClean(want: Node -> Bytes, depth: nat, before: map<Node, nat>, s: State, ph: Phases)
    requires Inv(want, depth, before, s, ph) && AllEven(before) && s.result != [] && depth > 0
    ensures s.result == [want(ROOT)] && s.unbalanced == {}
    ensures forall n: Node {:trigger Count(s.toggles, n)} ::
      n.level < depth && InTree(n) ==> Count(s.toggles, n) == Count(before, n) + 2
    ensures forall n: Node {:trigger Count(s.toggles, n)} ::
      n.level < depth && InTree(n) ==> Count(s.toggles, n) % 2 == 0
    ensures forall i: nat {:trigger s.pcs[i]} :: i < |s.pcs| ==> s.pcs[i] == Exited || s.pcs[i] == Sent
  {
    assert NodeOk(want, depth, before, s, ph, ROOT);
    forall n: Node | n.level < depth && InTree(n)
      ensures Count(s.toggles, n) == Count(before, n) + 2 && Count(s.toggles, n) % 2 == 0
    {
      var c := Child(n, false);
      assert Parent(c) == n && Sibling(c) == Child(n, true);
      DeliveredIsOver(want, depth, before, s, ph, c);
      assert NodeOk(want, depth, before, s, ph, n) && Count(before, n) % 2 == 0;
    }
    forall i: nat | i < |s.pcs| ensures s.pcs[i] == Exited || s.pcs[i] == Sent {
      FinishedWhenDelivered(want, depth, before, s, ph, i);
    }
  }

  lemma FinishedWhenDelivered(want: Node -> Bytes, depth: nat, before: map<Node, nat>, s: State, ph: Phases, i: nat)
    requires Inv(want, depth, before, s, ph) && s.result != [] && depth > 0 && i < |s.pcs|
    ensures s.pcs[i] == Exited || s.pcs[i] == Sent
  {
    assert ThreadOk(want, depth, s, ph, i);
    var leaf := Node(depth, i);
    InTreeIs(leaf);
    DeliveredIsOver(want, depth, before, s, ph, leaf);
    if Carries(s.pcs[i], if s.pcs[i].Carry? || s.pcs[i].Wrote? || s.pcs[i].Second? then s.pcs[i].at else leaf) {
      DeliveredIsOver(want, depth, before, s, ph, s.pcs[i].at);
    }
  }

  ghost predicate Finished(s: State)
  {
    forall i {:trigger s.pcs[i]} :: 0 <= i < |s.pcs| ==> s.pcs[i] == Exited || s.pcs[i] == Sent
  }

  /** If every goroutine has finished, every value in the tree has been used ... */
  lemma {:induction false} FinishedIsOver(want: Node -> Bytes, depth: nat, before: map<Node, nat>, s: State,
                                          ph: Phases, c: Node)
    requires Inv(want, depth, before, s, ph) && Finished(s) && 0 < c.level <= depth && InTree(c)
    ensures Over(PhaseOf(ph, c))
    decreases depth - c.level
  {
    assert OwnerOk(s, ph, c);
    if c.level == depth {
      InTreeIs(c);
      assert ThreadOk(want, depth, s, ph, c.index);
    } else {
      var a, b := Child(c, false), Child(c, true);
      assert Parent(a) == c && Parent(b) == c;
      FinishedIsOver(want, depth, before, s, ph, a);
      FinishedIsOver(want, depth, before, s, ph, b);
      assert NodeOk(want, depth, before, s, ph, c);
    }
  }

  /** The root's children. */
  const LEFT := Node(1, 0)
  const RIGHT := Node(1, 1)

  lemma OverDelivers(want: Node -> Bytes, depth: nat, before: map<Node, nat>, s: State, ph: Phases)
    requires depth > 0 && Nodes(want, depth, before, s, ph) && Over(PhaseOf(ph, LEFT)) && Over(PhaseOf(ph, RIGHT))
    ensures s.result == [want(ROOT)]
  {
    assert NodeOk(want, depth, before, s, ph, ROOT);
    assert Child(ROOT, false) == LEFT && Child(ROOT, true) == RIGHT;
  }

  /** ... and the result has been delivered. */
  lemma FinishedDelivers(want: Node -> Bytes, depth: nat, before: map<Node, nat>, s: State, ph: Phases)
    requires Inv(want, depth, before, s, ph) && Finished(s) && depth > 0
    ensures s.result == [want(ROOT)]
  {
    assert InTree(LEFT) && InTree(RIGHT) && Child(ROOT, false) == LEFT && Child(ROOT, true) == RIGHT;
    FinishedIsOver(want, depth, before, s, ph, LEFT);
    FinishedIsOver(want, depth, before, s, ph, RIGHT);
    OverDelivers(want, depth, before, s, ph);
  }
}
