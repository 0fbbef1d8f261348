/** The index and the chain it indexes (core/chain_indexer.go): which blocks the recorded section heads are when the
    chain moves on, its heads are announced later, and sections are processed in between. */
module IndexedChains {
  import opened Transactions
  import opened Chains
  import opened ChainWalks
  import opened IndexerStores
  import opened IndexerRaces
  import opened ChainIndexers
  import opened Traces

  /** The index, the heads from the last one that it has heard of to the present head of the chain, and whether that
      last one has still to be taken as a plain head. */
  datatype System = System(x: Index, route: seq<Block>, owed: bool)

  /** The chain gets a new head; the event loop hears of the next one, and takes it as a plain head; a section in
      process reads its next block, if that is available; anything else inside the index. */
  datatype Happening = Extend(head: Block) | Hear | Tell | Read(available: bool) | Inside(e: Event)

  /** The number of the block that the section in process reads next. */
  function NextNumber(x: Index): nat
  {
    if x.phase.Processing? then x.phase.section * x.size + x.phase.done else 0
  }

  /** The canonical block with that number. */
  function Canonical(s: System): Option<Block>
    requires s.route != []
  {
    Ancestor(s.route[|s.route| - 1], NextNumber(s.x))
  }

  /** The next head has been heard of. If it does not follow the one before, the sections from the fork point on are
      forgotten. */
  function Heard(s: System, fork: Block): System
    requires |s.route| > 1 && Shape(s.x)
  {
    var x := if s.route[1].parent == Some(s.route[0]) then s.x else After(s.x, Head(fork.number, true));
    System(x, s.route[1..], true)
  }

  predicate CanHear(s: System)
  {
    |s.route| > 1 && !s.owed && s.x.race.reorg.NoCut?
  }

  ghost predicate Happens(s: System, h: Happening, t: System)
  {
    Shape(s.x) && s.route != [] &&
    match h
    case Extend(head) => t == s.(route := s.route + [head])
    case Hear =>
      if CanHear(s) then
        exists fork {:trigger IsCommon(s.route[0], s.route[1], fork)} ::
          IsCommon(s.route[0], s.route[1], fork) && t == Heard(s, fork)
      else t == s
    case Tell =>
      t == if s.owed && s.x.race.reorg.NoCut? then
             s.(x := After(s.x, Head(s.route[0].number, false)), owed := false)
           else s
    case Read(available) => t == s.(x := After(s.x, Next(if available then Canonical(s) else None)))
    case Inside(e) => t == if e.Head? || e.Next? then s else s.(x := After(s.x, e))
  }

  // ---- the law ----

  /** The block is on the way to a head that has been heard of or will be. */
  ghost predicate Coming(route: seq<Block>, b: Block)
  {
    exists j: nat {:trigger OnWay(route, j, b)} :: OnWay(route, j, b)
  }

  ghost predicate OnWay(route: seq<Block>, j: nat, b: Block)
  {
    j < |route| && Ancestor(route[j], b.number) == Some(b)
  }

  /** The head of section `n` is recorded, and no cut is going to remove it. */
  ghost predicate Standing(x: Index, n: nat)
  {
    n in x.race.store.heads && x.race.reset.NoCut? && (x.race.reorg.Cut? ==> n < x.race.reorg.target)
  }

  /** Every recorded head that stands is on the way to a head of the chain. */
  ghost predicate Lawful(s: System)
  {
    forall n: nat {:trigger Standing(s.x, n)} :: Standing(s.x, n) ==> Coming(s.route, s.x.race.store.heads[n])
  }

  /** The record is exact but for what a cut has still to write, and the heads are stored. */
  ghost predicate Fit(store: set<Block>, s: System)
  {
    (Inv(s.x) || Meeting(s.x)) && s.route != [] && forall j {:trigger s.route[j]} :: 0 <= j < |s.route| ==>
      s.route[j] in store
  }

  // ---- numbers ----

  lemma {:induction false} BlocksIs(n: nat, size: nat)
    ensures Blocks(n, size) == n * size
  {
    if n > 0 {
      BlocksIs(n - 1, size);
    }
  }

  lemma {:induction false} LinksIsNumber(store: set<Block>, genesis: Block, b: Block, n: nat)
    requires Rooted(store, genesis) && b in store && Links(None, Some(b), n)
    ensures n == b.number + 1
    decreases n
  {
    if b != genesis {
      assert ParentIn(store, b).Some?;
      LinksIsNumber(store, genesis, b.parent.value, n - 1);
    }
  }

  /** The head of section `n` is the last block of that section. */
  lemma HeadNumber(store: set<Block>, genesis: Block, heads: map<nat, Block>, size: nat, stored: nat, n: nat)
    requires Rooted(store, genesis) && Recorded(heads, size, stored) && n < stored && n in heads && heads[n] in store
    ensures heads[n].number + 1 == (n + 1) * size
  {
    WholeChain(heads, size, stored, n);
    LinksIsNumber(store, genesis, heads[n], Blocks(n + 1, size));
    BlocksIs(n + 1, size);
  }

  lemma ComingIsStored(store: set<Block>, genesis: Block, route: seq<Block>, b: Block)
    requires Rooted(store, genesis) && Coming(route, b)
    requires forall j {:trigger route[j]} :: 0 <= j < |route| ==> route[j] in store
    ensures b in store
  {
    var j: nat :| OnWay(route, j, b);
    NotAbove(route[j], b.number);
    AncestorIsStored(store, genesis, route[j], b.number);
  }

  // ---- hearing of a head ----

  /** What is below the fork point stays on the way. */
  lemma StillComing(route: seq<Block>, fork: Block, b: Block)
    requires |route| > 1 && IsCommon(route[0], route[1], fork) && Coming(route, b)
    ensures Coming(route[1..], b) || (OnWay(route, 0, b) && fork.number < b.number)
  {
    var j: nat :| OnWay(route, j, b);
    if j > 0 {
      assert OnWay(route[1..], j - 1, b);
    } else if b.number <= fork.number {
      SharedBelow(route[0], route[1], fork.number, b.number);
      assert OnWay(route[1..], 0, b);
    }
  }

  /** A head that follows the one before leaves everything on the way. */
  lemma FollowingComes(route: seq<Block>, fork: Block, b: Block)
    requires |route| > 1 && IsCommon(route[0], route[1], fork) && Coming(route, b)
    requires route[1].parent == Some(route[0]) && route[1].number == route[0].number + 1
    ensures Coming(route[1..], b)
  {
    assert Ancestor(route[1], route[0].number) == Some(route[0]);
    assert Ancestor(route[0], route[0].number) == Some(route[0]);
    NoHigherCommon(route[0], route[1], fork, route[0]);
    StillComing(route, fork, b);
    NotAbove(route[0], b.number);
  }

  lemma HeardKeeps(store: set<Block>, genesis: Block, s: System, fork: Block)
    requires Rooted(store, genesis) && Fit(store, s) && Lawful(s) && CanHear(s)
    requires IsCommon(s.route[0], s.route[1], fork)
    ensures Lawful(Heard(s, fork))
  {
    var t := Heard(s, fork);
    forall n: nat | Standing(t.x, n) ensures Coming(t.route, t.x.race.store.heads[n]) {
      assert Standing(s.x, n);
      HeardStands(store, genesis, s, fork, n);
    }
  }

  lemma HeardStands(store: set<Block>, genesis: Block, s: System, fork: Block, n: nat)
    requires Rooted(store, genesis) && Fit(store, s) && Lawful(s) && CanHear(s)
    requires IsCommon(s.route[0], s.route[1], fork) && Standing(s.x, n) && Standing(Heard(s, fork).x, n)
    ensures Coming(s.route[1..], s.x.race.store.heads[n])
  {
    var b := s.x.race.store.heads[n];
    assert Inv(s.x) && Exact(s.x.race.store, s.x.size);
    assert s.route[0] in store && s.route[1] in store;
    if s.route[1].parent == Some(s.route[0]) {
      assert ParentIn(store, s.route[1]).Some?;
      FollowingComes(s.route, fork, b);
    } else {
      ComingIsStored(store, genesis, s.route, b);
      HeadNumber(store, genesis, s.x.race.store.heads, s.x.size, s.x.race.store.stored, n);
      ReorgForgets(s.x, fork.number, n);
      StillComing(s.route, fork, b);
    }
  }

  // ---- everything else ----

  /** A section's head is going to be recorded: it is complete, and the head before is the one it started from. */
  ghost predicate Records(x: Index, e: Event)
  {
    e.Done? && e.commitOk && x.race.reorg.NoCut? && x.phase.Processing? && x.phase.done == x.size > 0 &&
    x.phase.last.Some? && x.phase.oldHead == SectionHead(x.race.store.heads, x.phase.section - 1)
  }

  /** An event that records nothing brings no head to stand that did not. */
  lemma NothingRecorded(x: Index, e: Event, n: nat)
    requires (Inv(x) || Meeting(x)) && !(e.Head? && e.reorg) && !Records(x, e) && Standing(After(x, e), n)
    ensures Standing(x, n) && After(x, e).race.store.heads[n] == x.race.store.heads[n]
  {
    if e.Write? && Meeting(x) {
      AtMostOneStep(x.race, e.reset);
    }
  }

  lemma NewHeadStands(x: Index, e: Event, n: nat)
    requires Inv(x) && Records(x, e)
    ensures var y := After(x, e);
            Standing(y, n) ==> (n == x.phase.section && y.race.store.heads[n] == x.phase.last.value) ||
                               (Standing(x, n) && y.race.store.heads[n] == x.race.store.heads[n])
    ensures Standing(After(x, e), x.phase.section)
  {
  }

  /** A head is recorded that is on the way to no head of the chain any more. */
  ghost predicate Stale(s: System, h: Happening)
  {
    h.Inside? && Records(s.x, h.e) && !Coming(s.route, s.x.phase.last.value)
  }

  lemma InsideKeeps(store: set<Block>, s: System, e: Event, t: System)
    requires Fit(store, s) && Lawful(s) && !(e.Head? && e.reorg) && t == s.(x := After(s.x, e), owed := t.owed)
    ensures Lawful(t) <==> !(Records(s.x, e) && !Coming(s.route, s.x.phase.last.value))
  {
    if Records(s.x, e) {
      assert Inv(s.x);
      NewHeadStands(s.x, e, s.x.phase.section);
      forall n: nat | Standing(t.x, n) && Coming(s.route, s.x.phase.last.value)
        ensures Coming(t.route, t.x.race.store.heads[n])
      {
        NewHeadStands(s.x, e, n);
      }
    } else {
      forall n: nat | Standing(t.x, n) ensures Coming(t.route, t.x.race.store.heads[n]) {
        NothingRecorded(s.x, e, n);
      }
    }
  }

  lemma ExtendKeeps(s: System, head: Block)
    requires Lawful(s)
    ensures Lawful(s.(route := s.route + [head]))
  {
    var t := s.(route := s.route + [head]);
    forall n: nat | Standing(t.x, n) ensures Coming(t.route, t.x.race.store.heads[n]) {
      var b := s.x.race.store.heads[n];
      assert Standing(s.x, n);
      var j: nat :| OnWay(s.route, j, b);
      assert OnWay(t.route, j, b);
    }
  }

  /** Exactly the recording of a stale head breaks the law. */
  lemma StepKeeps(store: set<Block>, genesis: Block, s: System, h: Happening, t: System)
    requires Rooted(store, genesis) && Fit(store, s) && Lawful(s) && Happens(s, h, t)
    ensures Lawful(t) <==> !Stale(s, h)
  {
    match h
    case Extend(head) => ExtendKeeps(s, head);
    case Hear =>
      if CanHear(s) {
        var fork :| IsCommon(s.route[0], s.route[1], fork) && t == Heard(s, fork);
        HeardKeeps(store, genesis, s, fork);
      }
    case Tell =>
      if t != s {
        InsideKeeps(store, s, Head(s.route[0].number, false), t);
      }
    case Read(available) => InsideKeeps(store, s, Next(if available then Canonical(s) else None), t);
    case Inside(e) =>
      if !e.Head? && !e.Next? {
        InsideKeeps(store, s, e, t);
      }
  }

  // ---- sections in process ----

  /** What has been read of the section in process is on the way to a head of the chain. */
  ghost predicate InHand(s: System)
  {
    s.x.phase.Processing? && s.x.phase.done > 0 ==> s.x.phase.last.Some? && Coming(s.route, s.x.phase.last.value)
  }

  /** A reorg overtakes the section in process: what has been read of it is on the way to no head of the chain any
      more. */
  ghost predicate Overtakes(s: System, h: Happening, t: System)
  {
    h.Hear? && t != s && t.x.phase.Processing? && t.x.phase.done > 0 && t.x.phase.last.Some? &&
    !Coming(t.route, t.x.phase.last.value)
  }

  /** Only a reorg can do that. */
  lemma InHandKept(s: System, h: Happening, t: System)
    requires InHand(s) && Shape(s.x) && Happens(s, h, t) && !Overtakes(s, h, t)
    ensures InHand(t)
  {
    AfterKeepsPhase(s, h, t);
    if t.x.phase.Processing? && t.x.phase.done > 0 {
      if h.Extend? {
        var j: nat :| OnWay(s.route, j, s.x.phase.last.value);
        assert OnWay(t.route, j, s.x.phase.last.value);
      } else if h.Read? && t.x.phase != s.x.phase {
        var b := t.x.phase.last.value;
        NumberOfAncestor(s.route[|s.route| - 1], NextNumber(s.x));
        assert OnWay(t.route, |t.route| - 1, b);
      }
    }
  }

  lemma AfterKeepsPhase(s: System, h: Happening, t: System)
    requires Shape(s.x) && Happens(s, h, t)
    ensures Shape(t.x)
    ensures t.x.phase.Processing? && t.x.phase.done > 0 ==> s.x.phase == t.x.phase || (h.Read? && h.available)
  {
  }

  /** And it comes from below the last block that was read. */
  lemma OvertakenBelow(s: System, t: System, fork: Block)
    requires InHand(s) && Shape(s.x) && CanHear(s) && IsCommon(s.route[0], s.route[1], fork) && t == Heard(s, fork)
    requires Overtakes(s, Hear, t)
    ensures fork.number < s.x.phase.last.value.number
  {
    StillComing(s.route, fork, s.x.phase.last.value);
  }

  // ---- every run ----

  /** The new heads of the chain are stored. */
  ghost predicate Stored(store: set<Block>, h: Happening)
  {
    h.Extend? ==> h.head in store
  }

  /** Wherever the two cuts are both under way up to state `i`, that is harmless. */
  ghost predicate CalmUpTo(trace: seq<System>, i: nat)
    requires i < |trace|
  {
    forall j {:trigger trace[j]} :: 0 <= j <= i && Both(trace[j].x.race) ==> Harmless(trace[j].x.race)
  }

  lemma FitStep(store: set<Block>, s: System, h: Happening, t: System)
    requires Fit(store, s) && Happens(s, h, t) && Stored(store, h) && (Both(t.x.race) ==> Harmless(t.x.race))
    ensures Fit(store, t)
  {
    match h
    case Extend(head) =>
    case Hear =>
      if CanHear(s) {
        var fork :| IsCommon(s.route[0], s.route[1], fork) && t == Heard(s, fork);
        if t.x != s.x {
          KeptStep(s.x, Head(fork.number, true));
        }
      }
    case Tell =>
      if t != s {
        KeptStep(s.x, Head(s.route[0].number, false));
      }
    case Read(available) => KeptStep(s.x, Next(if available then Canonical(s) else None));
    case Inside(e) =>
      if !e.Head? && !e.Next? {
        KeptStep(s.x, e);
      }
  }

  lemma FitAt(store: set<Block>, trace: seq<System>, events: seq<Happening>, i: nat)
    requires Follows(trace, events, Happens) && Fit(store, trace[0]) && i < |trace| && CalmUpTo(trace, i)
    requires forall j {:trigger events[j]} :: 0 <= j < |events| ==> Stored(store, events[j])
    ensures Fit(store, trace[i])
  {
    for j := 0 to i
      invariant Fit(store, trace[j])
    {
      assert Happens(trace[j], events[j], trace[j + 1]) && Stored(store, events[j]);
      FitStep(store, trace[j], events[j], trace[j + 1]);
    }
  }

  /** The law holds at every state up to `i`. */
  ghost predicate LawfulUpTo(trace: seq<System>, i: nat)
    requires i < |trace|
  {
    forall j {:trigger trace[j]} :: 0 <= j <= i ==> Lawful(trace[j])
  }

  /** No stale head has been recorded up to state `i`. */
  ghost predicate NoneStale(trace: seq<System>, events: seq<Happening>, i: nat)
    requires i <= |events| < |trace|
  {
    forall j {:trigger events[j]} :: 0 <= j < i ==> !Stale(trace[j], events[j])
  }

  /** In every run without a harmful meeting of the two cuts: the law holds up to a state if and only if no stale
      head has been recorded up to it. */
  lemma {:induction false} LawfulExactly(store: set<Block>, genesis: Block, trace: seq<System>, events: seq<Happening>,
                                         i: nat)
    requires Rooted(store, genesis) && Follows(trace, events, Happens) && Fit(store, trace[0]) && Lawful(trace[0])
    requires forall j {:trigger events[j]} :: 0 <= j < |events| ==> Stored(store, events[j])
    requires i < |trace| && CalmUpTo(trace, i)
    ensures LawfulUpTo(trace, i) <==> NoneStale(trace, events, i)
  {
    if i > 0 {
      LawfulExactly(store, genesis, trace, events, i - 1);
      if LawfulUpTo(trace, i - 1) {
        FitAt(store, trace, events, i - 1);
        assert Happens(trace[i - 1], events[i - 1], trace[i]);
        StepKeeps(store, genesis, trace[i - 1], events[i - 1], trace[i]);
      }
    }
  }

  /** No stale head is recorded if no reorg overtakes a section in process. */
  lemma NotOvertaken(trace: seq<System>, events: seq<Happening>, i: nat)
    requires Follows(trace, events, Happens) && InHand(trace[0]) && Shape(trace[0].x) && i <= |events|
    requires forall j {:trigger events[j]} :: 0 <= j < i ==> !Overtakes(trace[j], events[j], trace[j + 1])
    ensures NoneStale(trace, events, i)
  {
    for j := 0 to i
      invariant Shape(trace[j].x) && InHand(trace[j]) && NoneStale(trace, events, j)
    {
      assert Happens(trace[j], events[j], trace[j + 1]);
      AfterKeepsPhase(trace[j], events[j], trace[j + 1]);
      InHandKept(trace[j], events[j], trace[j + 1]);
    }
  }

  /** When the index has heard of everything and no cut is under way, the recorded heads are the last blocks of the
      stored sections of the chain. */
  ghost predicate Canonically(s: System)
    requires s.route != []
  {
    var store := s.x.race.store;
    forall n: nat {:trigger n in store.heads} :: (n in store.heads <==> n < store.stored) &&
      (n < store.stored ==> var b := store.heads[n];
         b.number + 1 == (n + 1) * s.x.size && Ancestor(s.route[0], b.number) == Some(b))
  }

  lemma QuietIsCanonical(store: set<Block>, genesis: Block, s: System)
    requires Rooted(store, genesis) && Fit(store, s) && Lawful(s) && |s.route| == 1 && Over(s.x.race)
    ensures Canonically(s)
  {
    var st := s.x.race.store;
    assert Exact(st, s.x.size);
    forall n: nat | n < st.stored
      ensures n in st.heads && st.heads[n].number + 1 == (n + 1) * s.x.size &&
              Ancestor(s.route[0], st.heads[n].number) == Some(st.heads[n])
    {
      assert Standing(s.x, n);
      var j: nat :| OnWay(s.route, j, st.heads[n]);
      ComingIsStored(store, genesis, s.route, st.heads[n]);
      HeadNumber(store, genesis, st.heads, s.x.size, st.stored, n);
    }
  }

  // ---- a run that breaks the law ----

  /** The index that knows of one section of two blocks and is processing it. */
  function AtWork(last: Option<Block>, done: nat): Index
  {
    Fresh(2, 0).(known := 1, phase := Processing(0, None, last, done))
  }

  /** Reading a section of two blocks. */
  lemma SectionRead(genesis: Block, a: Block)
    requires genesis == Block(0, None, 1, [], 0) && a == Block(1, Some(genesis), 1, [], 0)
    ensures Happens(System(Fresh(2, 0), [a], true), Tell, System(Fresh(2, 0).(known := 1), [a], false))
    ensures Happens(System(Fresh(2, 0).(known := 1), [a], false), Inside(Start), System(AtWork(None, 0), [a], false))
    ensures Happens(System(AtWork(None, 0), [a], false), Read(true), System(AtWork(Some(genesis), 1), [a], false))
    ensures Happens(System(AtWork(Some(genesis), 1), [a], false), Read(true), System(AtWork(Some(a), 2), [a], false))
  {
    assert Ancestor(a, 0) == Some(genesis) && Ancestor(a, 1) == Some(a);
  }

  lemma Siblings(genesis: Block, a: Block, b: Block)
    requires genesis == Block(0, None, 1, [], 0)
    requires a == Block(1, Some(genesis), 1, [], 0) && b == Block(1, Some(genesis), 2, [], 1)
    ensures IsCommon(a, b, genesis) && !Coming([b], a)
  {
    forall n: nat | n > 0 && Ancestor(a, n).Some? ensures Ancestor(a, n) != Ancestor(b, n) {
      NotAbove(a, n);
    }
    assert Ancestor(a, 0) == Some(genesis) && Ancestor(b, 0) == Some(genesis) && Ancestor(b, 1) == Some(b);
  }

  /** The section has been read when its second block is replaced and the index hears of that; then it is recorded with
      the block that is no longer on the chain, and nothing is left to hear of. */
  lemma StaleSection(genesis: Block, a: Block, b: Block)
    requires genesis == Block(0, None, 1, [], 0)
    requires a == Block(1, Some(genesis), 1, [], 0) && b == Block(1, Some(genesis), 2, [], 1)
    ensures var read := AtWork(Some(a), 2);
            var done := Fresh(2, 0).(known := 1, race := Race(Store(1, 1, map[0 := a]), NoCut, NoCut));
            Happens(System(read, [a], false), Extend(b), System(read, [a, b], false)) &&
            Happens(System(read, [a, b], false), Hear, System(read.(known := 0), [b], true)) &&
            Happens(System(read.(known := 0), [b], true), Tell, System(read, [b], false)) &&
            Happens(System(read, [b], false), Inside(Done(true)), System(done, [b], false)) &&
            !Lawful(System(done, [b], false))
  {
    var read := AtWork(Some(a), 2);
    var done := Fresh(2, 0).(known := 1, race := Race(Store(1, 1, map[0 := a]), NoCut, NoCut));
    Siblings(genesis, a, b);
    assert [a, b][1..] == [b] && [a] + [b] == [a, b];
    assert Heard(System(read, [a, b], false), genesis) == System(read.(known := 0), [b], true);
    assert Without(map[0 := a], 1, 0) == map[0 := a];
    assert Standing(done, 0);
  }

  /** After that no further section can be completed as long as the chain does not come back: the next block does not
      follow the recorded one. */
  lemma NoSectionAfterStale(store: set<Block>, genesis: Block, s: System, n: nat)
    requires Rooted(store, genesis) && Fit(store, s) && |s.route| == 1 && Over(s.x.race) && s.x.phase == Waiting
    requires n + 1 == s.x.race.store.stored < s.x.known && n in s.x.race.store.heads
    requires Ancestor(s.route[0], (n + 1) * s.x.size - 1) != Some(s.x.race.store.heads[n])
    ensures var y := After(After(s.x, Start), Next(Canonical(s.(x := After(s.x, Start)))));
            y.phase == Failing
  {
    var x := After(s.x, Start);
    var number := (n + 1) * s.x.size;
    var next := Canonical(s.(x := x));
    assert NextNumber(x) == number;
    if next.Some? {
      NumberOfAncestor(s.route[0], number);
      NotAbove(s.route[0], number);
      AncestorIsStored(store, genesis, s.route[0], number);
      AncestorOfAncestor(s.route[0], number, number - 1);
      assert ParentIn(store, next.value).Some? by {
        assert next.value != genesis;
      }
    }
  }

  /** The index together with its event loop. */
  class IndexedChain {
    var s: System

    constructor (size: nat, confirms: nat, head: Block)
      requires size > 0
      ensures s == System(Fresh(size, confirms), [head], true) && Inv(s.x) && Lawful(s) && InHand(s)
    {
      s := System(Fresh(size, confirms), [head], true);
    }

    /** The event loop takes the next head. */
    method TakeNext(store: set<Block>, genesis: Block)
      requires Rooted(store, genesis) && Shape(s.x) && CanHear(s) && s.route[0] in store && s.route[1] in store
      modifies this
      ensures Happens(old(s), Hear, s)
    {
      var header := s.route[1];
      var fork := FindCommonAncestor(store, s.route[0], header);
      FoundIsCommon(store, genesis, s.route[0], header, fork);
      var x := s.x;
      if header.parent != Some(s.route[0]) {
        x := After(x, Head(fork.value.number, true));
      }
      s := System(x, s.route[1..], true);
      assert s == Heard(old(s), fork.value);
    }

    method Happen(store: set<Block>, genesis: Block, h: Happening)
      requires Rooted(store, genesis) && Shape(s.x) && s.route != [] && Stored(store, h)
      requires forall j {:trigger s.route[j]} :: 0 <= j < |s.route| ==> s.route[j] in store
      modifies this
      ensures Happens(old(s), h, s) && Shape(s.x) && s.route != []
      ensures forall j {:trigger s.route[j]} :: 0 <= j < |s.route| ==> s.route[j] in store
    {
      match h
      case Extend(head) => s := s.(route := s.route + [head]);
      case Hear =>
        if CanHear(s) {
          AfterShapes(s.x);
          TakeNext(store, genesis);
        }
      case Tell =>
        if s.owed && s.x.race.reorg.NoCut? {
          AfterShape(s.x, Head(s.route[0].number, false));
          s := s.(x := After(s.x, Head(s.route[0].number, false)), owed := false);
        }
      case Read(available) =>
        var b := if available then Canonical(s) else None;
        AfterShape(s.x, Next(b));
        s := s.(x := After(s.x, Next(b)));
      case Inside(e) =>
        if !e.Head? && !e.Next? {
          AfterShape(s.x, e);
          s := s.(x := After(s.x, e));
        }
    }

    /** In every run without a harmful meeting of the two cuts, the recorded heads are on the way to a head of the
        chain exactly as long as no stale one is recorded, and then they are the section ends of the chain
        whenever the index has heard of everything and no cut is under way. */
    method Run(store: set<Block>, genesis: Block, events: seq<Happening>) returns (ghost trace: seq<System>)
      requires Rooted(store, genesis) && Fit(store, s) && Lawful(s)
      requires forall j {:trigger events[j]} :: 0 <= j < |events| ==> Stored(store, events[j])
      modifies this
      ensures Follows(trace, events, Happens) && trace[0] == old(s) && trace[|events|] == s
      ensures forall i: nat {:trigger CalmUpTo(trace, i)} :: i < |trace| && CalmUpTo(trace, i) ==>
                (LawfulUpTo(trace, i) <==> NoneStale(trace, events, i)) && trace[i].route != [] &&
                (LawfulUpTo(trace, i) && |trace[i].route| == 1 && Over(trace[i].x.race) ==> Canonically(trace[i]))
    {
      trace := [s];
      for i := 0 to |events|
        invariant Follows(trace, events[..i], Happens) && trace[0] == old(s) && trace[i] == s
        invariant Shape(s.x) && s.route != []
        invariant forall j {:trigger s.route[j]} :: 0 <= j < |s.route| ==> s.route[j] in store
      {
        assert Stored(store, events[i]);
        Happen(store, genesis, events[i]);
        FollowsMore(trace, events, i, s, Happens);
        trace := trace + [s];
      }
      assert events[..|events|] == events;
      LawAlong(store, genesis, trace, events);
    }
  }

  lemma AfterShapes(x: Index)
    requires Shape(x)
    ensures forall number: nat {:trigger Head(number, true)} :: Shape(After(x, Head(number, true)))
  {
    forall number: nat ensures Shape(After(x, Head(number, true))) {
      AfterShape(x, Head(number, true));
    }
  }

  lemma LawAlong(store: set<Block>, genesis: Block, trace: seq<System>, events: seq<Happening>)
    requires Rooted(store, genesis) && Follows(trace, events, Happens) && Fit(store, trace[0]) && Lawful(trace[0])
    requires forall j {:trigger events[j]} :: 0 <= j < |events| ==> Stored(store, events[j])
    ensures forall i: nat {:trigger CalmUpTo(trace, i)} :: i < |trace| && CalmUpTo(trace, i) ==>
              (LawfulUpTo(trace, i) <==> NoneStale(trace, events, i)) && trace[i].route != [] &&
              (LawfulUpTo(trace, i) && |trace[i].route| == 1 && Over(trace[i].x.race) ==> Canonically(trace[i]))
  {
    forall i: nat | i < |trace| && CalmUpTo(trace, i)
      ensures (LawfulUpTo(trace, i) <==> NoneStale(trace, events, i)) && trace[i].route != []
      ensures LawfulUpTo(trace, i) && |trace[i].route| == 1 && Over(trace[i].x.race) ==> Canonically(trace[i])
    {
      LawfulExactly(store, genesis, trace, events, i);
      FitAt(store, trace, events, i);
      if LawfulUpTo(trace, i) && |trace[i].route| == 1 && Over(trace[i].x.race) {
        QuietIsCanonical(store, genesis, trace[i]);
      }
    }
  }
}
