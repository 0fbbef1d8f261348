/** Hashing a full chunk from Write to Sum (bmt/bmt.go) agrees with the reference hasher. */
module BmtChunk {
  import opened Bmt
  import opened BmtHasher
  import opened Numbers

  // ---- every schedule ends with the result ----

  /** How many steps a goroutine can still take. */
  function Rank(pc: Pc, depth: nat): nat
  {
    match pc
    case Ready => 3 * depth + 1
    case Carry(c, _) => 3 * c.level
    case Wrote(c) => if c.level == 0 then 0 else 3 * c.level - 1
    case Second(c) => if c.level == 0 then 0 else 3 * c.level - 2
    case _ => 0
  }

  function Ranks(pcs: seq<Pc>, depth: nat): nat
  {
    if pcs == [] then 0 else Ranks(pcs[..|pcs| - 1], depth) + Rank(pcs[|pcs| - 1], depth)
  }

  lemma {:induction false} RanksUpdate(pcs: seq<Pc>, depth: nat, i: nat, pc: Pc)
    requires i < |pcs|
    ensures Ranks(pcs[i := pc], depth) == Ranks(pcs, depth) - Rank(pcs[i], depth) + Rank(pc, depth)
    decreases |pcs|
  {
    var n := |pcs| - 1;
    if i < n {
      assert pcs[i := pc][..n] == pcs[..n][i := pc];
      RanksUpdate(pcs[..n], depth, i, pc);
    } else {
      assert pcs[i := pc][..n] == pcs[..n];
    }
  }

  /** How many steps finalise can still take. */
  function WalkRank(walk: Walk, depth: nat): nat
  {
    match walk
    case Unstarted => depth + 1
    case Walking(n, _) => n.level + 1
    case Walked => 0
  }

  function Work(s: State, depth: nat): nat
  {
    Ranks(s.pcs, depth) + WalkRank(s.walk, depth)
  }

  lemma StepWorks(H: Bytes -> Bytes, depth: nat, sections: seq<Bytes>, s: State, i: nat)
    requires CanStep(s, i) && |sections| == |s.pcs|
    ensures Work(Step(H, depth, sections, s, i), depth) < Work(s, depth)
  {
    var t := Step(H, depth, sections, s, i);
    StepRanks(H, depth, sections, s, i);
    RanksUpdate(s.pcs, depth, i, t.pcs[i]);
  }

  lemma StepRanks(H: Bytes -> Bytes, depth: nat, sections: seq<Bytes>, s: State, i: nat)
    requires CanStep(s, i) && |sections| == |s.pcs|
    ensures var t := Step(H, depth, sections, s, i);
            |t.pcs| == |s.pcs| && t.pcs == s.pcs[i := t.pcs[i]] && t.walk == s.walk &&
            Rank(t.pcs[i], depth) < Rank(s.pcs[i], depth)
  {
    var t := Step(H, depth, sections, s, i);
    match s.pcs[i]
    case Ready => assert t.pcs[i].Carry? && t.pcs[i].at == Node(depth, i);
    case Carry(c, _) => assert t.pcs[i] == Wrote(c);
    case Wrote(c) => assert t.pcs[i] == Exited || t.pcs[i] == Second(c);
    case Second(c) => assert t.pcs[i] == Sent || (t.pcs[i].Carry? && t.pcs[i].at == Parent(c));
  }

  /** Either finalise is still to come or some goroutine can move. */
  lemma SomeoneMoves(want: Node -> Bytes, depth: nat, before: map<Node, nat>, s: State, ph: Phases)
    requires Inv(want, depth, before, s, ph) && depth > 0 && s.result == [] && s.walk == Walked
    ensures exists i: nat :: CanStep(s, i)
  {
    if Finished(s) {
      FinishedDelivers(want, depth, before, s, ph);
      assert false;
    }
    var i: nat :| i < |s.pcs| && s.pcs[i] != Exited && s.pcs[i] != Sent;
    NeverStuck(want, depth, before, s, ph, i);
  }

  /** Lets the goroutines run under any schedule until the result arrives. */
  method RunToEnd(H: Bytes -> Bytes, ghost want: Node -> Bytes, depth: nat, sections: seq<Bytes>, start: State,
                  ghost before: map<Node, nat>)
    returns (s: State)
    requires Start(depth, before, start) && Fits(H, want, depth, sections) && depth > 0
    ensures s.result == [want(ROOT)] && Finished(s) && s.unbalanced == {}
    ensures forall n: Node {:trigger Count(s.toggles, n)} :: n.level < depth && InTree(n) ==>
              Count(s.toggles, n) == Count(before, n) + 2 && Count(s.toggles, n) % 2 == 0
  {
    s := start;
    ghost var ph: Phases := map[];
    StartIsInv(want, depth, before, start);
    while s.result == []
      invariant Inv(want, depth, before, s, ph) && |s.pcs| == |sections|
      decreases Work(s, depth)
    {
      if s.walk != Walked {
        UpTheEdge(depth, s);
        var now: bool := *;
        if now || !exists i: nat :: i < |s.pcs| && CanStep(s, i) {
          KeepsWalk(want, depth, before, s, ph);
          s := WalkStep(depth, s);
          continue;
        }
      } else {
        SomeoneMoves(want, depth, before, s, ph);
      }
      var i: nat :| i < |s.pcs| && CanStep(s, i);
      StepWorks(H, depth, sections, s, i);
      ph := StepKeeps(H, want, depth, sections, before, s, ph, i);
      s := Step(H, depth, sections, s, i);
    }
    DeliveredIsClean(want, depth, before, s, ph);
  }

  // ---- the sections of a chunk ----

  function Joined(parts: seq<Bytes>): Bytes
  {
    if parts == [] then [] else Joined(parts[..|parts| - 1]) + parts[|parts| - 1]
  }

  lemma JoinedMore(parts: seq<Bytes>, p: Bytes)
    ensures Joined(parts + [p]) == Joined(parts) + p
  {
    assert (parts + [p])[..|parts|] == parts;
  }

  lemma {:induction false} JoinedSplit(a: seq<Bytes>, b: seq<Bytes>)
    ensures Joined(a + b) == Joined(a) + Joined(b)
    decreases |b|
  {
    if b == [] {
      assert a + b == a;
    } else {
      var n := |b| - 1;
      assert a + b == (a + b[..n]) + [b[n]];
      JoinedMore(a + b[..n], b[n]);
      JoinedSplit(a, b[..n]);
    }
  }

  ghost predicate AllOf(parts: seq<Bytes>, sec: nat)
  {
    forall i {:trigger parts[i]} :: 0 <= i < |parts| ==> |parts[i]| == sec
  }

  lemma {:induction false} SameLength(a: seq<Bytes>, b: seq<Bytes>, sec: nat)
    requires |a| == |b| && AllOf(a, sec) && AllOf(b, sec)
    ensures |Joined(a)| == |Joined(b)|
  {
    if a != [] {
      SameLength(a[..|a| - 1], b[..|b| - 1], sec);
    }
  }

  /** The sections below a node: halved on the way down like the data. */
  ghost function Group(sections: seq<Bytes>, c: Node): seq<Bytes>
    decreases c.level
  {
    if c.level == 0 then sections else Half(Group(sections, Parent(c)), IsLeft(c))
  }

  /** A node's group has as many sections as it has leaves, and they start at its first leaf. */
  lemma {:induction false} GroupIs(sections: seq<Bytes>, depth: nat, c: Node)
    requires |sections| == Pow2(depth) && c.level <= depth && InTree(c)
    ensures |Group(sections, c)| == Pow2(depth - c.level)
    ensures forall j {:trigger Group(sections, c)[j]} :: 0 <= j < Pow2(depth - c.level) ==>
              0 <= c.index * Pow2(depth - c.level) + j < |sections| &&
              Group(sections, c)[j] == sections[c.index * Pow2(depth - c.level) + j]
    decreases c.level
  {
    if c.level > 0 {
      var w, p := Pow2(depth - c.level), Parent(c);
      GroupIs(sections, depth, p);
      assert Pow2(depth - p.level) == 2 * w;
      Halves(c.index, w);
      var off := if IsLeft(c) then 0 else w;
      forall j | 0 <= j < w
        ensures 0 <= c.index * w + j < |sections| && Group(sections, c)[j] == sections[c.index * w + j]
      {
        assert Group(sections, c)[j] == Group(sections, p)[off + j];
      }
    }
  }

  lemma Halves(i: nat, w: nat)
    ensures (i / 2) * (2 * w) == if i % 2 == 0 then i * w else i * w - w
  {
    if i % 2 == 0 {
      assert i == 2 * (i / 2);
    } else {
      assert i == 2 * (i / 2) + 1;
    }
  }

  /** Halving the sections halves the data. */
  lemma JoinedHalves(whole: seq<Bytes>, sec: nat, h: nat, left: bool)
    requires AllOf(whole, sec) && |whole| == 2 * h
    ensures AllOf(Half(whole, left), sec) && Joined(Half(whole, left)) == Half(Joined(whole), left)
  {
    var a, b := whole[..h], whole[h..];
    assert whole == a + b && |whole| / 2 == h;
    JoinedSplit(a, b);
    SameLength(a, b, sec);
  }

  lemma HalfOfGroup(whole: seq<Bytes>, data: Bytes, sec: nat, h: nat, left: bool)
    requires AllOf(whole, sec) && |whole| == 2 * h && Joined(whole) == data
    ensures AllOf(Half(whole, left), sec) && Joined(Half(whole, left)) == Half(data, left)
  {
    JoinedHalves(whole, sec, h, left);
  }

  lemma {:induction false} GroupIsPart(d: Bytes, sections: seq<Bytes>, sec: nat, depth: nat, c: Node)
    requires |sections| == Pow2(depth) && AllOf(sections, sec) && Joined(sections) == d && c.level <= depth && InTree(c)
    ensures Joined(Group(sections, c)) == Part(d, c) && AllOf(Group(sections, c), sec)
    decreases c.level
  {
    if c.level > 0 {
      var p := Parent(c);
      GroupIsPart(d, sections, sec, depth, p);
      GroupIs(sections, depth, p);
      HalfOfGroup(Group(sections, p), Part(d, p), sec, Pow2(depth - c.level), IsLeft(c));
    }
  }

  ghost function Wanted(H: Bytes -> Bytes, d: Bytes, depth: nat): Node -> Bytes
  {
    c => Expected(H, d, depth, c)
  }

  /** The sections that Write hands to the leaves are the leaves' parts of the chunk. */
  lemma SectionsFit(H: Bytes -> Bytes, d: Bytes, sections: seq<Bytes>, sec: nat, depth: nat)
    requires |sections| == Pow2(depth) && AllOf(sections, sec) && Joined(sections) == d
    ensures Fits(H, Wanted(H, d, depth), depth, sections) && Wanted(H, d, depth)(ROOT) == Perfect(H, d, depth)
  {
    forall i | 0 <= i < |sections| ensures Wanted(H, d, depth)(Node(depth, i)) == H(sections[i]) {
      WantedLeaf(H, d, sections, sec, depth, i);
    }
    forall n: Node | n.level < depth
      ensures Wanted(H, d, depth)(n) == H(Wanted(H, d, depth)(Child(n, false)) + Wanted(H, d, depth)(Child(n, true)))
    {
      ExpectedFromChildren(H, d, depth, n);
    }
    WantedRoot(H, d, depth);
  }

  lemma WantedLeaf(H: Bytes -> Bytes, d: Bytes, sections: seq<Bytes>, sec: nat, depth: nat, i: nat)
    requires |sections| == Pow2(depth) && AllOf(sections, sec) && Joined(sections) == d && i < |sections|
    ensures Wanted(H, d, depth)(Node(depth, i)) == H(sections[i])
  {
    LeafPart(d, sections, sec, depth, i);
    assert Expected(H, d, depth, Node(depth, i)) == Perfect(H, sections[i], 0);
  }

  lemma WantedRoot(H: Bytes -> Bytes, d: Bytes, depth: nat)
    ensures Wanted(H, d, depth)(ROOT) == Perfect(H, d, depth)
  {
    assert Part(d, ROOT) == d;
  }

  lemma LeafPart(d: Bytes, sections: seq<Bytes>, sec: nat, depth: nat, i: nat)
    requires |sections| == Pow2(depth) && AllOf(sections, sec) && Joined(sections) == d && i < |sections|
    ensures Part(d, Node(depth, i)) == sections[i]
  {
    var leaf := Node(depth, i);
    InTreeIs(leaf);
    GroupIs(sections, depth, leaf);
    GroupIsPart(d, sections, sec, depth, leaf);
    assert Pow2(0) == 1 && Group(sections, leaf)[0] == sections[i];
    assert Group(sections, leaf) == [sections[i]];
    assert Joined([sections[i]]) == sections[i] by {
      JoinedMore([], sections[i]);
      assert [] + [sections[i]] == [sections[i]];
    }
  }

  // ---- Write ----

  /** What has been written so far: whole sections handed to their leaves, and the one being filled. */
  ghost predicate Buffered(data: Bytes, sections: seq<Bytes>, segment: Bytes, sec: nat, leaves: nat)
  {
    AllOf(sections, sec) && |segment| <= sec && |sections| < leaves && data == Joined(sections) + segment &&
    (sections != [] ==> segment != [])
  }

  /** The bytes that `k` sections hold. */
  ghost function Room(k: nat, sec: nat): nat
  {
    if k == 0 then 0 else sec + Room(k - 1, sec)
  }

  lemma {:induction false} JoinedLength(parts: seq<Bytes>, sec: nat)
    requires AllOf(parts, sec)
    ensures |Joined(parts)| == Room(|parts|, sec)
  {
    if parts != [] {
      JoinedLength(parts[..|parts| - 1], sec);
    }
  }

  lemma {:induction false} RoomIs(k: nat, sec: nat)
    ensures Room(k, sec) == k * sec
  {
    if k > 0 {
      RoomIs(k - 1, sec);
    }
  }

  /** Sections and a segment that hold `data` and the first `taken` bytes of `b`. */
  ghost predicate Holding(data: Bytes, b: Bytes, taken: nat, sections: seq<Bytes>, segment: Bytes, sec: nat)
  {
    taken <= |b| && AllOf(sections, sec) && 0 < |segment| <= sec && data + b[..taken] == Joined(sections) + segment
  }

  /** Cuts off sections while there is data and a next leaf; `taken` of the first `total` bytes of `b` are
      already used. It stops when they all are, or at the last leaf. */
  method CutSections(sections: seq<Bytes>, segment: Bytes, b: Bytes, taken: nat, total: nat, sec: nat, leaves: nat,
                     ghost data: Bytes)
    returns (out: seq<Bytes>, s: Bytes, ghost rest: nat)
    requires sec > 0 && taken <= total <= |b| && |sections| < leaves && Holding(data, b, taken, sections, segment, sec)
    requires taken < total && |sections| < leaves - 1 ==> |segment| == sec
    ensures Holding(data, b, rest, out, s, sec) && |out| < leaves && taken <= rest <= total
    ensures rest == total || (|out| == leaves - 1 && |s| == if |sections| < leaves - 1 then sec else |segment|)
    ensures |sections| == leaves - 1 ==> s == segment
  {
    out, s := sections, segment;
    var need: int, used, chunk: int, i := total - taken, taken, sec, |sections|;
    while need > 0 && i < leaves - 1
      invariant i == |out| < leaves && taken <= used <= total && Holding(data, b, used, out, s, sec)
      invariant |sections| <= i && (i == |sections| ==> s == segment)
      invariant if need > 0 then used + need == total && chunk == sec else used == total
      invariant need > 0 && (i > |sections| || i < leaves - 1) ==> |s| == sec
      decreases need
    {
      ghost var before := used;
      out := out + [s];
      need := need - chunk;
      if need < 0 {
        chunk := chunk + need;
      }
      s := b[used..used + chunk];
      used := used + chunk;
      i := i + 1;
      NextSection(data, b, before, used, out[..|out| - 1], out[|out| - 1], s);
    }
    rest := used;
  }

  lemma NextSection(data: Bytes, b: Bytes, rest: nat, next: nat, out: seq<Bytes>, was: Bytes, s: Bytes)
    requires rest <= next <= |b| && s == b[rest..next] && data + b[..rest] == Joined(out) + was
    ensures data + b[..next] == Joined(out + [was]) + s
  {
    JoinedMore(out, was);
    var joined, first := Joined(out) + was, b[..rest];
    assert b[..next] == first + s;
    PlusIsAssociative(data, first, s);
  }

  lemma PlusIsAssociative(a: Bytes, b: Bytes, c: Bytes)
    ensures a + (b + c) == (a + b) + c
  {
  }

  /** What fits into `capacity` bytes. */
  function Fitting(data: Bytes, capacity: nat): Bytes
  {
    if |data| <= capacity then data else data[..capacity]
  }

  /** The bytes of the last section. */
  function LastRoom(count: nat, size: nat): nat
  {
    if count % 2 == 0 then 2 * size else size
  }

  /** How many of `given` bytes Write takes when `i` sections are cut off and `held` bytes are in the next: it
      reckons with the room from that section on as if nothing was held, and with whole sections. */
  ghost function Taken(leaves: nat, sec: nat, last: nat, i: nat, held: nat, given: nat): int
    requires i < leaves
  {
    var between := Room(leaves - 1 - i, sec);
    Least(Least(given, between + last), between + (if i < leaves - 1 then sec else last) - held)
  }

  /** Whether that stays within the capacity. */
  ghost predicate StaysWithin(count: nat, size: nat, i: nat, held: nat, before: nat, given: nat)
  {
    before + given <= count * size || count % 2 == 0 || held == 0 || i == (count + 1) / 2 - 1
  }

  /** Hasher.Write: sections are cut off in order and the rest is kept, however the data was split over the
      calls. What is beyond the capacity is ignored, but for an odd number of segments the last section
      can be filled beyond its one segment. */
  method Write(count: nat, size: nat, sections: seq<Bytes>, segment: Bytes, b: Bytes, ghost data: Bytes)
    returns (out: seq<Bytes>, s: Bytes)
    requires size > 0 && count > 0 && Buffered(data, sections, segment, 2 * size, (count + 1) / 2)
    requires |data| <= count * size
    ensures var taken := Taken((count + 1) / 2, 2 * size, LastRoom(count, size), |sections|, |segment|, |b|);
            0 <= taken <= |b| && Buffered(data + b[..taken], out, s, 2 * size, (count + 1) / 2) &&
            (|data| + taken <= count * size <==> StaysWithin(count, size, |sections|, |segment|, |data|, |b|)) &&
            (|data| + taken <= count * size ==> data + b[..taken] == Fitting(data + b, count * size))
  {
    out, s := sections, segment;
    var leaves := (count + 1) / 2;
    TakenOf(count, size, sections, segment, data, b);
    if |b| == 0 {
      assert data + b[..0] == data;
      return;
    }
    assert |data| <= Room(leaves - 1, 2 * size) + LastRoom(count, size) by {
      Capacity(count, size, 0);
    }
    var room, chunk := Limits(count, size, |sections|);
    out, s := WriteSome(leaves, 2 * size, room, chunk, sections, segment, b, data, LastRoom(count, size));
  }

  lemma TakenOf(count: nat, size: nat, sections: seq<Bytes>, segment: Bytes, data: Bytes, b: Bytes)
    requires size > 0 && count > 0 && Buffered(data, sections, segment, 2 * size, (count + 1) / 2)
    requires |data| <= count * size
    ensures var taken := Taken((count + 1) / 2, 2 * size, LastRoom(count, size), |sections|, |segment|, |b|);
            0 <= taken <= |b| &&
            (|data| + taken <= count * size <==> StaysWithin(count, size, |sections|, |segment|, |data|, |b|)) &&
            (|data| + taken <= count * size ==> data + b[..taken] == Fitting(data + b, count * size))
  {
    var leaves, last := (count + 1) / 2, LastRoom(count, size);
    Capacity(count, size, 0);
    Reckoned(leaves, 2 * size, last, sections, segment, data, |b|);
    FittingIs(data, b, Taken(leaves, 2 * size, last, |sections|, |segment|, |b|), count * size);
  }

  /** The part of Write after the room from the current section on is known. */
  method WriteSome(leaves: nat, sec: nat, room: nat, chunk: nat, sections: seq<Bytes>, segment: Bytes, b: Bytes,
                   ghost data: Bytes, ghost last: nat)
    returns (out: seq<Bytes>, s: Bytes)
    requires b != [] && Buffered(data, sections, segment, sec, leaves) && 0 < last <= sec
    requires |data| <= Room(leaves - 1, sec) + last && room == Room(leaves - 1 - |sections|, sec) + last
    requires chunk == if |sections| < leaves - 1 then sec else last
    ensures var taken := Taken(leaves, sec, last, |sections|, |segment|, |b|);
            0 <= taken <= |b| && Buffered(data + b[..taken], out, s, sec, leaves)
  {
    JoinedLength(sections, sec);
    RoomSum(|sections|, leaves - 1 - |sections|, sec);
    var need := if |b| < room then |b| else room;
    ghost var taken;
    out, s, taken := Fill(sections, segment, b, need, chunk, sec, leaves, data);
    assert data + b[..0] == data;
    HeldLength(data, b, 0, sections, segment, sec, leaves);
    HeldLength(data, b, taken, out, s, sec, leaves);
    assert taken == Taken(leaves, sec, last, |sections|, |segment|, |b|) by {
      InNumbers(Room(leaves - 1 - |sections|, sec), last, chunk, |segment|, |b|, need, taken, Room(|sections|, sec),
                Room(|out|, sec), |s|);
    }
  }

  /** Everything was taken that may be, or the sections are full: `before` bytes in the sections before the
      current one, `between` in those from it to the last, `held` in the segment, `given` more. */
  lemma InNumbers(between: nat, last: nat, chunk: nat, held: nat, given: nat, need: nat, used: nat, before: nat,
                  whole: nat, part: nat)
    requires before + held + used == whole + part && whole <= before + between && part <= chunk && used <= need
    requires need == Least(given, between + last) && (used == need || (whole == before + between && part == chunk))
    ensures used == Least(Least(given, between + last), between + chunk - held)
  {
  }

  /** What is taken, in numbers: how much it is at most, and whether it is within the capacity. */
  lemma Reckoned(leaves: nat, sec: nat, last: nat, sections: seq<Bytes>, segment: Bytes, data: Bytes, given: nat)
    requires Buffered(data, sections, segment, sec, leaves) && 0 < last <= sec
    requires |data| <= Room(leaves - 1, sec) + last
    ensures var taken, capacity := Taken(leaves, sec, last, |sections|, |segment|, given), Room(leaves - 1, sec) + last;
            0 <= taken <= given &&
            (|data| + taken <= capacity <==>
             |data| + given <= capacity || last == sec || |segment| == 0 || |sections| == leaves - 1) &&
            (|data| + taken <= capacity ==>
             |data| + taken == if |data| + given <= capacity then |data| + given else capacity)
  {
    JoinedLength(sections, sec);
    RoomSum(|sections|, leaves - 1 - |sections|, sec);
    assert |data| == |Joined(sections)| + |segment|;
  }

  /** Three segments of one byte, one byte written and three more given: all four are taken. */
  lemma Overfilled()
    ensures Taken(2, 2, LastRoom(3, 1), 0, 1, 3) == 3 && !StaysWithin(3, 1, 0, 1, 1, 3)
  {
    assert Room(1, 2) == 2;
  }

  /** The room from section `i` on, and how much of it belongs to that section. */
  method Limits(count: nat, size: nat, i: nat) returns (room: nat, chunk: nat)
    requires size > 0 && count > 0 && i < (count + 1) / 2
    ensures room == Room((count + 1) / 2 - 1 - i, 2 * size) + LastRoom(count, size)
    ensures chunk == if i < (count + 1) / 2 - 1 then 2 * size else LastRoom(count, size)
  {
    Capacity(count, size, i);
    RoomLeft((count + 1) / 2 - 1 - i, 2 * size);
    room, chunk := count * size - i * 2 * size, size;
    if room > chunk {
      chunk := chunk * 2;
    }
  }

  /** The part of Write after it is known how much it may take. */
  method Fill(sections: seq<Bytes>, segment: Bytes, b: Bytes, need: nat, chunk: nat, sec: nat, leaves: nat,
              ghost data: Bytes)
    returns (out: seq<Bytes>, s: Bytes, ghost used: nat)
    requires 0 < need <= |b| && 0 < chunk <= sec && |segment| <= chunk && Buffered(data, sections, segment, sec, leaves)
    requires |sections| < leaves - 1 ==> chunk == sec
    ensures Holding(data, b, used, out, s, sec) && |out| < leaves && used <= need
    ensures |s| <= chunk && (used == need || (|out| == leaves - 1 && |s| == chunk))
  {
    var first := chunk - |segment|;
    if need < first {
      first := need;
    }
    out, s := sections, segment + b[..first];
    PlusIsAssociative(Joined(sections), segment, b[..first]);
    out, s, used := CutSections(out, s, b, first, need, sec, leaves, data);
  }

  /** The bytes that are held, counted by sections. */
  lemma HeldLength(data: Bytes, b: Bytes, used: nat, out: seq<Bytes>, s: Bytes, sec: nat, leaves: nat)
    requires used <= |b| && AllOf(out, sec) && data + b[..used] == Joined(out) + s && |out| < leaves
    ensures |data| + used == Room(|out|, sec) + |s|
    ensures Room(|out|, sec) + Room(leaves - 1 - |out|, sec) == Room(leaves - 1, sec)
    ensures |out| == leaves - 1 ==> Room(|out|, sec) == Room(leaves - 1, sec)
  {
    JoinedLength(out, sec);
    RoomSum(|out|, leaves - 1 - |out|, sec);
    assert |data + b[..used]| == |Joined(out) + s|;
  }

  lemma FittingIs(data: Bytes, b: Bytes, used: nat, capacity: nat)
    requires used <= |b|
    requires |data| + used <= capacity ==>
      |data| + used == if |data| + |b| <= capacity then |data| + |b| else capacity
    ensures |data| + used <= capacity ==> Fitting(data + b, capacity) == data + b[..used]
  {
  }

  lemma {:induction false} RoomSum(a: nat, b: nat, sec: nat)
    ensures Room(a, sec) + Room(b, sec) == Room(a + b, sec)
  {
    if a > 0 {
      RoomSum(a - 1, b, sec);
    }
  }

  lemma RoomLeft(k: nat, sec: nat)
    ensures k == 0 ==> Room(k, sec) == 0
    ensures k > 0 ==> Room(k, sec) >= sec
  {
  }

  /** The capacity, and the capacity counted from the current section. */
  lemma Capacity(count: nat, size: nat, i: nat)
    requires count > 0 && i < (count + 1) / 2
    ensures count * size == Room((count + 1) / 2 - 1, 2 * size) + LastRoom(count, size)
    ensures count * size - i * 2 * size == Room((count + 1) / 2 - 1 - i, 2 * size) + LastRoom(count, size)
    ensures i * 2 * size == Room(i, 2 * size)
  {
    var whole := (count + 1) / 2 - 1;
    RoomIs(i, 2 * size);
    RoomIs(whole, 2 * size);
    RoomSum(i, whole - i, 2 * size);
    Regroup(i, size);
    Regroup(whole, size);
    assert count == 2 * whole + if count % 2 == 0 then 2 else 1;
    Distribute(2 * whole, if count % 2 == 0 then 2 else 1, size);
  }

  lemma Regroup(i: int, size: int)
    ensures i * (2 * size) == i * 2 * size == (2 * i) * size
  {
  }

  lemma Distribute(a: int, b: int, size: int)
    ensures (a + b) * size == a * size + b * size
  {
  }

  /** The depth of the tree for `n` segments. */
  method Depth(n: nat) returns (d: nat)
    requires n > 0
    ensures forall k: nat :: k >= 1 && n == Pow2(k) ==> d == k - 1
  {
    d := 0;
    var l := (n - 1) / 2;
    while l > 0
      invariant forall k: nat {:trigger Pow2(k)} :: k >= 1 && n == Pow2(k) ==> d <= k - 1 && l == Pow2(k - 1 - d) - 1
    {
      l := l / 2;
      d := d + 1;
    }
    forall k: nat | k >= 1 && n == Pow2(k) ensures d == k - 1 {
      if d < k - 1 {
        Pow2Positive(k - 2 - d);
      }
    }
  }

  // ---- Sum ----

  lemma {:induction false} RoomMore(n: nat, m: nat, sec: nat)
    requires n < m && sec > 0
    ensures Room(n, sec) + sec <= Room(m, sec) && (Room(n, sec) + sec == Room(m, sec) ==> n == m - 1)
  {
    if n < m - 1 {
      RoomMore(n, m - 1, sec);
    }
  }

  /** A full chunk leaves exactly the last section in the buffer. */
  lemma FullBuffer(data: Bytes, sections: seq<Bytes>, segment: Bytes, sec: nat, leaves: nat)
    requires Buffered(data, sections, segment, sec, leaves) && sec > 0 && |data| == Room(leaves, sec)
    ensures |sections| == leaves - 1 && |segment| == sec
    ensures AllOf(sections + [segment], sec) && Joined(sections + [segment]) == data
  {
    JoinedLength(sections, sec);
    RoomMore(|sections|, leaves, sec);
    JoinedMore(sections, segment);
  }

  /** The segments of a full chunk in halves. */
  lemma ChunkHalves(k: nat, count: nat)
    requires k >= 2 && count == Pow2(k)
    ensures count == 2 * Pow2(k - 1) && count >= 2 && count % 2 == 0 && count / 2 == (count + 1) / 2 == Pow2(k - 1)
  {
    Pow2Positive(k - 1);
    HalfOf(count, Pow2(k - 1));
  }

  lemma HalfOf(count: nat, half: nat)
    requires count == 2 * half
    ensures count % 2 == 0 && count / 2 == half && (count + 1) / 2 == half
  {
  }

  /** The ways to count the bytes of a full chunk. */
  lemma ChunkSizes(half: nat, size: nat, count: nat, m: nat)
    requires size > 0 && half > 0 && count == 2 * half && half == Pow2(m)
    ensures count * size == 2 * (half * size) > 0
    ensures Room(half, 2 * size) == 2 * (half * size)
    ensures Size(2 * size, m) == 2 * (half * size)
  {
    SizeTwice(size, m);
    RoomTwice(half, size);
    CountTwice(half, size, count);
  }

  lemma SizeTwice(size: nat, m: nat)
    ensures Size(2 * size, m) == 2 * (Pow2(m) * size)
  {
    SizeIs(2 * size, m);
    Twice(Pow2(m), size);
  }

  lemma RoomTwice(h: nat, size: nat)
    ensures Room(h, 2 * size) == 2 * (h * size)
  {
    RoomIs(h, 2 * size);
    Twice(h, size);
  }

  lemma CountTwice(h: nat, size: nat, count: nat)
    requires count == 2 * h && h >= 1 && size >= 1
    ensures count * size == 2 * (h * size) > 0
  {
    Twice(h, size);
    assert h * size > 0;
  }

  lemma Twice(h: nat, size: nat)
    ensures h * (2 * size) == (2 * size) * h == 2 * (h * size) == (2 * h) * size
  {
  }

  /** Starts a goroutine for each section and waits for the result. */
  method SumSections(H: Bytes -> Bytes, sections: seq<Bytes>, ghost data: Bytes, sec: nat, depth: nat, tree: State,
                     ghost before: map<Node, nat>)
    returns (r: Bytes, ghost after: State)
    requires |sections| == Pow2(depth) && AllOf(sections, sec) && Joined(sections) == data && depth > 0
    requires Start(depth, before, tree)
    ensures r == Perfect(H, data, depth) && Finished(after)
    ensures forall n: Node {:trigger Count(after.toggles, n)} ::
      n.level < depth && InTree(n) ==> Count(after.toggles, n) % 2 == 0
  {
    SectionsFit(H, data, sections, sec, depth);
    var s := RunToEnd(H, Wanted(H, data, depth), depth, sections, tree, before);
    r, after := s.result[0], s;
  }

  lemma NextPiece(pieces: seq<Bytes>, i: nat)
    requires i < |pieces|
    ensures Joined(pieces[..i + 1]) == Joined(pieces[..i]) + pieces[i]
    ensures |Joined(pieces[..i])| + |pieces[i]| <= |Joined(pieces)|
  {
    JoinedMore(pieces[..i], pieces[i]);
    assert pieces[..i + 1] == pieces[..i] + [pieces[i]];
    assert pieces == pieces[..i + 1] + pieces[i + 1..];
    JoinedSplit(pieces[..i + 1], pieces[i + 1..]);
  }

  method WriteAll(count: nat, size: nat, pieces: seq<Bytes>) returns (sections: seq<Bytes>, segment: Bytes)
    requires size > 0 && count >= 2 && count % 2 == 0 && |Joined(pieces)| == count * size
    ensures Buffered(Joined(pieces), sections, segment, 2 * size, count / 2)
  {
    sections, segment := [], [];
    for i := 0 to |pieces|
      invariant Buffered(Joined(pieces[..i]), sections, segment, 2 * size, count / 2)
    {
      NextPiece(pieces, i);
      sections, segment := Write(count, size, sections, segment, pieces[i], Joined(pieces[..i]));
    }
    assert pieces[..|pieces|] == pieces;
  }

  /** The sections of a full chunk, the last one included. */
  method Gather(size: nat, k: nat, count: nat, pieces: seq<Bytes>) returns (all: seq<Bytes>)
    requires size > 0 && k >= 2 && count == Pow2(k) && |Joined(pieces)| == count * size
    ensures |all| == Pow2(k - 1) && AllOf(all, 2 * size) && Joined(all) == Joined(pieces)
  {
    ChunkHalves(k, count);
    ChunkSizes(Pow2(k - 1), size, count, k - 1);
    var sections, segment := WriteAll(count, size, pieces);
    FullBuffer(Joined(pieces), sections, segment, 2 * size, count / 2);
    all := sections + [segment];
  }

  lemma RefOfChunk(H: Bytes -> Bytes, size: nat, k: nat, count: nat, data: Bytes, span: nat)
    requires size > 0 && k >= 2 && count == Pow2(k) && |data| == count * size && 0 < span == Pow2(k - 1) * size
    ensures RefHashed(H, 2 * size, data, span) == Perfect(H, data, k - 1)
  {
    ChunkHalves(k, count);
    ChunkSizes(Pow2(k - 1), size, count, k - 1);
    RefIsPerfect(H, 2 * size, data, span, k - 1);
  }

  /** A fresh hasher given a full chunk of two to the power `k` segments in any number of pieces: under
      any schedule of the goroutines the sum is the reference hash, and the tree is balanced again. */
  method HashChunk(H: Bytes -> Bytes, size: nat, k: nat, count: nat, pieces: seq<Bytes>, tree: State,
                   ghost before: map<Node, nat>, span: nat)
    returns (r: Bytes, ghost after: State)
    requires size > 0 && k >= 2 && count == Pow2(k) && |Joined(pieces)| == count * size
    requires 0 < span == Pow2(k - 1) * size && Start(k - 1, before, tree)
    ensures r == RefHashed(H, 2 * size, Joined(pieces), span)
    ensures forall n: Node {:trigger Count(after.toggles, n)} ::
      n.level < k - 1 && InTree(n) ==> Count(after.toggles, n) % 2 == 0
    ensures Finished(after)
  {
    ghost var data := Joined(pieces);
    var sections := Gather(size, k, count, pieces);
    var depth := Depth(count);
    r, after := SumSections(H, sections, data, 2 * size, depth, tree, before);
    RefOfChunk(H, size, k, count, data, span);
  }
}
