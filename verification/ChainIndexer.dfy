/** Section indexing with an unlocked middle phase (core/chain_indexer.go). Head events come in while a
    section is being processed, and the chain may change between two reads. */
module ChainIndexers {
  import opened Transactions
  import opened Chains
  import opened IndexerStores
  import opened IndexerRaces
  import opened Traces

  /** What the update loop is doing; all but waiting is done without the lock. */
  datatype Phase =
    | Waiting
    | Resetting
    | Failing
    | Processing(section: nat, oldHead: Option<Block>, last: Option<Block>, done: nat)

  /** While a reorg is being cut out, the lock is held. */
  datatype Index = Index(size: nat, confirms: nat, known: nat, race: Race, phase: Phase)

  function Fresh(size: nat, confirms: nat): Index
  {
    Index(size, confirms, 0, Race(Store(0, 0, map[]), NoCut, NoCut), Waiting)
  }

  datatype Event =
    | Head(number: nat, reorg: bool)
    | Start
    | NoReset
    | Write(reset: bool)
    | Next(block: Option<Block>)
    | Done(commitOk: bool)
    | Failed

  /** What holds in any interleaving. */
  ghost predicate Shape(x: Index)
  {
    x.size > 0 && (x.race.reset.Cut? <==> x.phase == Resetting) &&
    (x.phase.Processing? ==> x.phase.done <= x.size && (x.phase.done > 0 ==> x.phase.last.Some?))
  }

  // ---- the steps ----

  /** newHead: a reorg forgets the sections that it touches, a plain head makes more sections known. */
  function Seen(x: Index, head: nat, reorg: bool): Index
    requires x.size > 0
  {
    if reorg then
      var changed := head / x.size;
      x.(known := if changed < x.known then changed else x.known,
         race := if changed < x.race.store.stored then x.race.(reorg := Cut(changed, Put)) else x.race)
    else if head >= x.confirms && (head + 1 - x.confirms) / x.size > x.known then
      x.(known := (head + 1 - x.confirms) / x.size)
    else x
  }

  /** Section `s` ends before block `n`. */
  ghost predicate EndsBefore(s: nat, size: nat, n: nat)
  {
    (s + 1) * size <= n
  }

  /** The sections that are left when the reorg's cut is over. */
  ghost function Left(x: Index): nat
  {
    if x.race.reorg.Cut? then x.race.reorg.target else x.race.store.stored
  }

  lemma Quotient(s: nat, size: nat, n: nat)
    requires size > 0
    ensures s < n / size <==> EndsBefore(s, size, n)
  {
    assert s < n / size ==> (s + 1) * size <= n / size * size;
    assert n / size <= s ==> n < (n / size + 1) * size <= (s + 1) * size;
  }

  /** After a reorg from block `head` on, exactly the sections are still known and kept that end before that block. */
  lemma ReorgForgets(x: Index, head: nat, s: nat)
    requires x.size > 0 && x.race.reorg.NoCut?
    ensures s < Seen(x, head, true).known <==> s < x.known && EndsBefore(s, x.size, head)
    ensures s < Left(Seen(x, head, true)) <==> s < x.race.store.stored && EndsBefore(s, x.size, head)
  {
    Quotient(s, x.size, head);
  }

  /** Section `s` ends at least `confirms` blocks before the end of a chain with that head. */
  ghost predicate Confirmed(s: nat, size: nat, confirms: nat, head: nat)
  {
    (s + 1) * size + confirms <= head + 1
  }

  /** A plain head makes exactly the confirmed sections known. */
  lemma HeadMakesKnown(x: Index, head: nat, s: nat)
    requires x.size > 0
    ensures s < Seen(x, head, false).known <==> s < x.known || Confirmed(s, x.size, x.confirms, head)
  {
    if head >= x.confirms {
      Quotient(s, x.size, head + 1 - x.confirms);
    } else {
      assert (s + 1) * x.size >= 1;
    }
  }

  /** What a reorg from block `head` on makes of the sections. */
  ghost predicate Forgets(x: Index, y: Index, head: nat)
  {
    forall s: nat {:trigger EndsBefore(s, x.size, head)} ::
      (s < y.known <==> s < x.known && EndsBefore(s, x.size, head)) &&
      (s < Left(y) <==> s < x.race.store.stored && EndsBefore(s, x.size, head))
  }

  /** What a plain head makes of them. */
  ghost predicate Learns(x: Index, y: Index, head: nat)
  {
    y.race == x.race && forall s: nat {:trigger Confirmed(s, x.size, x.confirms, head)} ::
      s < y.known <==> s < x.known || Confirmed(s, x.size, x.confirms, head)
  }

  lemma SeenIs(x: Index, head: nat, reorg: bool)
    requires x.size > 0 && x.race.reorg.NoCut?
    ensures reorg ==> Forgets(x, Seen(x, head, true), head)
    ensures !reorg ==> Learns(x, Seen(x, head, false), head)
  {
    forall s: nat ensures s < Seen(x, head, true).known <==> s < x.known && EndsBefore(s, x.size, head) {
      ReorgForgets(x, head, s);
    }
    forall s: nat
      ensures s < Left(Seen(x, head, true)) <==> s < x.race.store.stored && EndsBefore(s, x.size, head)
    {
      ReorgForgets(x, head, s);
    }
    forall s: nat
      ensures s < Seen(x, head, false).known <==> s < x.known || Confirmed(s, x.size, x.confirms, head)
    {
      HeadMakesKnown(x, head, s);
    }
  }

  /** The update loop picks the next section and lets go of the lock. */
  function Begun(x: Index): Index
  {
    var section := x.race.store.stored;
    var before := SectionHead(x.race.store.heads, section - 1);
    x.(phase := Processing(section, before, before, 0))
  }

  /** A backend that cannot be reset costs all sections. */
  function ResetFailed(x: Index): Index
  {
    x.(phase := Resetting, race := x.race.(reset := Cut(0, Put)))
  }

  /** One access of a cut; the update loop goes on when its own cut is through. */
  function Written(x: Index, reset: bool): Index
  {
    var race := RaceStep(x.race, reset);
    x.(race := race, phase := if x.phase == Resetting && race.reset.NoCut? then Failing else x.phase)
  }

  /** One block of the section is read: it must be there and follow the one before. */
  function HasRead(x: Index, b: Option<Block>): Index
    requires x.phase.Processing?
  {
    if b.Some? && b.value.parent == x.phase.last then x.(phase := x.phase.(last := b, done := x.phase.done + 1))
    else x.(phase := Failing)
  }

  /** Back to waiting after a failure; nothing more is known than is stored. */
  function GivenUp(x: Index): Index
  {
    x.(known := x.race.store.stored, phase := Waiting)
  }

  /** The section is complete: its head is recorded if the section before it still ends where the
      processing started. */
  function Finished(x: Index, commitOk: bool): Index
    requires x.phase.Processing? && x.phase.last.Some?
  {
    var section, store := x.phase.section, x.race.store;
    if commitOk && x.phase.oldHead == SectionHead(store.heads, section - 1) then
      x.(race := x.race.(store := Cutoff(store.(heads := store.heads[section := x.phase.last.value]), section + 1)),
         phase := Waiting)
    else GivenUp(x)
  }

  /** An event that is not possible at the time does not happen; some need the lock. */
  function After(x: Index, e: Event): Index
    requires Shape(x)
  {
    var unlocked := x.race.reorg.NoCut?;
    match e
    case Head(number, reorg) => if unlocked then Seen(x, number, reorg) else x
    case Start => if unlocked && x.phase == Waiting && x.known > x.race.store.stored then Begun(x) else x
    case NoReset => if x.phase.Processing? && x.phase.done == 0 then ResetFailed(x) else x
    case Write(reset) => Written(x, reset)
    case Next(block) => if x.phase.Processing? && x.phase.done < x.size then HasRead(x, block) else x
    case Done(commitOk) =>
      if unlocked && x.phase.Processing? && x.phase.done == x.size then Finished(x, commitOk) else x
    case Failed => if unlocked && x.phase == Failing then GivenUp(x) else x
  }

  lemma AfterShape(x: Index, e: Event)
    requires Shape(x)
    ensures Shape(After(x, e))
  {
  }

  // ---- what every run keeps ----

  /** The cut that is under way, if one is. */
  function Active(r: Race): Cut
  {
    if r.reset.Cut? then r.reset else r.reorg
  }

  /** What has been read of the section in process hangs together, and if its predecessor's head is
      still recorded it is the one the processing started from. */
  ghost predicate InProcess(x: Index)
  {
    x.phase.Processing? ==>
      var p, store := x.phase, x.race.store;
      store.stored <= p.section && Links(p.oldHead, p.last, p.done) && (p.section > 0 ==> p.oldHead.Some?) &&
      (store.stored == p.section ==> p.oldHead == SectionHead(store.heads, p.section - 1))
  }

  /** At most one cut is under way, and the record is exact but for the writes it has still to make. */
  ghost predicate Inv(x: Index)
  {
    Shape(x) && !Both(x.race) && Midway(x.race.store, x.size, Active(x.race)) && InProcess(x) &&
    (x.race.reset.Cut? ==> x.race.reset.target == 0)
  }

  lemma WrittenKeeps(x: Index, reset: bool)
    requires Inv(x)
    ensures Inv(Written(x, reset))
  {
    if MineOf(x.race, reset).Cut? {
      MidwayStep(x.race.store, x.size, Active(x.race));
    }
  }

  /** The new head continues the record. */
  lemma FinishedKeeps(x: Index, commitOk: bool)
    requires Inv(x) && x.race.reorg.NoCut? && x.phase.Processing? && x.phase.done == x.size
    ensures Inv(Finished(x, commitOk))
    ensures commitOk && x.race.store.stored == x.phase.section ==>
              Finished(x, commitOk).race.store == Store(x.phase.section + 1, x.phase.section + 1,
                                                        x.race.store.heads[x.phase.section := x.phase.last.value])
    ensures !commitOk || x.race.store.stored != x.phase.section ==> Finished(x, commitOk) == GivenUp(x)
  {
    var section, store := x.phase.section, x.race.store;
    assert SectionHead(store.heads, section - 1).Some? ==> section - 1 < store.stored;
    if commitOk && x.phase.oldHead == SectionHead(store.heads, section - 1) {
      assert store.stored == section;
      var heads := store.heads[section := x.phase.last.value];
      assert Without(heads, section + 1, section) == heads;
      Longer(store.heads, heads, x.size, section, x.phase.last.value);
    }
  }

  lemma Longer(heads: map<nat, Block>, more: map<nat, Block>, size: nat, stored: nat, last: Block)
    requires Recorded(heads, size, stored) && more == heads[stored := last]
    requires Links(SectionHead(heads, stored - 1), Some(last), size)
    ensures Recorded(more, size, stored + 1)
  {
    forall s: nat ensures HeadLinked(more, size, s) {
      assert s in more ==> SectionHead(more, s - 1) == SectionHead(heads, s - 1);
      assert HeadLinked(heads, size, s);
    }
  }

  /** Every event keeps the record, unless it makes the two cuts meet. */
  lemma AfterKeeps(x: Index, e: Event)
    requires Inv(x) && !Both(After(x, e).race)
    ensures Inv(After(x, e))
  {
    AfterShape(x, e);
    match e
    case Write(reset) => WrittenKeeps(x, reset);
    case Done(commitOk) =>
      if After(x, e) != x {
        FinishedKeeps(x, commitOk);
      }
    case _ =>
  }

  /** Where they meet, every way to the end of both leaves the record exact if and only if the reorg
      forgets every section too and no second section's head is recorded. */
  lemma FirstMeeting(x: Index, e: Event)
    requires Inv(x) && Both(After(x, e).race)
    ensures var race := After(x, e).race;
            (forall order :: Over(Interleaved(race, order)) ==> Exact(Interleaved(race, order).store, x.size)) <==>
            Harmless(race)
  {
    assert Meet(After(x, e).race, x.size);
    MeetingExactly(After(x, e).race, x.size);
  }

  /** The accesses of the two cuts as events of the index. */
  function AfterWrites(x: Index, order: seq<bool>): Index
    requires Shape(x)
    decreases |order|
  {
    if order == [] then x
    else
      AfterShape(x, Write(order[0]));
      AfterWrites(After(x, Write(order[0])), order[1..])
  }

  /** Every interleaving of the two cuts is a run of the index. */
  lemma {:induction false} WritesInterleave(x: Index, order: seq<bool>)
    requires Shape(x)
    ensures AfterWrites(x, order).race == Interleaved(x.race, order)
    decreases |order|
  {
    if order != [] {
      AfterShape(x, Write(order[0]));
      WritesInterleave(After(x, Write(order[0])), order[1..]);
    }
  }

  /** With sections stored and the last one's head not recorded, no section can be completed any more:
      the first block that is read has a parent, and none is expected. */
  lemma NoSectionAfterLostHead(x: Index, b: Option<Block>)
    requires Shape(x) && x.race.reorg.NoCut? && x.phase == Waiting && x.known > x.race.store.stored > 0
    requires x.race.store.stored - 1 !in x.race.store.heads && (b.Some? ==> b.value.parent.Some?)
    ensures var y := After(After(x, Start), Next(b));
            y.phase == Failing && After(y, Failed) == x.(known := x.race.store.stored)
  {
  }

  /** After a failure nothing is started before another head comes in. */
  lemma FailureWaits(x: Index)
    requires Shape(x) && x.race.reset.NoCut? && x.race.reorg.NoCut?
    ensures Shape(GivenUp(x)) && After(GivenUp(x), Start) == GivenUp(x)
  {
  }

  // ---- any interleaving ----

  ghost predicate Step(x: Index, e: Event, y: Index)
  {
    Shape(x) && y == After(x, e)
  }

  /** Wherever the two cuts are both under way up to state `i`, that is harmless. */
  ghost predicate Unharmed(trace: seq<Index>, i: nat)
    requires i < |trace|
  {
    forall j :: 0 <= j <= i && Both(trace[j].race) ==> Harmless(trace[j].race)
  }

  /** The two cuts have met harmlessly and are not both over. */
  ghost predicate Meeting(x: Index)
  {
    Shape(x) && AtMostOne(x.race) && !Over(x.race) && (x.phase == Resetting || x.phase == Failing)
  }

  /** When both are over the record is exact. */
  lemma MeetingEnds(x: Index)
    requires Shape(x) && AtMostOne(x.race) && Over(x.race) && x.phase == Failing
    ensures Inv(x)
  {
    forall s: nat ensures HeadLinked(x.race.store.heads, x.size, s) {}
  }

  /** A harmless meeting stays one, also if another reorg meets the reset, or ends. */
  lemma MeetingKeeps(x: Index, e: Event)
    requires Meeting(x) && (Both(After(x, e).race) ==> Harmless(After(x, e).race))
    ensures Meeting(After(x, e)) || Inv(After(x, e))
  {
    var y := After(x, e);
    AfterShape(x, e);
    if e.Write? {
      AtMostOneStep(x.race, e.reset);
    }
    if Over(y.race) {
      MeetingEnds(y);
    }
  }

  lemma MeetingBegins(x: Index, e: Event)
    requires Inv(x) && Both(After(x, e).race) && Harmless(After(x, e).race)
    ensures Meeting(After(x, e))
  {
    var y := After(x, e);
    AfterShape(x, e);
    assert Meet(y.race, x.size);
    HarmlessMeeting(y.race, x.size);
  }

  /** Every event keeps the record, or the meeting, as long as no meeting does harm. */
  lemma KeptStep(x: Index, e: Event)
    requires Inv(x) || Meeting(x)
    requires Both(After(x, e).race) ==> Harmless(After(x, e).race)
    ensures Inv(After(x, e)) || Meeting(After(x, e))
  {
    if Meeting(x) {
      MeetingKeeps(x, e);
    } else if Both(After(x, e).race) {
      MeetingBegins(x, e);
    } else {
      AfterKeeps(x, e);
    }
  }

  /** The record is kept, or restored at the end of a meeting, as long as no meeting does harm. */
  lemma KeptUnharmed(trace: seq<Index>, events: seq<Event>, i: nat)
    requires Follows(trace, events, Step) && Inv(trace[0]) && i < |trace| && Unharmed(trace, i)
    ensures Inv(trace[i]) || Meeting(trace[i])
  {
    for j := 0 to i
      invariant Inv(trace[j]) || Meeting(trace[j])
    {
      assert Step(trace[j], events[j], trace[j + 1]);
      KeptStep(trace[j], events[j]);
    }
  }

  class ChainIndexer {
    var x: Index

    constructor (size: nat, confirms: nat)
      requires size > 0
      ensures Inv(x) && x == Fresh(size, confirms)
    {
      x := Fresh(size, confirms);
    }

    method NewHead(head: nat, reorg: bool)
      requires Shape(x) && x.race.reorg.NoCut?
      modifies this
      ensures x == Seen(old(x), head, reorg)
      ensures if reorg then Forgets(old(x), x, head) else Learns(old(x), x, head)
    {
      SeenIs(x, head, reorg);
      if reorg {
        var changed := head / x.size;
        if changed < x.known {
          x := x.(known := changed);
        }
        if changed < x.race.store.stored {
          x := x.(race := x.race.(reorg := Cut(changed, Put)));
        }
        return;
      }
      if head >= x.confirms {
        var sections := (head + 1 - x.confirms) / x.size;
        if sections > x.known {
          x := x.(known := sections);
        }
      }
    }

    method Begin()
      requires Shape(x) && x.phase == Waiting
      modifies this
      ensures x == Begun(old(x))
    {
      var section := x.race.store.stored;
      var before := None;
      if section > 0 {
        before := SectionHead(x.race.store.heads, section - 1);
      }
      x := x.(phase := Processing(section, before, before, 0));
    }

    method Read(b: Option<Block>)
      requires Shape(x) && x.phase.Processing?
      modifies this
      ensures x == HasRead(old(x), b)
    {
      if b.None? || b.value.parent != x.phase.last {
        x := x.(phase := Failing);
      } else {
        x := x.(phase := x.phase.(last := b, done := x.phase.done + 1));
      }
    }

    method Finish(commitOk: bool)
      requires Shape(x) && x.phase.Processing? && x.phase.last.Some?
      modifies this
      ensures x == Finished(old(x), commitOk)
    {
      var section, store := x.phase.section, x.race.store;
      if commitOk && x.phase.oldHead == SectionHead(store.heads, x.phase.section - 1) {
        store := store.(heads := store.heads[section := x.phase.last.value]);
        store := SetValidSections(store, section + 1);
        x := x.(race := x.race.(store := store), phase := Waiting);
      } else {
        x := x.(known := store.stored, phase := Waiting);
      }
    }

    /** One access of the cut for a failed reset, or of the one for a reorg. */
    method Advance(reset: bool)
      requires Shape(x)
      modifies this
      ensures x == Written(old(x), reset)
    {
      x := x.(race := RaceStep(x.race, reset));
      if x.phase == Resetting && x.race.reset.NoCut? {
        x := x.(phase := Failing);
      }
    }

    method Happen(e: Event)
      requires Shape(x)
      modifies this
      ensures Shape(x) && x == After(old(x), e)
    {
      AfterShape(x, e);
      var unlocked := x.race.reorg.NoCut?;
      match e
      case Head(number, reorg) =>
        if unlocked {
          NewHead(number, reorg);
        }
      case Start =>
        if unlocked && x.phase == Waiting && x.known > x.race.store.stored {
          Begin();
        }
      case NoReset =>
        if x.phase.Processing? && x.phase.done == 0 {
          x := x.(phase := Resetting, race := x.race.(reset := Cut(0, Put)));
        }
      case Write(reset) => Advance(reset);
      case Next(block) =>
        if x.phase.Processing? && x.phase.done < x.size {
          Read(block);
        }
      case Done(commitOk) =>
        if unlocked && x.phase.Processing? && x.phase.done == x.size {
          Finish(commitOk);
        }
      case Failed =>
        if unlocked && x.phase == Failing {
          x := x.(known := x.race.store.stored, phase := Waiting);
        }
    }

    /** Any events in any order: at every state up to which no meeting of the two cuts does harm the record is
        kept, but for what the cuts have still to write, and exact when neither is under way. */
    method Run(events: seq<Event>) returns (ghost trace: seq<Index>)
      requires Inv(x)
      modifies this
      ensures Follows(trace, events, Step) && trace[0] == old(x) && trace[|events|] == x
      ensures forall i: nat {:trigger Unharmed(trace, i)} :: i < |trace| && Unharmed(trace, i) ==>
                (Inv(trace[i]) || Meeting(trace[i])) &&
                (Over(trace[i].race) ==> Inv(trace[i]) && Exact(trace[i].race.store, trace[i].size))
    {
      trace := [x];
      for i := 0 to |events|
        invariant Follows(trace, events[..i], Step) && trace[0] == old(x) && trace[i] == x && Shape(x)
      {
        Happen(events[i]);
        FollowsMore(trace, events, i, x, Step);
        trace := trace + [x];
      }
      assert events[..|events|] == events;
      forall i: nat | i < |trace| && Unharmed(trace, i)
        ensures (Inv(trace[i]) || Meeting(trace[i])) &&
                (Over(trace[i].race) ==> Inv(trace[i]) && Exact(trace[i].race.store, trace[i].size))
      {
        KeptUnharmed(trace, events, i);
      }
    }
  }
}
