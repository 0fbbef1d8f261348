/** One-to-many delivery over a shared, in-place permuted list of channels (event/feed.go). The steps
    are what runs between two points where another goroutine can interfere. */
module Feeds {
  import opened Traces

  type Chan = nat

  // ---- the case list ----

  /** The first index that holds `c`, or minus one. */
  method Find(cs: seq<Chan>, c: Chan) returns (index: int)
    ensures index == -1 ==> c !in cs
    ensures index != -1 ==> 0 <= index < |cs| && cs[index] == c && c !in cs[..index]
  {
    for i := 0 to |cs|
      invariant c !in cs[..i]
    {
      if cs[i] == c {
        return i;
      }
    }
    return -1;
  }

  /** How often `c` is in the list. */
  ghost function Times(cs: seq<Chan>, c: Chan): nat
  {
    multiset(cs)[c]
  }

  ghost function One(x: Chan, c: Chan): nat
  {
    if x == c then 1 else 0
  }

  lemma TimesJoined(a: seq<Chan>, b: seq<Chan>, c: Chan)
    ensures Times(a + b, c) == Times(a, c) + Times(b, c)
  {
  }

  lemma TimesOne(x: Chan, c: Chan)
    ensures Times([x], c) == One(x, c)
  {
  }

  function Without(cs: seq<Chan>, i: nat): seq<Chan>
    requires i < |cs|
  {
    cs[..i] + cs[i + 1..]
  }

  lemma WithoutCounts(cs: seq<Chan>, i: nat, c: Chan)
    requires i < |cs|
    ensures Times(cs, c) == Times(Without(cs, i), c) + One(cs[i], c)
  {
    assert cs == cs[..i] + ([cs[i]] + cs[i + 1..]);
    TimesJoined(cs[..i], [cs[i]] + cs[i + 1..], c);
    TimesJoined([cs[i]], cs[i + 1..], c);
    TimesJoined(cs[..i], cs[i + 1..], c);
    TimesOne(cs[i], c);
  }

  /** Swaps two cases. */
  function Swapped(cs: seq<Chan>, i: nat, j: nat): seq<Chan>
    requires i < |cs| && j < |cs|
  {
    cs[i := cs[j]][j := cs[i]]
  }

  /** Deactivating moves one case from the active part to the part behind it. */
  lemma DeactivateCounts(cs: seq<Chan>, active: nat, i: nat, c: Chan)
    requires i < active <= |cs|
    ensures var r := Swapped(cs, i, active - 1);
            Times(r, c) == Times(cs, c) &&
            Times(r[..active - 1], c) + One(cs[i], c) == Times(cs[..active], c) &&
            Times(r[active - 1..], c) == Times(cs[active..], c) + One(cs[i], c)
  {
    var r, last := Swapped(cs, i, active - 1), active - 1;
    assert r[last..] == [cs[i]] + cs[active..];
    TimesJoined([cs[i]], cs[active..], c);
    TimesOne(cs[i], c);
    ActiveCounts(cs, active, i, c);
    assert r == r[..last] + r[last..];
    TimesJoined(r[..last], r[last..], c);
    assert cs == cs[..active] + cs[active..];
    TimesJoined(cs[..active], cs[active..], c);
  }

  lemma ActiveCounts(cs: seq<Chan>, active: nat, i: nat, c: Chan)
    requires i < active <= |cs|
    ensures Times(Swapped(cs, i, active - 1)[..active - 1], c) + One(cs[i], c) == Times(cs[..active], c)
  {
    var r, last := Swapped(cs, i, active - 1), active - 1;
    WithoutCounts(cs[..active], last, c);
    assert Without(cs[..active], last) == cs[..last];
    if i < last {
      WithoutCounts(cs[..last], i, c);
      WithoutCounts(r[..last], i, c);
      assert Without(cs[..last], i) == Without(r[..last], i);
    } else {
      assert r[..last] == cs[..last];
    }
  }

  // ---- the feed ----

  /** `live` are the subscriptions nobody has cancelled, `leaving` the cancelled ones whose channel is
      still to be taken out of `sendCases`. During a Send, `active` of the cases have not been served;
      `start`, `delivered` and `dropped` are the channels that it began with, has served, and has lost
      to a removal before serving them; `gone` are the subscriptions that were leaving when it began or
      were cancelled since. */
  datatype Feed = Feed(sendCases: seq<Chan>, inbox: seq<Chan>, sending: bool, active: nat, nsent: nat,
                       live: multiset<Chan>, leaving: multiset<Chan>,
                       start: multiset<Chan>, delivered: multiset<Chan>, dropped: multiset<Chan>, gone: multiset<Chan>)

  /** Every subscription that is live or about to leave has its case in exactly one of the two lists,
      and a leaving one in `sendCases`. */
  ghost predicate ListedAt(f: Feed, c: Chan)
  {
    Times(f.sendCases, c) + Times(f.inbox, c) == f.live[c] + f.leaving[c] && f.leaving[c] <= Times(f.sendCases, c)
  }

  /** The unserved channels are still active, the served ones are behind them or have left since. */
  ghost predicate AccountedAt(f: Feed, c: Chan)
    requires f.active <= |f.sendCases|
  {
    Times(f.sendCases[..f.active], c) + f.delivered[c] + f.dropped[c] == f.start[c] &&
    Times(f.sendCases[f.active..], c) <= f.delivered[c] && f.dropped[c] + f.leaving[c] <= f.gone[c]
  }

  ghost predicate Inv(f: Feed)
  {
    (forall c {:trigger ListedAt(f, c)} :: ListedAt(f, c)) &&
    (f.sending ==>
       f.active <= |f.sendCases| && f.nsent == |f.delivered| &&
       forall c {:trigger AccountedAt(f, c)} :: AccountedAt(f, c))
  }

  const EMPTY := Feed([], [], false, 0, 0, multiset{}, multiset{}, multiset{}, multiset{}, multiset{}, multiset{})

  /** Nothing about a Send in progress has changed. */
  ghost predicate SameSend(f: Feed, g: Feed)
  {
    g.sending == f.sending && g.active == f.active && g.nsent == f.nsent && g.sendCases == f.sendCases &&
    g.start == f.start && g.delivered == f.delivered && g.dropped == f.dropped
  }

  lemma SendKept(f: Feed, g: Feed)
    requires Inv(f) && SameSend(f, g) && forall c {:trigger ListedAt(g, c)} :: ListedAt(g, c)
    requires f.sending ==> forall c :: g.leaving[c] + f.gone[c] <= g.gone[c] + f.leaving[c]
    ensures Inv(g)
  {
    if f.sending {
      forall c ensures AccountedAt(g, c) {
        assert AccountedAt(f, c);
      }
    }
  }

  // ---- what each step changes ----

  ghost predicate Joined(f: Feed, c: Chan, g: Feed)
  {
    g.live == f.live + multiset{c} && g.leaving == f.leaving && g.gone == f.gone && SameSend(f, g)
  }

  /** A subscription still in the inbox is gone at once, any other is in line to leave. */
  ghost predicate Cancelled(f: Feed, c: Chan, g: Feed)
  {
    g.live == f.live - multiset{c} && SameSend(f, g) &&
    if c in f.inbox then g.leaving == f.leaving && g.gone == f.gone
    else g.leaving == f.leaving + multiset{c} && g.gone == f.gone + multiset{c}
  }

  ghost predicate TakenIdle(f: Feed, c: Chan, g: Feed)
  {
    g.live == f.live && g.leaving == f.leaving - multiset{c} && !g.sending && g.inbox == f.inbox &&
    forall x :: Times(f.sendCases, x) == Times(g.sendCases, x) + One(c, x)
  }

  ghost predicate Began(f: Feed, g: Feed)
  {
    g.live == f.live && g.leaving == f.leaving && g.sending && g.inbox == [] && g.nsent == 0 &&
    g.active == |g.sendCases| &&
    g.start == f.live + f.leaving && g.delivered == multiset{} && g.dropped == multiset{} && g.gone == f.leaving
  }

  ghost predicate Received(f: Feed, i: nat, g: Feed)
    requires i < |f.sendCases|
  {
    g.live == f.live && g.leaving == f.leaving && g.sending && g.inbox == f.inbox && g.start == f.start &&
    g.dropped == f.dropped && g.gone == f.gone &&
    g.active == f.active - 1 && g.nsent == f.nsent + 1 && g.delivered == f.delivered + multiset{f.sendCases[i]}
  }

  /** An unserved channel will not be served, a served one has been. */
  ghost predicate TakenSending(f: Feed, c: Chan, g: Feed)
    requires f.active <= |f.sendCases|
  {
    g.live == f.live && g.leaving == f.leaving - multiset{c} && g.sending && g.inbox == f.inbox &&
    g.start == f.start && g.delivered == f.delivered && g.nsent == f.nsent && g.gone == f.gone &&
    if c in f.sendCases[..f.active] then g.active == f.active - 1 && g.dropped == f.dropped + multiset{c}
    else g.active == f.active && g.dropped == f.dropped
  }

  /** Adds a channel to the inbox. */
  method Subscribe(f: Feed, c: Chan) returns (g: Feed)
    requires Inv(f)
    ensures Inv(g) && Joined(f, c, g)
  {
    g := f.(inbox := f.inbox + [c], live := f.live + multiset{c});
    forall x ensures ListedAt(g, x) {
      assert ListedAt(f, x);
      TimesJoined(f.inbox, [c], x);
      TimesOne(c, x);
    }
    SendKept(f, g);
  }

  /** The first part of remove: out of the inbox, or else in line to be taken out of sendCases. */
  method Unsubscribe(f: Feed, c: Chan) returns (g: Feed)
    requires Inv(f) && c in f.live
    ensures Inv(g) && Cancelled(f, c, g)
  {
    var index := Find(f.inbox, c);
    if index != -1 {
      g := f.(inbox := Without(f.inbox, index), live := f.live - multiset{c});
      forall x ensures ListedAt(g, x) {
        assert ListedAt(f, x);
        WithoutCounts(f.inbox, index, x);
      }
    } else {
      g := f.(live := f.live - multiset{c}, leaving := f.leaving + multiset{c}, gone := f.gone + multiset{c});
      forall x ensures ListedAt(g, x) {
        assert ListedAt(f, x);
      }
    }
    SendKept(f, g);
  }

  /** The case of a leaving channel, which is always found, and the list without it. */
  method TakeOut(f: Feed, c: Chan) returns (index: nat, cases: seq<Chan>)
    requires Inv(f) && c in f.leaving
    ensures index < |f.sendCases| && f.sendCases[index] == c && c !in f.sendCases[..index]
    ensures cases == Without(f.sendCases, index)
  {
    assert ListedAt(f, c);
    var i := Find(f.sendCases, c);
    assert i != -1;
    index, cases := i, Without(f.sendCases, i);
  }

  lemma TakenOut(f: Feed, g: Feed, c: Chan, index: nat)
    requires Inv(f) && c in f.leaving && index < |f.sendCases| && f.sendCases[index] == c
    requires g.sendCases == Without(f.sendCases, index) && g.inbox == f.inbox && g.live == f.live
    requires g.leaving == f.leaving - multiset{c}
    ensures forall x {:trigger ListedAt(g, x)} :: ListedAt(g, x)
  {
    forall x ensures ListedAt(g, x) {
      assert ListedAt(f, x);
      WithoutCounts(f.sendCases, index, x);
    }
  }

  /** The second part of remove when no Send is in progress. */
  method RemoveIdle(f: Feed, c: Chan) returns (g: Feed)
    requires Inv(f) && !f.sending && c in f.leaving
    ensures Inv(g) && TakenIdle(f, c, g)
  {
    var index, cases := TakeOut(f, c);
    g := f.(sendCases := cases, leaving := f.leaving - multiset{c});
    TakenOut(f, g, c, index);
    forall x ensures Times(f.sendCases, x) == Times(g.sendCases, x) + One(c, x) {
      WithoutCounts(f.sendCases, index, x);
    }
  }

  /** Send takes the lock and the inbox. */
  method BeginSend(f: Feed) returns (g: Feed)
    requires Inv(f) && !f.sending
    ensures Inv(g) && Began(f, g)
  {
    var cases := f.sendCases + f.inbox;
    g := f.(sendCases := cases, inbox := [], sending := true, active := |cases|, nsent := 0,
            start := f.live + f.leaving, delivered := multiset{}, dropped := multiset{}, gone := f.leaving);
    assert cases[..|cases|] == cases && cases[|cases|..] == [];
    forall x ensures ListedAt(g, x) && AccountedAt(g, x) {
      assert ListedAt(f, x);
      TimesJoined(f.sendCases, f.inbox, x);
    }
  }

  /** A receiver takes the value, by the fast path or by the select. */
  method Deliver(f: Feed, i: nat) returns (g: Feed)
    requires Inv(f) && f.sending && i < f.active
    ensures Inv(g) && Received(f, i, g)
  {
    g := f.(sendCases := Swapped(f.sendCases, i, f.active - 1), active := f.active - 1, nsent := f.nsent + 1,
            delivered := f.delivered + multiset{f.sendCases[i]});
    forall x ensures ListedAt(g, x) && AccountedAt(g, x) {
      assert ListedAt(f, x) && AccountedAt(f, x);
      DeliverAccounts(f, g, i, x);
    }
  }

  lemma DeliverAccounts(f: Feed, g: Feed, i: nat, x: Chan)
    requires i < f.active <= |f.sendCases| && ListedAt(f, x) && AccountedAt(f, x)
    requires g.sendCases == Swapped(f.sendCases, i, f.active - 1) && g.active == f.active - 1
    requires g.inbox == f.inbox && g.live == f.live && g.leaving == f.leaving && g.start == f.start
    requires g.dropped == f.dropped && g.gone == f.gone && g.delivered == f.delivered + multiset{f.sendCases[i]}
    ensures ListedAt(g, x) && AccountedAt(g, x)
  {
    DeactivateCounts(f.sendCases, f.active, i, x);
  }

  /** Send is told to remove a channel. An unserved one will not be served, a served one has been. */
  method RemoveSending(f: Feed, c: Chan) returns (g: Feed)
    requires Inv(f) && f.sending && f.active > 0 && c in f.leaving
    ensures Inv(g) && TakenSending(f, c, g)
  {
    var index, cases := TakeOut(f, c);
    g := f.(sendCases := cases, leaving := f.leaving - multiset{c});
    if index < f.active {
      g := g.(active := f.active - 1, dropped := f.dropped + multiset{c});
    }
    FirstIsActive(f.sendCases, f.active, index);
    TakenOut(f, g, c, index);
    forall x ensures AccountedAt(g, x) {
      assert AccountedAt(f, x);
      RemoveAccounts(f, g, index, x);
    }
  }

  /** The first case of a channel is in the active part if the channel is. */
  lemma FirstIsActive(cs: seq<Chan>, active: nat, index: nat)
    requires active <= |cs| && index < |cs| && cs[index] !in cs[..index]
    ensures cs[index] in cs[..active] <==> index < active
  {
    if index < active {
      assert cs[..active][index] == cs[index];
    } else {
      assert cs[..active] <= cs[..index];
    }
  }

  lemma RemoveAccounts(f: Feed, g: Feed, index: nat, x: Chan)
    requires f.active <= |f.sendCases| && index < |f.sendCases| && AccountedAt(f, x) && f.sendCases[index] in f.leaving
    requires g.sendCases == Without(f.sendCases, index) && g.leaving == f.leaving - multiset{f.sendCases[index]}
    requires g.delivered == f.delivered && g.start == f.start && g.gone == f.gone
    requires g.active == if index < f.active then f.active - 1 else f.active
    requires g.dropped == if index < f.active then f.dropped + multiset{f.sendCases[index]} else f.dropped
    ensures AccountedAt(g, x)
  {
    RemoveCounts(f.sendCases, f.active, index, x);
  }

  /** Taking a case out shortens the part that it was in. */
  lemma RemoveCounts(cs: seq<Chan>, active: nat, i: nat, c: Chan)
    requires active <= |cs| && i < |cs|
    ensures i < active ==>
              Times(Without(cs, i)[..active - 1], c) + One(cs[i], c) == Times(cs[..active], c) &&
              Without(cs, i)[active - 1..] == cs[active..]
    ensures active <= i ==>
              Without(cs, i)[..active] == cs[..active] &&
              Times(Without(cs, i)[active..], c) + One(cs[i], c) == Times(cs[active..], c)
  {
    if i < active {
      WithoutCounts(cs[..active], i, c);
      CutActive(cs, active, i);
    } else {
      WithoutCounts(cs[active..], i - active, c);
      CutServed(cs, active, i);
    }
  }

  lemma CutActive(cs: seq<Chan>, active: nat, i: nat)
    requires i < active <= |cs|
    ensures Without(cs, i)[..active - 1] == Without(cs[..active], i) && Without(cs, i)[active - 1..] == cs[active..]
  {
    var a, b := cs[..i], cs[i + 1..];
    assert Without(cs, i) == a + b && b == b[..active - 1 - i] + b[active - 1 - i..];
    assert b[..active - 1 - i] == cs[..active][i + 1..] && b[active - 1 - i..] == cs[active..];
    assert cs[..active][..i] == a;
  }

  lemma CutServed(cs: seq<Chan>, active: nat, i: nat)
    requires active <= i < |cs|
    ensures Without(cs, i)[..active] == cs[..active] && Without(cs, i)[active..] == Without(cs[active..], i - active)
  {
    var a, b := cs[..i], cs[i + 1..];
    assert Without(cs, i) == a + b && a == a[..active] + a[active..];
    assert a[..active] == cs[..active] && a[active..] == cs[active..][..i - active];
    assert cs[active..][i - active + 1..] == b;
  }

  /** What a Send did: which channels it began with and which of them got the value, and how many it
      reported. */
  datatype Report = Report(start: multiset<Chan>, delivered: multiset<Chan>, dropped: multiset<Chan>,
                           gone: multiset<Chan>, nsent: nat)

  /** Every channel was served once or taken out unserved, only cancelled ones were taken out, and the
      count is that of the deliveries. */
  ghost predicate ExactlyOnce(r: Report)
  {
    r.delivered + r.dropped == r.start && r.dropped <= r.gone && r.nsent == |r.delivered| &&
    forall c {:trigger r.delivered[c]} :: r.gone[c] == 0 ==> r.delivered[c] == r.start[c]
  }

  /** Send returns once nobody is left to serve. */
  method EndSend(f: Feed) returns (g: Feed, r: Report)
    requires Inv(f) && f.sending && f.active == 0
    ensures Inv(g) && g == f.(sending := false)
    ensures r == Report(f.start, f.delivered, f.dropped, f.gone, f.nsent) && ExactlyOnce(r)
  {
    g, r := f.(sending := false), Report(f.start, f.delivered, f.dropped, f.gone, f.nsent);
    forall c ensures f.delivered[c] + f.dropped[c] == f.start[c] && f.dropped[c] <= f.gone[c] {
      assert AccountedAt(f, c) && f.sendCases[..0] == [];
    }
    forall c ensures ListedAt(g, c) {
      assert ListedAt(f, c);
    }
  }

  // ---- any interleaving ----

  /** What can happen next. An event that is not possible at the time is one that does not happen. */
  datatype Event = Join(c: Chan) | Cancel(c: Chan) | HandOver(c: Chan) | Begin | Receive(i: nat) | End

  /** The feed at one moment, with the reports of the Sends that have returned. */
  datatype Moment = Moment(feed: Feed, reports: seq<Report>)

  ghost predicate Valid(v: Moment)
  {
    Inv(v.feed) && forall i {:trigger v.reports[i]} :: 0 <= i < |v.reports| ==> ExactlyOnce(v.reports[i])
  }

  /** What each event does where it is possible. */
  ghost predicate FeedStep(f: Feed, e: Event, g: Feed)
    requires f.sending ==> f.active <= |f.sendCases|
  {
    match e
    case Join(c) => Joined(f, c, g)
    case Cancel(c) => if c in f.live then Cancelled(f, c, g) else g == f
    case HandOver(c) =>
      if c in f.leaving && !f.sending then TakenIdle(f, c, g)
      else if c in f.leaving && f.active > 0 then TakenSending(f, c, g)
      else g == f
    case Begin => if f.sending then g == f else Began(f, g)
    case Receive(i) => if f.sending && i < f.active then Received(f, i, g) else g == f
    case End => g == if f.sending && f.active == 0 then f.(sending := false) else f
  }

  /** A Send that returns adds its report. */
  ghost predicate Step(v: Moment, e: Event, w: Moment)
  {
    var f := v.feed;
    (f.sending ==> f.active <= |f.sendCases|) && FeedStep(f, e, w.feed) &&
    w.reports == v.reports +
      if e.End? && f.sending && f.active == 0 then [Report(f.start, f.delivered, f.dropped, f.gone, f.nsent)] else []
  }

  class FeedObject {
    var state: Feed
    var reports: seq<Report>

    ghost function Now(): Moment
      reads this
    {
      Moment(state, reports)
    }

    constructor ()
      ensures Valid(Now()) && state == EMPTY && reports == []
    {
      state, reports := EMPTY, [];
      new;
      forall c ensures ListedAt(EMPTY, c) {}
    }

    /** Everything but the end of a Send. */
    method Change(e: Event)
      requires Valid(Now()) && !e.End?
      modifies this
      ensures Inv(state) && FeedStep(old(state), e, state) && reports == old(reports)
    {
      var f := state;
      match e
      case Join(c) => state := Subscribe(f, c);
      case Cancel(c) =>
        if c in f.live {
          state := Unsubscribe(f, c);
        }
      case HandOver(c) =>
        if c in f.leaving && !f.sending {
          state := RemoveIdle(f, c);
        } else if c in f.leaving && f.active > 0 {
          state := RemoveSending(f, c);
        }
      case Begin =>
        if !f.sending {
          state := BeginSend(f);
        }
      case Receive(i) =>
        if f.sending && i < f.active {
          state := Deliver(f, i);
        }
    }

    method Happen(e: Event)
      requires Valid(Now())
      modifies this
      ensures Valid(Now()) && Step(old(Now()), e, Now())
    {
      if !e.End? {
        Change(e);
      } else if state.sending && state.active == 0 {
        var r;
        state, r := EndSend(state);
        reports := reports + [r];
      }
    }

    /** Whatever the order of subscriptions, cancellations and receives, at every point of a run each
        Send that has returned has served each of its channels exactly once unless it was cancelled. */
    method Run(events: seq<Event>) returns (ghost trace: seq<Moment>)
      requires Valid(Now())
      modifies this
      ensures Follows(trace, events, Step) && trace[0] == old(Now()) && trace[|events|] == Now()
      ensures forall i :: 0 <= i < |trace| ==> Valid(trace[i])
    {
      trace := [Now()];
      for i := 0 to |events|
        invariant Valid(Now()) && Follows(trace, events[..i], Step) && trace[0] == old(Now()) && trace[i] == Now()
        invariant forall j :: 0 <= j < |trace| ==> Valid(trace[j])
      {
        Happen(events[i]);
        FollowsMore(trace, events, i, Now(), Step);
        trace := trace + [Now()];
      }
      assert events[..|events|] == events;
    }
  }
}
