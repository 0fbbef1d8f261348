/** Runs of a state machine: the states between its events. */
module Traces {

  /** There is one state more than there are events, and each event leads from one state to the next. */
  ghost predicate Follows<S(!new), E(!new)>(trace: seq<S>, events: seq<E>, step: (S, E, S) -> bool)
  {
    |trace| == |events| + 1 &&
    forall i {:trigger events[i]} :: 0 <= i < |events| ==> step(trace[i], events[i], trace[i + 1])
  }

  /** One more event at the end of a run. */
  lemma FollowsMore<S(!new), E(!new)>(trace: seq<S>, events: seq<E>, i: nat, s: S, step: (S, E, S) -> bool)
    requires i < |events| && Follows(trace, events[..i], step) && step(trace[i], events[i], s)
    ensures Follows(trace + [s], events[..i + 1], step)
  {
    var more, upTo := trace + [s], events[..i + 1];
    forall j {:trigger upTo[j]} | 0 <= j < |upTo| ensures step(more[j], upTo[j], more[j + 1]) {
      assert j < i ==> events[..i][j] == events[j];
    }
  }

  /** Each event has at most one outcome. */
  ghost predicate Definite<S(!new), E(!new)>(step: (S, E, S) -> bool)
  {
    forall s, e, t, u {:trigger step(s, e, t), step(s, e, u)} :: step(s, e, t) && step(s, e, u) ==> t == u
  }

  /** Then two runs that start together stay together. */
  lemma SameRun<S(!new), E(!new)>(trace: seq<S>, events: seq<E>, i: nat, step: (S, E, S) -> bool, other: seq<S>)
    requires Definite(step) && i < |events| && Follows(trace, events[..i], step)
    requires Follows(other, events, step) && other[0] == trace[0]
    ensures other[i] == trace[i] && step(trace[i], events[i], other[i + 1])
  {
    for j := 0 to i
      invariant other[j] == trace[j]
    {
      assert events[..i][j] == events[j];
      assert step(trace[j], events[j], trace[j + 1]) && step(other[j], events[j], other[j + 1]);
    }
  }

  /** And where one cannot go on, no other gets further. */
  lemma NoOtherWay<S(!new), E(!new)>(trace: seq<S>, events: seq<E>, i: nat, step: (S, E, S) -> bool, other: seq<S>)
    requires Definite(step) && i < |events| && Follows(trace, events[..i], step)
    requires forall t {:trigger step(trace[i], events[i], t)} :: !step(trace[i], events[i], t)
    ensures !(Follows(other, events, step) && other[0] == trace[0])
  {
    if Follows(other, events, step) && other[0] == trace[0] {
      SameRun(trace, events, i, step, other);
    }
  }
}
