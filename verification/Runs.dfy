/** Runs of state machines: the states between events, and the result of each event. */
module Runs {

  /**
    The states of a run over `events`: each is `ok`, and each event leads from one state to the next
    as `did` says, with the result it says.
   */
  ghost predicate Follows<S(!new), E(!new),
      R(!new)>(trace: seq<S>, events: seq<E>, results: seq<R>, did: (S, E, S, R) -> bool, ok: S -> bool) {
    && |trace| == |results| + 1 && |results| == |events|
    && (forall i :: 0 <= i < |events| ==> did(trace[i], events[i], trace[i + 1], results[i]))
    && (forall i :: 0 <= i < |trace| ==> ok(trace[i]))
  }

  lemma NoEvents<S(!new), E(!new), R(!new)>(s: S, did: (S, E, S, R) -> bool, ok: S -> bool)
    requires ok(s)
    ensures Follows([s], [], [], did, ok)
  {
  }

  lemma OneMore<S(!new), E(!new),
      R(!new)>(trace: seq<S>, events: seq<E>, results: seq<R>, did: (S, E, S, R) -> bool, ok: S -> bool, e: E, s: S,
      r: R)
    requires Follows(trace, events, results, did, ok) && did(trace[|results|], e, s, r) && ok(s)
    ensures Follows(trace + [s], events + [e], results + [r], did, ok)
  {
  }

  lemma Prefix<E>(events: seq<E>, n: nat)
    requires n < |events|
    ensures events[..n + 1] == events[..n] + [events[n]] && events[..|events|] == events
  {
  }
}
