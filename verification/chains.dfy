/** Runs of a step relation, and the records kept of them. */
module Chains {
  import opened Wrappers

  /** Each event leads from one state to the next. */
  ghost predicate Chain<S, E>(step: (S, E, S) -> bool, states: seq<S>, events: seq<E>) {
    && |states| == |events| + 1
    && forall i | 0 <= i < |events| :: step(states[i], events[i], states[i + 1])
  }

  lemma ChainContinues<S, E>(step: (S, E, S) -> bool, a: seq<S>, d: seq<E>, b: seq<S>, e: seq<E>)
    requires Chain(step, a, d) && Chain(step, b, e) && a[|d|] == b[0]
    ensures Chain(step, a + b[1..], d + e) && (a + b[1..])[|d + e|] == b[|e|] && (a + b[1..])[0] == a[0]
  {
    var states, events := a + b[1..], d + e;
    forall i | 0 <= i < |events| ensures step(states[i], events[i], states[i + 1]) {
      if i < |d| {
        assert step(a[i], d[i], a[i + 1]);
      } else {
        assert step(b[i - |d|], e[i - |d|], b[i - |d| + 1]);
      }
    }
  }

  /** The logs explain the first actions as they were acknowledged, and lead from
      one state to another. */
  ghost predicate Accounts<S, E, A>(step: (S, E, S) -> bool, explains: (A, bool, seq<E>) -> bool,
                                    actions: seq<A>, acks: seq<bool>, logs: seq<seq<E>>, states: seq<S>, from: S, to: S) {
    && |logs| == |acks| <= |actions|
    && (forall j | 0 <= j < |logs| :: explains(actions[j], acks[j], logs[j]))
    && Chain(step, states, Flatten(logs))
    && states[0] == from && states[|Flatten(logs)|] == to
  }

  lemma AccountsForOneMore<S, E, A>(step: (S, E, S) -> bool, explains: (A, bool, seq<E>) -> bool,
                                    actions: seq<A>, acks: seq<bool>, logs: seq<seq<E>>, states: seq<S>, from: S,
                                    ack: bool, events: seq<E>, more: seq<S>)
    requires more != [] && Accounts(step, explains, actions, acks, logs, states, from, more[0])
    requires |logs| < |actions| && explains(actions[|logs|], ack, events) && Chain(step, more, events)
    ensures Accounts(step, explains, actions, acks + [ack], logs + [events], states + more[1..], from, more[|events|])
  {
    ChainContinues(step, states, Flatten(logs), more, events);
    assert (logs + [events])[..|logs|] == logs;
  }
}
