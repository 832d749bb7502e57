/** Induction over the states of a run. */
module Runs {

  /** What each step keeps from one state on holds ever after. */
  lemma {:induction false} EverAfter<S(!new)>(holds: S -> bool, states: seq<S>, first: nat, last: nat)
    requires first <= last < |states| && holds(states[first])
    requires forall i :: first <= i < last && holds(states[i]) ==> holds(states[i + 1])
    ensures holds(states[last])
  {
    if first < last {
      EverAfter(holds, states, first, last - 1);
    }
  }
}
