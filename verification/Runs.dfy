/** Runs of any state machine. */
module Runs {
  import opened Wrappers

  /** `actions`, each enabled in its turn, lead from `s` to `t`. */
  ghost predicate Leads<S, A>(step: (S, A) -> Option<S>, s: S, actions: seq<A>, t: S)
    decreases |actions|
  {
    if actions == [] then s == t
    else var next := step(s, actions[0]); next.Some? && Leads(step, next.value, actions[1..], t)
  }

  lemma {:induction false} LeadsTrans<S, A>(step: (S, A) -> Option<S>, s: S, a: seq<A>, t: S, b: seq<A>, u: S)
    requires Leads(step, s, a, t) && Leads(step, t, b, u)
    ensures Leads(step, s, a + b, u)
    decreases |a|
  {
    if a == [] {
      assert a + b == b;
    } else {
      assert (a + b)[0] == a[0] && (a + b)[1..] == a[1..] + b;
      LeadsTrans(step, step(s, a[0]).value, a[1..], t, b, u);
    }
  }
}
