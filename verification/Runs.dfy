/** Runs of a step function over a sequence of events. */
module Runs {
  function Fold<S, E>(step: (S, E) -> S, s: S, es: seq<E>): S
    decreases |es|
  {
    if es == [] then s else Fold(step, step(s, es[0]), es[1..])
  }

  lemma {:induction false} FoldSnoc<S, E>(step: (S, E) -> S, s: S, es: seq<E>, e: E)
    ensures Fold(step, s, es + [e]) == step(Fold(step, s, es), e)
    decreases |es|
  {
    if es == [] {
      assert Fold(step, s, [e]) == Fold(step, step(s, e), [e][1..]);
    } else {
      assert (es + [e])[1..] == es[1..] + [e];
      FoldSnoc(step, step(s, es[0]), es[1..], e);
    }
  }
}
