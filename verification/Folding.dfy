/** Folding a step over a sequence of inputs, from the left. */
module Folding {
  function Fold<S, E>(step: (S, E) -> S, s: S, inputs: seq<E>): S
    decreases |inputs|
  {
    if inputs == [] then s
    else step(Fold(step, s, inputs[..|inputs| - 1]), inputs[|inputs| - 1])
  }

  lemma {:induction false} FoldAppend<S, E>(step: (S, E) -> S, s: S, a: seq<E>, b: seq<E>)
    ensures Fold(step, s, a + b) == Fold(step, Fold(step, s, a), b)
    decreases |b|
  {
    if b == [] {
      assert a + b == a;
    } else {
      FoldAppend(step, s, a, b[..|b| - 1]);
      assert (a + b)[..|a + b| - 1] == a + b[..|b| - 1];
    }
  }

  lemma FoldSnoc<S, E>(step: (S, E) -> S, s: S, inputs: seq<E>, n: nat)
    requires n < |inputs|
    ensures Fold(step, s, inputs[..n + 1]) == step(Fold(step, s, inputs[..n]), inputs[n])
  {
    assert inputs[..n + 1][..n] == inputs[..n];
  }

  lemma FoldOne<S, E>(step: (S, E) -> S, s: S, input: E)
    ensures Fold(step, s, [input]) == step(s, input)
  {
    assert [input][..0] == [];
  }
}
