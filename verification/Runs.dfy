/**
 * Runs of a protocol: a function that says what a step does, taken over a list
 * of steps.
 *
 * Each protocol of this project has a state, a datatype of steps and a function
 * Next that leaves the state as it is when the step is not possible. Any list
 * of steps is therefore a run, and a lemma about all lists speaks of every
 * interleaving. Invariants are proved by taking the last step off the list;
 * runs that show something are built by adding steps at the end, one Extend
 * for each.
 */
module Runs {

  /** The state after the steps. */
  function Run<S, T>(next: (S, T) -> S, c: S, steps: seq<T>): S {
    if steps == [] then c else next(Run(next, c, steps[..|steps| - 1]), steps[|steps| - 1])
  }

  lemma RunNone<S, T>(next: (S, T) -> S, c: S)
    ensures Run(next, c, []) == c
  {
  }

  /** One more step at the end. */
  lemma RunSnoc<S, T>(next: (S, T) -> S, c: S, steps: seq<T>, s: T)
    ensures Run(next, c, steps + [s]) == next(Run(next, c, steps), s)
  {
    assert (steps + [s])[..|steps|] == steps;
  }

  /** The state before step k leads to the state after it. */
  lemma RunStep<S, T>(next: (S, T) -> S, c: S, steps: seq<T>, k: nat)
    requires k < |steps|
    ensures Run(next, c, steps[..k + 1]) == next(Run(next, c, steps[..k]), steps[k])
  {
    assert steps[..k + 1][..k] == steps[..k];
  }

  /** A run and then another one. */
  lemma {:induction false} RunConcat<S, T>(next: (S, T) -> S, c: S, a: seq<T>, b: seq<T>)
    ensures Run(next, c, a + b) == Run(next, Run(next, c, a), b)
  {
    if b == [] {
      assert a + b == a;
    } else {
      var front, last := b[..|b| - 1], b[|b| - 1];
      RunConcat(next, c, a, front);
      assert a + b == a + front + [last];
      RunSnoc(next, c, a + front, last);
    }
  }

  /** One more step of a run under construction. */
  lemma Extend<S, T>(next: (S, T) -> S, c0: S, steps: seq<T>, c: S, s: T) returns (steps': seq<T>, c': S)
    requires c == Run(next, c0, steps)
    ensures steps' == steps + [s] && c' == next(c, s) == Run(next, c0, steps')
  {
    RunSnoc(next, c0, steps, s);
    steps', c' := steps + [s], next(c, s);
  }
}
