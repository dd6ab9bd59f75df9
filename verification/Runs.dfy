// Runs of a system that moves in steps.
module Runs {
  /** A step is what happens to a state in which it is enabled. */
  datatype System<!S, !A> = System(enabled: (S, A) -> bool, step: (S, A) -> S)

  /** The steps of `run` can all be taken from `s`, one after the other. */
  predicate CanRun<S, A>(m: System<S, A>, s: S, run: seq<A>)
    decreases |run|
  {
    run == [] || (m.enabled(s, run[0]) && CanRun(m, m.step(s, run[0]), run[1..]))
  }

  function After<S, A>(m: System<S, A>, s: S, run: seq<A>): S
    requires CanRun(m, s, run)
    decreases |run|
  {
    if run == [] then s else After(m, m.step(s, run[0]), run[1..])
  }

  lemma Prepend<S, A>(m: System<S, A>, s: S, a: A, run: seq<A>)
    requires m.enabled(s, a) && CanRun(m, m.step(s, a), run)
    ensures CanRun(m, s, [a] + run)
    ensures After(m, s, [a] + run) == After(m, m.step(s, a), run)
  {
    assert ([a] + run)[1..] == run;
  }

  lemma {:induction false} Append<S, A>(m: System<S, A>, s: S, a: seq<A>, b: seq<A>)
    requires CanRun(m, s, a) && CanRun(m, After(m, s, a), b)
    ensures CanRun(m, s, a + b) && After(m, s, a + b) == After(m, After(m, s, a), b)
    decreases |a|
  {
    if a == [] {
      assert a + b == b;
    } else {
      Append(m, m.step(s, a[0]), a[1..], b);
      assert a + b == [a[0]] + (a[1..] + b);
      Prepend(m, s, a[0], a[1..] + b);
    }
  }

  lemma {:induction false} CutRun<S, A>(m: System<S, A>, s: S, a: seq<A>, b: seq<A>)
    requires CanRun(m, s, a + b)
    ensures CanRun(m, s, a) && CanRun(m, After(m, s, a), b)
    ensures After(m, s, a + b) == After(m, After(m, s, a), b)
    decreases |a|
  {
    if a == [] {
      assert a + b == b;
    } else {
      assert (a + b)[1..] == a[1..] + b;
      CutRun(m, m.step(s, a[0]), a[1..], b);
    }
  }

  /** What holds at the start and is kept by every step holds after every run. */
  lemma {:induction false} Keeps<S(!new), A(!new)>(m: System<S, A>, inv: S -> bool, s: S, run: seq<A>)
    requires forall t, a :: inv(t) && m.enabled(t, a) ==> inv(m.step(t, a))
    requires inv(s) && CanRun(m, s, run)
    ensures inv(After(m, s, run))
    decreases |run|
  {
    if run != [] {
      Keeps(m, inv, m.step(s, run[0]), run[1..]);
    }
  }
}
