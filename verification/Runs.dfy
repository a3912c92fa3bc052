/** Runs of a state machine whose step may depend on the step number, and the two ways to reason about all of them. */
module Runs {
  /** The state before step `n` of the run that starts in `s`. */
  ghost function At<S>(step: (nat, S) -> S, s: S, n: nat): S {
    if n == 0 then s else step(n - 1, At(step, s, n - 1))
  }

  /** What holds before step `i` and is kept by every step up to `n` holds then. */
  lemma {:induction false} Invariant<S(!new)>(step: (nat, S) -> S, inv: S -> bool, s: S, i: nat, n: nat)
    requires i <= n && inv(At(step, s, i))
    requires forall k: nat, t: S :: i <= k < n && inv(t) ==> inv(step(k, t))
    ensures inv(At(step, s, n))
  {
    if i < n {
      Invariant(step, inv, s, i, n - 1);
    }
  }

  /** Two runs of the same machine stay in a relation that the first `n` steps keep. */
  lemma {:induction false} Related<S(!new)>(step: (nat, S) -> S, rel: (S, S) -> bool, s: S, t: S, n: nat)
    requires rel(s, t)
    requires forall k: nat, u: S, v: S :: k < n && rel(u, v) ==> rel(step(k, u), step(k, v))
    ensures rel(At(step, s, n), At(step, t, n))
  {
    if n > 0 {
      Related(step, rel, s, t, n - 1);
    }
  }

  /** If every busy step lowers a measure, the run turns idle after at most that many steps. */
  lemma FirstIdle<S(!new)>(step: (nat, S) -> S, busy: (nat, S) -> bool, measure: S -> nat, s: S) returns (n: nat)
    requires forall i: nat, t: S :: busy(i, t) ==> measure(step(i, t)) < measure(t)
    ensures n <= measure(s)
    ensures forall i: nat :: i < n ==> busy(i, At(step, s, i))
    ensures !busy(n, At(step, s, n))
  {
    n := 0;
    while busy(n, At(step, s, n))
      invariant n + measure(At(step, s, n)) <= measure(s)
      invariant forall i: nat :: i < n ==> busy(i, At(step, s, i))
      decreases measure(s) - n
    {
      n := n + 1;
    }
  }

  /** A sequence that obeys the step is the run. */
  lemma {:induction false} Follows<S>(step: (nat, S) -> S, trace: seq<S>, n: nat)
    requires n < |trace|
    requires forall i: nat :: i < n ==> step(i, trace[i]) == trace[i + 1]
    ensures At(step, trace[0], n) == trace[n]
  {
    if n > 0 {
      Follows(step, trace, n - 1);
      assert step(n - 1, trace[n - 1]) == trace[n - 1 + 1];
    }
  }

  /** A property that just the harmful steps break holds exactly as long as no step is harmful. */
  lemma {:induction false} HoldsUntilHarmed(holds: nat -> bool, harmful: nat -> bool, n: nat)
    requires holds(0)
    requires forall i: nat :: harmful(i) ==> !holds(i + 1)
    requires forall i: nat :: holds(i) && !harmful(i) ==> holds(i + 1)
    ensures (forall i: nat :: i <= n ==> holds(i)) <==> (forall i: nat :: i < n ==> !harmful(i))
  {
    if n > 0 {
      HoldsUntilHarmed(holds, harmful, n - 1);
      assert harmful(n - 1) ==> !holds(n - 1 + 1);
      assert holds(n - 1) && !harmful(n - 1) ==> holds(n - 1 + 1);
    }
  }
}
