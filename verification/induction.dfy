/** Induction on a natural number, for a property that is given as a function. */
module Induction {

  ghost predicate Carries(holds: nat -> bool, k: nat) {
    holds(k) ==> holds(k + 1)
  }

  /** What holds at first, and carries over from every number to the next, holds throughout. */
  lemma {:induction false} HoldsThroughout(holds: nat -> bool, n: nat)
    requires holds(0) && forall k: nat :: Carries(holds, k)
    ensures holds(n)
  {
    if n > 0 {
      HoldsThroughout(holds, n - 1);
      assert Carries(holds, n - 1);
    }
  }
}
