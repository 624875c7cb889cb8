/** The numbers below a bound that a filter keeps, in ascending order. */
module Selections {

  ghost predicate Ascending(at: seq<nat>) {
    forall i, j :: 0 <= i < j < |at| ==> at[i] < at[j]
  }

  /** `at` lists exactly the numbers below `n` that `keeps` accepts, in ascending order. */
  ghost predicate Selects(at: seq<nat>, n: nat, keeps: nat -> bool) {
    Ascending(at) && forall i: nat :: i in at <==> i < n && keeps(i)
  }

  /** `picked` are the elements at these places. */
  ghost predicate Picks<T>(xs: seq<T>, at: seq<nat>, picked: seq<T>) {
    |picked| == |at| && forall k :: 0 <= k < |at| ==> at[k] < |xs| && picked[k] == xs[at[k]]
  }

  ghost function Below(n: nat, keeps: nat -> bool): seq<nat> {
    if n == 0 then [] else Below(n - 1, keeps) + if keeps(n - 1) then [n - 1] else []
  }

  lemma {:induction false} BelowSelects(n: nat, keeps: nat -> bool)
    ensures Selects(Below(n, keeps), n, keeps)
  {
    if n > 0 {
      BelowSelects(n - 1, keeps);
      var front := Below(n - 1, keeps);
      assert forall i: nat :: i in front + [n - 1] <==> i in front || i == n - 1;
      assert forall i :: 0 <= i < |front| ==> front[i] in front;
    }
  }
}
