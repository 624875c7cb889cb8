/** Iteration over a map keyed by strings: the keys come in an arbitrary order. */
module MapOrder {
  import FirstSeen

  /** `keys` lists the keys of the map, each once, in whatever order it was iterated. */
  ghost predicate Enumerates<T>(keys: seq<string>, m: map<string, T>) {
    FirstSeen.NoRepeats(keys) && forall key :: key in keys <==> key in m
  }

  lemma {:induction false} CountOf<T>(xs: seq<T>, all: set<T>)
    requires forall i, j :: 0 <= i < j < |xs| ==> xs[i] != xs[j]
    requires forall x :: x in xs <==> x in all
    ensures |xs| == |all|
  {
    if |xs| == 0 {
      assert all == {};
    } else {
      var front, last := xs[..|xs| - 1], xs[|xs| - 1];
      assert xs == front + [last];
      CountOf(front, all - {last});
    }
  }

  lemma EnumerationSize<T>(keys: seq<string>, m: map<string, T>)
    requires Enumerates(keys, m)
    ensures |keys| == |m|
  {
    CountOf(keys, m.Keys);
  }

  /** Any keys may come first. */
  lemma {:induction false} SomeOrder(first: seq<string>, others: set<string>) returns (keys: seq<string>)
    requires FirstSeen.NoRepeats(first) && forall key :: key in first ==> key !in others
    ensures first <= keys && FirstSeen.NoRepeats(keys) && forall key :: key in keys <==> key in first || key in others
    decreases others
  {
    keys := first;
    if others != {} {
      var key :| key in others;
      keys := SomeOrder(first + [key], others - {key});
    }
  }

  lemma SomeEnumeration<T>(first: seq<string>, m: map<string, T>) returns (keys: seq<string>)
    requires FirstSeen.NoRepeats(first) && forall key :: key in first ==> key in m
    ensures first <= keys && Enumerates(keys, m)
  {
    keys := SomeOrder(first, m.Keys - (set key | key in first));
  }
}
