/** The order of a balanced list: round by round, in each round by turns, and each source in the order it had. */
module RoundOrder {
  import FirstSeen
  import opened RoundRobin
  import opened SourceBalance

  lemma TurnsAreDistinct<T>(xs: seq<T>, key: T -> string, preferred: seq<string>)
    ensures FirstSeen.NoRepeats(Turns(xs, key, preferred))
  {
    FirstSeen.DistinctElements(preferred + Keys(xs, key));
  }

  /** The round of an element is the number of elements of its source before it. */
  lemma RoundIs<T>(xs: seq<T>, key: T -> string, preferred: seq<string>, i: nat)
    requires i < |Balanced(xs, key, preferred)|
    ensures var r := Balanced(xs, key, preferred);
            Cells(Sizes(Buckets(xs, key, Turns(xs, key, preferred))))[i].index == Count(r[..i], key, key(r[i]))
  {
    var sizes := Sizes(Buckets(xs, key, Turns(xs, key, preferred)));
    var b := Cells(sizes)[i].bucket;
    TurnsAreDistinct(xs, key, preferred);
    CellElement(xs, key, preferred, i);
    PrefixShares(xs, key, preferred, i, b);
    ShareIsPrefix(sizes, i, b);
    NextOfBucket(sizes, i, b);
  }

  /** `s` is named before `t`: ahead of all places where `t` is. */
  ghost predicate NamedBefore(names: seq<string>, s: string, t: string) {
    exists p :: && 0 <= p < |names| && names[p] == s
                && forall q :: 0 <= q < |names| && names[q] == t ==> p < q
  }

  lemma {:induction false} FirstPlace(names: seq<string>, n: nat, s: string) returns (p: nat)
    requires n <= |names| && s in names[..n]
    ensures p < n && names[p] == s && forall q :: 0 <= q < p ==> names[q] != s
  {
    if s in names[..n - 1] {
      p := FirstPlace(names, n - 1, s);
    } else {
      p := n - 1;
      assert forall q :: 0 <= q < p ==> names[q] == names[..n - 1][q];
    }
  }

  lemma DistinctByPlace(names: seq<string>, i: nat, j: nat)
    requires i < j < |FirstSeen.Distinct(names)|
    ensures NamedBefore(names, FirstSeen.Distinct(names)[i], FirstSeen.Distinct(names)[j])
  {
    var turns := FirstSeen.Distinct(names);
    FirstSeen.DistinctElements(names);
    assert turns[i] in turns && names[..|names|] == names;
    var p := FirstPlace(names, |names|, turns[i]);
    forall q: nat | q < |names| && names[q] == turns[j] ensures p < q {
      var k := FirstSeen.DistinctToFollows(names, |names|, i, j, q);
    }
  }

  /** Of two elements, the earlier one comes in an earlier round, or in the same round and its source has its turn
      before that of the other: preferred sources come first, in their order, and then the others as they first occur.
      */
  lemma InRounds<T>(xs: seq<T>, key: T -> string, preferred: seq<string>, i: nat, j: nat)
    requires i < j < |Balanced(xs, key, preferred)|
    ensures var r := Balanced(xs, key, preferred);
            var a, b := Count(r[..i], key, key(r[i])), Count(r[..j], key, key(r[j]));
            a < b || (a == b && NamedBefore(preferred + Keys(xs, key), key(r[i]), key(r[j])))
  {
    var turns := Turns(xs, key, preferred);
    var cells := Cells(Sizes(Buckets(xs, key, turns)));
    RoundIs(xs, key, preferred, i);
    RoundIs(xs, key, preferred, j);
    CellElement(xs, key, preferred, i);
    CellElement(xs, key, preferred, j);
    CellsAreAll(Sizes(Buckets(xs, key, turns)));
    assert Earlier(cells[i], cells[j]);
    if cells[i].bucket < cells[j].bucket {
      DistinctByPlace(preferred + Keys(xs, key), cells[i].bucket, cells[j].bucket);
    }
  }

  /** Elements of one source keep their order. */
  lemma SourceInOrder<T(!new)>(xs: seq<T>, key: T -> string, preferred: seq<string>, ahead: (T, T) -> bool, i: nat,
                               j: nat)
    requires i < j < |Balanced(xs, key, preferred)| && Chained(xs, ahead)
    requires key(Balanced(xs, key, preferred)[i]) == key(Balanced(xs, key, preferred)[j])
    ensures ahead(Balanced(xs, key, preferred)[i], Balanced(xs, key, preferred)[j])
  {
    var turns := Turns(xs, key, preferred);
    var cells := Cells(Sizes(Buckets(xs, key, turns)));
    TurnsAreDistinct(xs, key, preferred);
    CellElement(xs, key, preferred, i);
    CellElement(xs, key, preferred, j);
    assert cells[i].bucket == cells[j].bucket;
    CellsAreAll(Sizes(Buckets(xs, key, turns)));
    assert Earlier(cells[i], cells[j]);
    BucketKeepsOrder(xs, key, turns[cells[i].bucket], ahead);
  }
}
