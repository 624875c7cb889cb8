/** Stable sorting, as `sort.SliceStable` promises it. */
module Sorting {

  /** `before` is a strict weak order: asymmetric, and incomparability is transitive. */
  ghost predicate StrictWeak<T(!new)>(before: (T, T) -> bool) {
    && (forall a, b :: before(a, b) ==> !before(b, a))
    && (forall a, b, c :: before(a, c) ==> before(a, b) || before(b, c))
  }

  ghost predicate ValidOrder<T>(order: seq<nat>, xs: seq<T>) {
    forall i :: 0 <= i < |order| ==> order[i] < |xs|
  }

  /** Input position `p` goes ahead of input position `q`: smaller, or equal and earlier. */
  ghost predicate Ahead<T>(xs: seq<T>, before: (T, T) -> bool, p: nat, q: nat)
    requires p < |xs| && q < |xs|
  {
    before(xs[p], xs[q]) || (!before(xs[q], xs[p]) && p < q)
  }

  /** The input positions in stable sorted order. */
  function Order<T>(xs: seq<T>, before: (T, T) -> bool): (order: seq<nat>)
    ensures |order| == |xs| && ValidOrder(order, xs)
  {
    if |xs| == 0 then [] else
      var order := Order(xs[..|xs| - 1], before);
      Insert(order, xs, before, |xs| - 1)
  }

  function Insert<T>(order: seq<nat>, xs: seq<T>, before: (T, T) -> bool, p: nat): (r: seq<nat>)
    requires p < |xs| && ValidOrder(order, xs)
    ensures |r| == |order| + 1 && ValidOrder(r, xs)
  {
    if |order| == 0 then [p]
    else
      var last := order[|order| - 1];
      if before(xs[p], xs[last]) then Insert(order[..|order| - 1], xs, before, p) + [last] else order + [p]
  }

  function StableSort<T>(xs: seq<T>, before: (T, T) -> bool): (r: seq<T>)
    ensures |r| == |xs|
  {
    var order := Order(xs, before);
    seq(|xs|, i requires 0 <= i < |xs| => xs[order[i]])
  }

  ghost predicate OrderedBy<T>(order: seq<nat>, xs: seq<T>, before: (T, T) -> bool)
    requires ValidOrder(order, xs)
  {
    forall i, j :: 0 <= i < j < |order| ==> Ahead(xs, before, order[i], order[j])
  }

  /** Insertion adds the position and nothing else. */
  lemma {:induction false} InsertElements<T(!new)>(order: seq<nat>, xs: seq<T>, before: (T, T) -> bool, p: nat)
    requires p < |xs| && ValidOrder(order, xs)
    ensures forall q :: q in Insert(order, xs, before, p) <==> q in order || q == p
  {
    if |order| > 0 {
      InsertElements(order[..|order| - 1], xs, before, p);
      assert order == order[..|order| - 1] + [order[|order| - 1]];
    }
  }

  /** Whatever is not ahead of the last one of an order is not ahead of any. */
  lemma AfterLast<T(!new)>(order: seq<nat>, xs: seq<T>, before: (T, T) -> bool, p: nat, i: nat)
    requires StrictWeak(before) && p < |xs| && ValidOrder(order, xs) && OrderedBy(order, xs, before)
    requires i < |order| && order[|order| - 1] < p && order[i] < p
    requires !before(xs[p], xs[order[|order| - 1]])
    ensures Ahead(xs, before, order[i], p)
  {
    var last := |order| - 1;
    if i < last {
      assert Ahead(xs, before, order[i], order[last]);
      var x, a, b := xs[p], xs[order[i]], xs[order[last]];
      assert !before(x, a) || before(x, b) || before(b, a);
    }
  }

  lemma {:induction false} InsertKeepsOrder<T(!new)>(order: seq<nat>, xs: seq<T>, before: (T, T) -> bool, p: nat)
    requires StrictWeak(before)
    requires p < |xs| && ValidOrder(order, xs) && OrderedBy(order, xs, before)
    requires forall i :: 0 <= i < |order| ==> order[i] < p
    ensures OrderedBy(Insert(order, xs, before, p), xs, before)
  {
    if |order| > 0 {
      var front, last := order[..|order| - 1], order[|order| - 1];
      if before(xs[p], xs[last]) {
        var r := Insert(front, xs, before, p);
        InsertKeepsOrder(front, xs, before, p);
        InsertElements(front, xs, before, p);
        forall i | 0 <= i < |r| ensures Ahead(xs, before, r[i], last) {
          assert r[i] in r;
          if r[i] != p {
            var k :| 0 <= k < |front| && front[k] == r[i];
            assert Ahead(xs, before, order[k], order[|order| - 1]);
          }
        }
      } else {
        forall i: nat | i < |order| ensures Ahead(xs, before, order[i], p) {
          AfterLast(order, xs, before, p, i);
        }
      }
    }
  }

  /** The stable order is sorted, keeps equal elements in input order and lists every position. */
  lemma {:induction false} OrderIsStable<T(!new)>(xs: seq<T>, before: (T, T) -> bool)
    requires StrictWeak(before)
    ensures OrderedBy(Order(xs, before), xs, before)
    ensures forall p :: p in Order(xs, before) <==> 0 <= p < |xs|
  {
    if |xs| > 0 {
      var front := xs[..|xs| - 1];
      OrderIsStable(front, before);
      var order := Order(front, before);
      forall i, j | 0 <= i < j < |order| ensures Ahead(xs, before, order[i], order[j]) {
        assert Ahead(front, before, order[i], order[j]);
      }
      forall i | 0 <= i < |order| ensures order[i] < |xs| - 1 {
        assert order[i] in order;
      }
      InsertKeepsOrder(order, xs, before, |xs| - 1);
      InsertElements(order, xs, before, |xs| - 1);
    }
  }

  /** No position is listed twice. */
  lemma OrderIsInjective<T(!new)>(xs: seq<T>, before: (T, T) -> bool)
    requires StrictWeak(before)
    ensures forall i, j :: 0 <= i < j < |xs| ==> Order(xs, before)[i] != Order(xs, before)[j]
  {
    OrderIsStable(xs, before);
    var order := Order(xs, before);
    forall i, j | 0 <= i < j < |xs| ensures order[i] != order[j] {
      assert Ahead(xs, before, order[i], order[j]);
    }
  }

  ghost predicate Sorted<T>(xs: seq<T>, before: (T, T) -> bool) {
    forall i, j :: 0 <= i < j < |xs| ==> !before(xs[j], xs[i])
  }

  lemma StableSortSorts<T(!new)>(xs: seq<T>, before: (T, T) -> bool)
    requires StrictWeak(before)
    ensures Sorted(StableSort(xs, before), before)
    ensures forall x :: x in StableSort(xs, before) <==> x in xs
  {
    OrderIsStable(xs, before);
    var order, r := Order(xs, before), StableSort(xs, before);
    forall i, j | 0 <= i < j < |r| ensures !before(r[j], r[i]) {
      assert Ahead(xs, before, order[i], order[j]);
    }
    forall x | x in xs ensures x in r {
      var p :| 0 <= p < |xs| && xs[p] == x;
      assert p in order;
      var i :| 0 <= i < |order| && order[i] == p;
      assert r[i] == x;
    }
  }

  /** Elements that are pairwise distinct stay so. */
  lemma StableSortKeepsDistinct<T(!new)>(xs: seq<T>, before: (T, T) -> bool)
    requires StrictWeak(before)
    requires forall i, j :: 0 <= i < j < |xs| ==> xs[i] != xs[j]
    ensures forall i, j :: 0 <= i < j < |xs| ==> StableSort(xs, before)[i] != StableSort(xs, before)[j]
  {
    OrderIsInjective(xs, before);
  }

  /** `a` occurs at some position ahead of `b`. */
  ghost predicate Precedes<T>(xs: seq<T>, a: T, b: T) {
    exists i, j :: 0 <= i < j < |xs| && xs[i] == a && xs[j] == b
  }

  /** Of two elements neither of which is smaller, the one that comes first in the input stays first. */
  lemma StableSortKeepsInputOrder<T(!new)>(xs: seq<T>, before: (T, T) -> bool, p: nat, q: nat)
    requires StrictWeak(before) && p < q < |xs| && !before(xs[q], xs[p])
    ensures Precedes(StableSort(xs, before), xs[p], xs[q])
  {
    OrderIsStable(xs, before);
    var order := Order(xs, before);
    assert p in order && q in order;
    var i :| 0 <= i < |order| && order[i] == p;
    var j :| 0 <= j < |order| && order[j] == q;
    assert !Ahead(xs, before, q, p);
    assert StableSort(xs, before)[i] == xs[p] && StableSort(xs, before)[j] == xs[q];
  }

  ghost predicate StrictlySorted<T>(xs: seq<T>, before: (T, T) -> bool) {
    forall i, j :: 0 <= i < j < |xs| ==> before(xs[i], xs[j])
  }

  lemma HasElement<T>(xs: seq<T>)
    ensures |xs| > 0 ==> exists x :: x in xs
  {
    if |xs| > 0 {
      assert xs[0] in xs;
    }
  }

  /** Two strictly sorted sequences with the same elements are equal. */
  lemma {:induction false} StrictlySortedIsUnique<T(!new)>(xs: seq<T>, ys: seq<T>, before: (T, T) -> bool)
    requires forall a, b :: before(a, b) ==> !before(b, a)
    requires StrictlySorted(xs, before) && StrictlySorted(ys, before)
    requires forall x :: x in xs <==> x in ys
    ensures xs == ys
  {
    if |xs| == 0 {
      HasElement(ys);
    } else {
      assert xs[0] in ys;
      assert ys[0] in xs;
      var i :| 0 <= i < |ys| && ys[i] == xs[0];
      var j :| 0 <= j < |xs| && xs[j] == ys[0];
      assert xs[0] == ys[0];
      forall x ensures x in xs[1..] <==> x in ys[1..] {
        if x in xs[1..] { assert x in ys; assert x != ys[0]; }
        if x in ys[1..] { assert x in xs; assert x != xs[0]; }
      }
      StrictlySortedIsUnique(xs[1..], ys[1..], before);
      assert xs == [xs[0]] + xs[1..];
      assert ys == [ys[0]] + ys[1..];
    }
  }
}
