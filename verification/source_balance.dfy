/**
 * Source-balanced lists: elements are grouped by source and the groups interleaved round-robin. Article search
 * and the feed both deliver their results this way.
 */
module SourceBalance {
  import opened FirstSeen
  import opened RoundRobin
  import Text

  /** The name under which a source takes its turns; articles without a source have one together. */
  function TurnName(sourceName: string): (name: string)
    ensures name != ""
  {
    var source := Text.NormalizedSource(sourceName);
    if source == "" then "_unknown" else source
  }

  /** The elements whose key is `source`, in their order. */
  function Bucket<T>(xs: seq<T>, key: T -> string, source: string): (r: seq<T>)
    ensures |r| <= |xs|
  {
    if |xs| == 0 then [] else
      var front, last := Bucket(xs[..|xs| - 1], key, source), xs[|xs| - 1];
      if key(last) == source then front + [last] else front
  }

  function Buckets<T>(xs: seq<T>, key: T -> string, order: seq<string>): (r: seq<seq<T>>)
    ensures |r| == |order|
  {
    seq(|order|, i requires 0 <= i < |order| => Bucket(xs, key, order[i]))
  }

  function Keys<T>(xs: seq<T>, key: T -> string): (r: seq<string>)
    ensures |r| == |xs|
  {
    seq(|xs|, i requires 0 <= i < |xs| => key(xs[i]))
  }

  /** The sources in the order of their turns: preferred ones first, then as they first occur. */
  function Turns<T>(xs: seq<T>, key: T -> string, preferred: seq<string>): seq<string> {
    Distinct(preferred + Keys(xs, key))
  }

  function Balanced<T>(xs: seq<T>, key: T -> string, preferred: seq<string>): seq<T> {
    Interleaved(Buckets(xs, key, Turns(xs, key, preferred)))
  }

  ghost predicate Distinguished<T>(xs: seq<T>) {
    forall i, j :: 0 <= i < j < |xs| ==> xs[i] != xs[j]
  }

  lemma {:induction false} BucketElements<T>(xs: seq<T>, key: T -> string, source: string)
    ensures forall x :: x in Bucket(xs, key, source) <==> x in xs && key(x) == source
    ensures Distinguished(xs) ==> Distinguished(Bucket(xs, key, source))
  {
    if |xs| > 0 {
      BucketElements(xs[..|xs| - 1], key, source);
      assert xs == xs[..|xs| - 1] + [xs[|xs| - 1]];
    }
  }

  /** Every element is ahead of all that follow it. */
  ghost predicate Chained<T(!new)>(xs: seq<T>, ahead: (T, T) -> bool) {
    forall i, j :: 0 <= i < j < |xs| ==> ahead(xs[i], xs[j])
  }

  /** A bucket lists its elements in the order of the whole list. */
  lemma {:induction false} BucketKeepsOrder<T(!new)>(xs: seq<T>, key: T -> string, source: string,
                                                     ahead: (T, T) -> bool)
    requires Chained(xs, ahead)
    ensures Chained(Bucket(xs, key, source), ahead)
  {
    if |xs| > 0 {
      var front, last := xs[..|xs| - 1], xs[|xs| - 1];
      var b := Bucket(front, key, source);
      BucketKeepsOrder(front, key, source, ahead);
      BucketElements(front, key, source);
      forall i | 0 <= i < |b| ensures ahead(b[i], last) {
        assert b[i] in front;
        var k :| 0 <= k < |front| && front[k] == b[i];
        assert ahead(xs[k], xs[|xs| - 1]);
      }
    }
  }

  lemma {:induction false} SizesSnoc<T>(xs: seq<T>, x: T, key: T -> string, order: seq<string>)
    requires NoRepeats(order)
    ensures Sum(Sizes(Buckets(xs + [x], key, order))) ==
            Sum(Sizes(Buckets(xs, key, order))) + if key(x) in order then 1 else 0
    decreases order
  {
    assert (xs + [x])[..|xs|] == xs;
    if |order| > 0 {
      var front, last := order[..|order| - 1], order[|order| - 1];
      SizesSnoc(xs, x, key, front);
      assert order == front + [last];
      SizesFront(xs, key, order);
      SizesFront(xs + [x], key, order);
    }
  }

  lemma SizesFront<T>(xs: seq<T>, key: T -> string, order: seq<string>)
    requires |order| > 0
    ensures Sum(Sizes(Buckets(xs, key, order))) ==
            Sum(Sizes(Buckets(xs, key, order[..|order| - 1]))) + |Bucket(xs, key, order[|order| - 1])|
  {
    var sizes := Sizes(Buckets(xs, key, order));
    assert sizes[..|order| - 1] == Sizes(Buckets(xs, key, order[..|order| - 1]));
  }

  lemma {:induction false} EmptySum(sizes: seq<nat>)
    requires forall i :: 0 <= i < |sizes| ==> sizes[i] == 0
    ensures Sum(sizes) == 0
  {
    if |sizes| > 0 {
      EmptySum(sizes[..|sizes| - 1]);
    }
  }

  lemma {:induction false} BucketsCover<T>(xs: seq<T>, key: T -> string, order: seq<string>)
    requires NoRepeats(order)
    ensures Sum(Sizes(Buckets(xs, key, order))) <= |xs|
    ensures Sum(Sizes(Buckets(xs, key, order))) == |xs| <==> forall x :: x in xs ==> key(x) in order
    decreases xs
  {
    if |xs| == 0 {
      EmptySum(Sizes(Buckets(xs, key, order)));
    } else {
      var front, last := xs[..|xs| - 1], xs[|xs| - 1];
      assert xs == front + [last];
      BucketsCover(front, key, order);
      SizesSnoc(front, last, key, order);
    }
  }

  lemma TurnsCover<T>(xs: seq<T>, key: T -> string, preferred: seq<string>)
    requires forall x :: x in xs ==> key(x) != ""
    ensures NoRepeats(Turns(xs, key, preferred))
    ensures forall x :: x in xs ==> key(x) in Turns(xs, key, preferred)
  {
    DistinctElements(preferred + Keys(xs, key));
    forall x | x in xs ensures key(x) in preferred + Keys(xs, key) {
      var i :| 0 <= i < |xs| && xs[i] == x;
      assert Keys(xs, key)[i] == key(x);
    }
  }

  /** A balanced list has the same length and the same elements as the list it was made from; if those are pairwise
      distinct, so it lists each of them exactly once. */
  lemma BalancedIsPermutation<T>(xs: seq<T>, key: T -> string, preferred: seq<string>)
    requires forall x :: x in xs ==> key(x) != ""
    ensures |Balanced(xs, key, preferred)| == |xs|
    ensures forall x :: x in Balanced(xs, key, preferred) <==> x in xs
    ensures Distinguished(xs) ==> Distinguished(Balanced(xs, key, preferred))
  {
    var turns := Turns(xs, key, preferred);
    var buckets := Buckets(xs, key, turns);
    TurnsCover(xs, key, preferred);
    BucketsCover(xs, key, turns);
    InterleavedCount(buckets);
    InterleavedElements(buckets);
    assert Balanced(xs, key, preferred) == Interleaved(buckets);
    forall x | x in Balanced(xs, key, preferred) ensures x in xs {
      assert InSomeBucket(buckets, x);
      var b :| 0 <= b < |buckets| && x in buckets[b];
      BucketElements(xs, key, turns[b]);
    }
    forall x | x in xs ensures x in Balanced(xs, key, preferred) {
      var b :| 0 <= b < |turns| && turns[b] == key(x);
      BucketElements(xs, key, turns[b]);
      assert x in buckets[b];
    }
    if Distinguished(xs) {
      BalancedIsDistinguished(xs, key, preferred);
    }
  }

  lemma BalancedIsDistinguished<T>(xs: seq<T>, key: T -> string, preferred: seq<string>)
    requires Distinguished(xs) && NoRepeats(Turns(xs, key, preferred))
    ensures Distinguished(Balanced(xs, key, preferred))
  {
    var turns := Turns(xs, key, preferred);
    var buckets, r := Buckets(xs, key, turns), Balanced(xs, key, preferred);
    var cells := Cells(Sizes(buckets));
    CellsAreAll(Sizes(buckets));
    CellsExist(buckets);
    forall i, j | 0 <= i < j < |r| ensures r[i] != r[j] {
      var c, d := cells[i], cells[j];
      assert r[i] == buckets[c.bucket][c.index] && r[j] == buckets[d.bucket][d.index];
      BucketElements(xs, key, turns[c.bucket]);
      BucketElements(xs, key, turns[d.bucket]);
      assert r[i] in Bucket(xs, key, turns[c.bucket]) && r[j] in Bucket(xs, key, turns[d.bucket]);
      assert Earlier(c, d);
    }
  }

  // ----- What a prefix of a balanced list contains -----

  lemma {:induction false} BucketConcat<T>(xs: seq<T>, ys: seq<T>, key: T -> string, source: string)
    ensures Bucket(xs + ys, key, source) == Bucket(xs, key, source) + Bucket(ys, key, source)
  {
    if |ys| == 0 {
      assert xs + ys == xs;
    } else {
      assert (xs + ys)[..|xs + ys| - 1] == xs + ys[..|ys| - 1];
      BucketConcat(xs, ys[..|ys| - 1], key, source);
    }
  }

  lemma CellElement<T>(xs: seq<T>, key: T -> string, preferred: seq<string>, k: nat)
    requires k < |Balanced(xs, key, preferred)|
    ensures var turns := Turns(xs, key, preferred);
            var c := Cells(Sizes(Buckets(xs, key, turns)))[k];
            && c.bucket < |turns| && c.index < |Bucket(xs, key, turns[c.bucket])|
            && Balanced(xs, key, preferred)[k] == Bucket(xs, key, turns[c.bucket])[c.index]
            && key(Balanced(xs, key, preferred)[k]) == turns[c.bucket]
  {
    var turns := Turns(xs, key, preferred);
    var buckets := Buckets(xs, key, turns);
    var c := Cells(Sizes(buckets))[k];
    CellsExist(buckets);
    BucketElements(xs, key, turns[c.bucket]);
    assert buckets[c.bucket][c.index] in Bucket(xs, key, turns[c.bucket]);
  }

  lemma ShareSnoc(cells: seq<Cell>, n: nat, b: nat)
    requires 0 < n <= |cells|
    ensures Share(cells[..n], b) ==
            Share(cells[..n - 1], b) + if cells[n - 1].bucket == b then [cells[n - 1].index] else []
  {
    assert cells[..n][..n - 1] == cells[..n - 1];
  }

  lemma BucketSnoc<T>(xs: seq<T>, n: nat, key: T -> string, source: string)
    requires 0 < n <= |xs|
    ensures Bucket(xs[..n], key, source) ==
            Bucket(xs[..n - 1], key, source) + if key(xs[n - 1]) == source then [xs[n - 1]] else []
  {
    assert xs[..n][..n - 1] == xs[..n - 1];
  }

  /** Of every source, the first `n` elements contain a prefix of its bucket, as long as its share of the cells. */
  ghost predicate SharesBucket<T>(xs: seq<T>, key: T -> string, preferred: seq<string>, n: nat, b: nat)
    requires n <= |Balanced(xs, key, preferred)| && b < |Turns(xs, key, preferred)|
  {
    var turns := Turns(xs, key, preferred);
    var share, bucket := Share(Cells(Sizes(Buckets(xs, key, turns)))[..n], b), Bucket(xs, key, turns[b]);
    |share| <= |bucket| && Bucket(Balanced(xs, key, preferred)[..n], key, turns[b]) == bucket[..|share|]
  }

  /** If a share that is a prefix grows by the next element, it stays a prefix. */
  lemma ShareGrows<T>(bucket: seq<T>, share: seq<nat>, taken: seq<T>, k: nat)
    requires |share| <= |bucket| && taken == bucket[..|share|] && k == |share| && k < |bucket|
    ensures |share + [k]| <= |bucket| && taken + [bucket[k]] == bucket[..|share + [k]|]
  {
  }

  lemma PrefixShareStep<T>(xs: seq<T>, key: T -> string, preferred: seq<string>, n: nat, b: nat)
    requires 0 < n <= |Balanced(xs, key, preferred)|
    requires NoRepeats(Turns(xs, key, preferred)) && b < |Turns(xs, key, preferred)|
    requires SharesBucket(xs, key, preferred, n - 1, b)
    ensures SharesBucket(xs, key, preferred, n, b)
  {
    var turns, r := Turns(xs, key, preferred), Balanced(xs, key, preferred);
    var sizes := Sizes(Buckets(xs, key, turns));
    var cells := Cells(sizes);
    CellElement(xs, key, preferred, n - 1);
    ShareSnoc(cells, n, b);
    BucketSnoc(r, n, key, turns[b]);
    if cells[n - 1].bucket == b {
      ShareIsPrefix(sizes, n - 1, b);
      NextOfBucket(sizes, n - 1, b);
      ShareGrows(Bucket(xs, key, turns[b]), Share(cells[..n - 1], b), Bucket(r[..n - 1], key, turns[b]),
                 cells[n - 1].index);
    } else {
      assert turns[cells[n - 1].bucket] != turns[b];
    }
  }

  lemma {:induction false} PrefixShares<T>(xs: seq<T>, key: T -> string, preferred: seq<string>, n: nat, b: nat)
    requires n <= |Balanced(xs, key, preferred)|
    requires NoRepeats(Turns(xs, key, preferred)) && b < |Turns(xs, key, preferred)|
    ensures SharesBucket(xs, key, preferred, n, b)
  {
    if n > 0 {
      PrefixShares(xs, key, preferred, n - 1, b);
      PrefixShareStep(xs, key, preferred, n, b);
    }
  }

  /** How many elements of a source a list contains. */
  function Count<T>(xs: seq<T>, key: T -> string, source: string): nat {
    |Bucket(xs, key, source)|
  }

  /** Every prefix is fair: no source is more than one element ahead of a source with elements left. */
  lemma PrefixIsFair<T>(xs: seq<T>, key: T -> string, preferred: seq<string>, n: nat, a: string, b: string)
    requires n <= |Balanced(xs, key, preferred)| && forall x :: x in xs ==> key(x) != ""
    ensures var r := Balanced(xs, key, preferred)[..n];
            Count(r, key, a) == Count(xs, key, a) || Count(r, key, a) >= Count(r, key, b) - 1
  {
    var turns := Turns(xs, key, preferred);
    var r, sizes := Balanced(xs, key, preferred)[..n], Sizes(Buckets(xs, key, turns));
    TurnsCover(xs, key, preferred);
    if a !in turns {
      NoneOf(xs, key, preferred, n, a);
    } else if b !in turns {
      NoneOf(xs, key, preferred, n, b);
    } else {
      var i :| 0 <= i < |turns| && turns[i] == a;
      var j :| 0 <= j < |turns| && turns[j] == b;
      PrefixShares(xs, key, preferred, n, i);
      PrefixShares(xs, key, preferred, n, j);
      SharesAreFair(sizes, n, i, j);
    }
  }

  lemma {:induction false} EmptyBucket<T>(xs: seq<T>, key: T -> string, source: string)
    requires forall x :: x in xs ==> key(x) != source
    ensures Bucket(xs, key, source) == []
  {
    if |xs| > 0 {
      EmptyBucket(xs[..|xs| - 1], key, source);
      assert xs[|xs| - 1] in xs;
    }
  }

  lemma NoneOf<T>(xs: seq<T>, key: T -> string, preferred: seq<string>, n: nat, source: string)
    requires n <= |Balanced(xs, key, preferred)| && source !in Turns(xs, key, preferred)
    requires forall x :: x in xs ==> key(x) != ""
    ensures Count(xs, key, source) == 0 && Count(Balanced(xs, key, preferred)[..n], key, source) == 0
  {
    var r := Balanced(xs, key, preferred);
    TurnsCover(xs, key, preferred);
    EmptyBucket(xs, key, source);
    forall x | x in r[..n] ensures key(x) != source {
      var i :| 0 <= i < n && r[..n][i] == x;
      CellElement(xs, key, preferred, i);
    }
    EmptyBucket(r[..n], key, source);
  }

  /** Every prefix holds, of each source, the elements that are ahead of all others of that source. */
  lemma PrefixTakesTheBest<T(!new)>(xs: seq<T>, key: T -> string, preferred: seq<string>, n: nat, ahead: (T, T) -> bool,
                                    x: T, y: T)
    requires n <= |Balanced(xs, key, preferred)| && (forall z :: z in xs ==> key(z) != "") && Chained(xs, ahead)
    requires x in Balanced(xs, key, preferred)[..n] && y in xs && y !in Balanced(xs, key, preferred)[..n] &&
             key(x) == key(y)
    ensures ahead(x, y)
  {
    var turns, r := Turns(xs, key, preferred), Balanced(xs, key, preferred)[..n];
    TurnsCover(xs, key, preferred);
    var b :| 0 <= b < |turns| && turns[b] == key(y);
    PrefixShares(xs, key, preferred, n, b);
    var bucket, taken := Bucket(xs, key, turns[b]), Bucket(r, key, turns[b]);
    BucketElements(r, key, turns[b]);
    BucketElements(xs, key, turns[b]);
    BucketKeepsOrder(xs, key, turns[b], ahead);
    assert x in taken && y in bucket && y !in taken;
    var i :| 0 <= i < |taken| && taken[i] == x;
    var j :| 0 <= j < |bucket| && bucket[j] == y;
    assert forall k :: 0 <= k < |taken| ==> bucket[k] == taken[k] && taken[k] in taken;
    assert taken[i] == bucket[i];
    assert ahead(bucket[i], bucket[j]);
  }

  lemma FirstTurn<T>(xs: seq<T>, key: T -> string)
    requires |xs| > 0 && key(xs[0]) != ""
    ensures |Turns(xs, key, [])| > 0 && Turns(xs, key, [])[0] == key(xs[0])
  {
    assert [] + Keys(xs, key) == [key(xs[0])] + Keys(xs[1..], key);
    DistinctSnoc([], key(xs[0]));
    assert [] + [key(xs[0])] == [key(xs[0])];
    DistinctPrefix([key(xs[0])], Keys(xs[1..], key));
  }

  /** Without preferred sources the list starts with its first element. */
  lemma BalancedStart<T>(xs: seq<T>, key: T -> string)
    requires |xs| > 0 && forall x :: x in xs ==> key(x) != ""
    ensures |Balanced(xs, key, [])| > 0 && Balanced(xs, key, [])[0] == xs[0]
  {
    var source := key(xs[0]);
    assert xs[0] in xs;
    FirstTurn(xs, key);
    BucketSnoc([xs[0]], 1, key, source);
    BucketConcat([xs[0]], xs[1..], key, source);
    assert xs == [xs[0]] + xs[1..];
    assert [xs[0]][..1] == [xs[0]];
    FirstCell(Sizes(Buckets(xs, key, Turns(xs, key, []))));
    CellElement(xs, key, [], 0);
  }

  // ----- The loops -----

  /** The bucket of `source` so far. */
  function BucketIn<T>(buckets: map<string, seq<T>>, source: string): seq<T> {
    if source in buckets then buckets[source] else []
  }

  lemma TurnsSnoc<T>(xs: seq<T>, i: nat, key: T -> string, preferred: seq<string>)
    requires i < |xs|
    ensures Turns(xs[..i + 1], key, preferred) == Add(Turns(xs[..i], key, preferred), key(xs[i]))
  {
    assert preferred + Keys(xs[..i + 1], key) == preferred + Keys(xs[..i], key) + [key(xs[i])];
    DistinctSnoc(preferred + Keys(xs[..i], key), key(xs[i]));
  }

  ghost predicate Groups<T>(buckets: map<string, seq<T>>, xs: seq<T>, key: T -> string) {
    forall source :: BucketIn(buckets, source) == Bucket(xs, key, source)
  }

  lemma GroupsSnoc<T>(buckets: map<string, seq<T>>, xs: seq<T>, i: nat, key: T -> string)
    requires i < |xs| && Groups(buckets, xs[..i], key)
    ensures Groups(buckets[key(xs[i]) := BucketIn(buckets, key(xs[i])) + [xs[i]]], xs[..i + 1], key)
  {
    var updated := buckets[key(xs[i]) := BucketIn(buckets, key(xs[i])) + [xs[i]]];
    assert xs[..i + 1][..i] == xs[..i];
    forall source ensures BucketIn(updated, source) == Bucket(xs[..i + 1], key, source) {
      assert BucketIn(buckets, source) == Bucket(xs[..i], key, source);
    }
  }

  /** Groups by source: `order` lists the sources in the order of their turns. */
  method GroupBySource<T>(xs: seq<T>, key: T -> string, preferred: seq<string>)
    returns (order: seq<string>, buckets: map<string, seq<T>>)
    requires NoRepeats(preferred) && "" !in preferred
    requires forall x :: x in xs ==> key(x) != ""
    ensures order == Turns(xs, key, preferred)
    ensures Groups(buckets, xs, key)
  {
    DistinctFixed(preferred);
    assert preferred + Keys(xs[..0], key) == preferred;
    order, buckets := preferred, map[];
    for i := 0 to |xs|
      invariant order == Turns(xs[..i], key, preferred)
      invariant Groups(buckets, xs[..i], key)
    {
      TurnsSnoc(xs, i, key, preferred);
      GroupsSnoc(buckets, xs, i, key);
      assert xs[i] in xs;
      var source := key(xs[i]);
      if source !in order {
        order := order + [source];
      }
      buckets := buckets[source := BucketIn(buckets, source) + [xs[i]]];
    }
    assert xs[..|xs|] == xs;
  }

  function Listed<T>(order: seq<string>, buckets: map<string, seq<T>>): (r: seq<seq<T>>)
    ensures |r| == |order|
  {
    seq(|order|, i requires 0 <= i < |order| => BucketIn(buckets, order[i]))
  }

  lemma RowExists<T>(lists: seq<seq<T>>, index: nat, n: nat)
    requires n <= |lists|
    ensures AllExist(lists, Row(Sizes(lists), index, n))
  {
    var row := Row(Sizes(lists), index, n);
    RowCells(Sizes(lists), index, n);
    forall i | 0 <= i < |row| ensures Exists(Sizes(lists), row[i]) {
      assert row[i] in row;
    }
  }

  lemma RowGrowsBy<T>(lists: seq<seq<T>>, index: nat, k: nat)
    requires k < |lists|
    ensures AllExist(lists, Row(Sizes(lists), index, k)) && AllExist(lists, Row(Sizes(lists), index, k + 1))
    ensures Pick(lists, Row(Sizes(lists), index, k + 1)) ==
            Pick(lists, Row(Sizes(lists), index, k)) + if index < |lists[k]| then [lists[k][index]] else []
  {
    RowExists(lists, index, k);
    RowExists(lists, index, k + 1);
  }

  /** One round: the element number `index` of every source that has one. */
  method TakeRound<T>(order: seq<string>, buckets: map<string, seq<T>>, index: nat) returns (round: seq<T>)
    ensures AllExist(Listed(order, buckets), Row(Sizes(Listed(order, buckets)), index, |order|))
    ensures round == Pick(Listed(order, buckets), Row(Sizes(Listed(order, buckets)), index, |order|))
  {
    ghost var lists := Listed(order, buckets);
    round := [];
    for k := 0 to |order|
      invariant AllExist(lists, Row(Sizes(lists), index, k))
      invariant round == Pick(lists, Row(Sizes(lists), index, k))
    {
      RowGrowsBy(lists, index, k);
      var bucket := BucketIn(buckets, order[k]);
      if index >= |bucket| {
        continue;
      }
      round := round + [bucket[index]];
    }
  }

  /** Rounds over the sources until every element has been taken; a round that adds nothing cannot happen. */
  method TakeRounds<T>(order: seq<string>, buckets: map<string, seq<T>>, total: nat) returns (result: seq<T>)
    requires total == |Interleaved(Listed(order, buckets))|
    ensures result == Interleaved(Listed(order, buckets))
  {
    ghost var lists := Listed(order, buckets);
    ghost var sizes := Sizes(lists);
    CellsExist(lists);
    result := [];
    var index := 0;
    while |result| < total
      invariant Rounds(sizes, index) <= Cells(sizes)
      invariant result == Pick(lists, Rounds(sizes, index))
      decreases total - |result|
    {
      PartialIsPrefix(sizes, index, |order|);
      var round := TakeRound(order, buckets, index);
      if |round| == 0 {
        ExhaustedAfterEmptyRow(sizes, index);
        assert false;
      }
      result := result + round;
      index := index + 1;
    }
    assert Rounds(sizes, index) == Cells(sizes);
  }

  lemma ExhaustedAfterEmptyRow(sizes: seq<nat>, index: nat)
    requires Row(sizes, index, |sizes|) == []
    ensures Rounds(sizes, index) == Cells(sizes)
  {
    RowCells(sizes, index, |sizes|);
    forall b: nat | b < |sizes| ensures sizes[b] <= index {
      assert Cell(b, index) !in Row(sizes, index, |sizes|);
    }
    MaxSizeBounds(sizes, index);
    NoMoreRounds(sizes, index);
  }

  method InterleaveBySource<T>(xs: seq<T>, key: T -> string, preferred: seq<string>) returns (result: seq<T>)
    requires NoRepeats(preferred) && "" !in preferred
    requires forall x :: x in xs ==> key(x) != ""
    ensures result == Balanced(xs, key, preferred)
  {
    BalancedIsPermutation(xs, key, preferred);
    var order, buckets := GroupBySource(xs, key, preferred);
    assert Buckets(xs, key, order) == Listed(order, buckets);
    result := TakeRounds(order, buckets, |xs|);
  }
}
