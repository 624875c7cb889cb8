/**
 * When the order of a balanced list is decided: a list is sorted stably and then balanced over its sources, and its
 * elements come from a map, in an arbitrary order. Two elements that are sorted alike stay in that order, and so the
 * result may differ from one time to the next.
 */
module BalanceOrder {
  import FirstSeen
  import opened Sorting
  import opened RoundRobin
  import opened SourceBalance

  function Arranged<T>(xs: seq<T>, before: (T, T) -> bool, key: T -> string, preferred: seq<string>): seq<T> {
    Balanced(StableSort(xs, before), key, preferred)
  }

  ghost predicate SameElements<T(!new)>(xs: seq<T>, ys: seq<T>) {
    forall x :: x in xs <==> x in ys
  }

  ghost predicate Tie<T>(before: (T, T) -> bool, a: T, b: T) {
    !before(a, b) && !before(b, a)
  }

  /** No element of the same source is sorted ahead of `a`. */
  ghost predicate Leads<T(!new)>(xs: seq<T>, before: (T, T) -> bool, key: T -> string, a: T) {
    forall b :: b in xs && key(b) == key(a) ==> !before(b, a)
  }

  /** The order of `a` and `b` is open: they are sorted alike, and are either of one source or lead two sources that
      take their turns as they first occur. */
  ghost predicate Contested<T(!new)>(xs: seq<T>, before: (T, T) -> bool, key: T -> string, preferred: seq<string>,
                                     a: T, b: T) {
    && a in xs && b in xs && a != b && Tie(before, a, b)
    && (key(a) != key(b) ==>
          key(a) !in preferred && key(b) !in preferred && Leads(xs, before, key, a) && Leads(xs, before, key, b))
  }

  ghost predicate Decided<T(!new)>(xs: seq<T>, before: (T, T) -> bool, key: T -> string, preferred: seq<string>) {
    forall a, b :: !Contested(xs, before, key, preferred, a, b)
  }

  ghost predicate Keyed<T(!new)>(xs: seq<T>, key: T -> string, preferred: seq<string>) {
    FirstSeen.NoRepeats(preferred) && "" !in preferred && forall x :: x in xs ==> key(x) != ""
  }

  // ----- A decided order depends on the elements only -----

  /** Sorted, without repetition, and with an order that is decided. */
  ghost predicate Settled<T(!new)>(sorted: seq<T>, before: (T, T) -> bool, key: T -> string, preferred: seq<string>) {
    Sorted(sorted, before) && Distinguished(sorted) && Decided(sorted, before, key, preferred)
  }

  lemma BucketIsStrict<T(!new)>(sorted: seq<T>, before: (T, T) -> bool, key: T -> string, preferred: seq<string>,
                                source: string)
    requires StrictWeak(before) && Settled(sorted, before, key, preferred)
    ensures StrictlySorted(Bucket(sorted, key, source), before)
  {
    var bucket := Bucket(sorted, key, source);
    BucketElements(sorted, key, source);
    BucketKeepsOrder(sorted, key, source, (x, y) => !before(y, x));
    forall i, j | 0 <= i < j < |bucket| ensures before(bucket[i], bucket[j]) {
      assert bucket[i] in bucket && bucket[j] in bucket;
      assert !Contested(sorted, before, key, preferred, bucket[i], bucket[j]);
    }
  }

  lemma BucketsAgree<T(!new)>(s1: seq<T>, s2: seq<T>, before: (T, T) -> bool, key: T -> string, preferred: seq<string>,
                              source: string)
    requires StrictWeak(before) && SameElements(s1, s2)
    requires Settled(s1, before, key, preferred) && Settled(s2, before, key, preferred)
    ensures Bucket(s1, key, source) == Bucket(s2, key, source)
  {
    BucketIsStrict(s1, before, key, preferred, source);
    BucketIsStrict(s2, before, key, preferred, source);
    BucketElements(s1, key, source);
    BucketElements(s2, key, source);
    StrictlySortedIsUnique(Bucket(s1, key, source), Bucket(s2, key, source), before);
  }

  /** Where a list starts with the preferred sources, no other place holds one. */
  lemma NotPreferred(turns: seq<string>, preferred: seq<string>)
    requires preferred <= turns && FirstSeen.NoRepeats(turns)
    ensures forall i :: 0 <= i < |turns| ==> (turns[i] in preferred <==> i < |preferred|)
  {
    forall i | |preferred| <= i < |turns| ensures turns[i] !in preferred {
      forall k | 0 <= k < |preferred| ensures preferred[k] != turns[i] {
        assert preferred[k] == turns[k];
      }
    }
  }

  lemma TurnsStart<T(!new)>(xs: seq<T>, key: T -> string, preferred: seq<string>)
    requires Keyed(xs, key, preferred)
    ensures preferred <= Turns(xs, key, preferred)
    ensures FirstSeen.NoRepeats(Turns(xs, key, preferred))
    ensures var turns := Turns(xs, key, preferred);
            forall i :: 0 <= i < |turns| ==> (turns[i] in preferred <==> i < |preferred|)
    ensures forall s :: s in Turns(xs, key, preferred) <==> s in preferred || s in Keys(xs, key)
  {
    FirstSeen.DistinctPrefix(preferred, Keys(xs, key));
    FirstSeen.DistinctFixed(preferred);
    FirstSeen.DistinctElements(preferred + Keys(xs, key));
    forall s | s in Keys(xs, key) ensures s != "" {
      var i :| 0 <= i < |xs| && Keys(xs, key)[i] == s;
      assert xs[i] in xs;
    }
    NotPreferred(Turns(xs, key, preferred), preferred);
  }

  /** Of two sources that take their turns as they first occur, an element of the earlier one comes ahead of every
      element of the later one. */
  lemma EarlierTurn<T(!new)>(xs: seq<T>, key: T -> string, preferred: seq<string>, i: nat, j: nat, q: nat)
    returns (p: nat)
    requires Keyed(xs, key, preferred) && |preferred| <= i < j < |Turns(xs, key, preferred)|
    requires q < |xs| && key(xs[q]) == Turns(xs, key, preferred)[j]
    ensures p < q && key(xs[p]) == Turns(xs, key, preferred)[i]
  {
    var names, turns := preferred + Keys(xs, key), Turns(xs, key, preferred);
    TurnsStart(xs, key, preferred);
    assert forall k :: 0 <= k < |preferred| ==> names[k] in preferred;
    p := FirstSeen.DistinctToFollows(names, |names|, i, j, |preferred| + q);
    p := p - |preferred|;
  }

  /** The first of one source is sorted ahead of the first of the other. */
  ghost predicate HeadsBefore<T>(sorted: seq<T>, before: (T, T) -> bool, key: T -> string, s: string, t: string) {
    && Bucket(sorted, key, s) != [] && Bucket(sorted, key, t) != []
    && before(Bucket(sorted, key, s)[0], Bucket(sorted, key, t)[0])
  }

  lemma HeadLeads<T(!new)>(sorted: seq<T>, before: (T, T) -> bool, key: T -> string, source: string)
    requires Sorted(sorted, before) && StrictWeak(before) && Bucket(sorted, key, source) != []
    ensures var head := Bucket(sorted, key, source)[0];
            head in sorted && key(head) == source && Leads(sorted, before, key, head)
  {
    var bucket := Bucket(sorted, key, source);
    BucketElements(sorted, key, source);
    assert bucket[0] in bucket;
    BucketKeepsOrder(sorted, key, source, (x, y) => !before(y, x));
    forall b | b in sorted && key(b) == source ensures !before(b, bucket[0]) {
      assert b in bucket;
      var k :| 0 <= k < |bucket| && bucket[k] == b;
    }
  }

  lemma TurnsHaveBuckets<T(!new)>(xs: seq<T>, key: T -> string, preferred: seq<string>, i: nat)
    requires Keyed(xs, key, preferred) && |preferred| <= i < |Turns(xs, key, preferred)|
    ensures Turns(xs, key, preferred)[i] !in preferred && Bucket(xs, key, Turns(xs, key, preferred)[i]) != []
  {
    var turns := Turns(xs, key, preferred);
    TurnsStart(xs, key, preferred);
    assert turns[i] in turns;
    var q :| 0 <= q < |xs| && Keys(xs, key)[q] == turns[i];
    BucketElements(xs, key, turns[i]);
    assert xs[q] in Bucket(xs, key, turns[i]);
  }

  lemma TurnsAreStrict<T(!new)>(sorted: seq<T>, before: (T, T) -> bool, key: T -> string, preferred: seq<string>,
                                i: nat, j: nat)
    requires StrictWeak(before) && Settled(sorted, before, key, preferred) && Keyed(sorted, key, preferred)
    requires |preferred| <= i < j < |Turns(sorted, key, preferred)|
    ensures HeadsBefore(sorted, before, key, Turns(sorted, key, preferred)[i], Turns(sorted, key, preferred)[j])
  {
    var s, t := Turns(sorted, key, preferred)[i], Turns(sorted, key, preferred)[j];
    TurnsHaveBuckets(sorted, key, preferred, i);
    TurnsHaveBuckets(sorted, key, preferred, j);
    TurnsStart(sorted, key, preferred);
    HeadLeads(sorted, before, key, s);
    HeadLeads(sorted, before, key, t);
    var a, b := Bucket(sorted, key, s)[0], Bucket(sorted, key, t)[0];
    var q :| 0 <= q < |sorted| && sorted[q] == b;
    var p := EarlierTurn(sorted, key, preferred, i, j, q);
    assert !before(b, sorted[p]) && !before(sorted[p], a);
    assert !before(b, a);
    assert !Contested(sorted, before, key, preferred, a, b);
  }

  lemma HeadsBeforeIsAsymmetric<T(!new)>(sorted: seq<T>, before: (T, T) -> bool, key: T -> string, s: string, t: string)
    requires StrictWeak(before) && HeadsBefore(sorted, before, key, s, t)
    ensures !HeadsBefore(sorted, before, key, t, s)
  {
  }

  lemma LateTurnsAgree<T(!new)>(s1: seq<T>, s2: seq<T>, before: (T, T) -> bool, key: T -> string,
                                preferred: seq<string>)
    requires StrictWeak(before) && SameElements(s1, s2) && Keyed(s1, key, preferred)
    requires Settled(s1, before, key, preferred) && Settled(s2, before, key, preferred)
    ensures Turns(s1, key, preferred) == Turns(s2, key, preferred)
  {
    var t1, t2, n := Turns(s1, key, preferred), Turns(s2, key, preferred), |preferred|;
    var ahead := (s: string, t: string) => HeadsBefore(s1, before, key, s, t);
    TurnsStart(s1, key, preferred);
    TurnsStart(s2, key, preferred);
    forall i, j | n <= i < j < |t1| ensures ahead(t1[i], t1[j]) {
      TurnsAreStrict(s1, before, key, preferred, i, j);
    }
    forall i, j | n <= i < j < |t2| ensures ahead(t2[i], t2[j]) {
      TurnsAreStrict(s2, before, key, preferred, i, j);
      BucketsAgree(s1, s2, before, key, preferred, t2[i]);
      BucketsAgree(s1, s2, before, key, preferred, t2[j]);
    }
    forall s, t | ahead(s, t) ensures !ahead(t, s) {
      HeadsBeforeIsAsymmetric(s1, before, key, s, t);
    }
    forall s ensures s in t1[n..] <==> s in t2[n..] {
      LateTurn(s1, s2, key, preferred, s);
      LateTurn(s2, s1, key, preferred, s);
    }
    StrictlySortedIsUnique(t1[n..], t2[n..], ahead);
    assert t1 == preferred + t1[n..] && t2 == preferred + t2[n..];
  }

  lemma LateTurn<T(!new)>(s1: seq<T>, s2: seq<T>, key: T -> string, preferred: seq<string>, s: string)
    requires Keyed(s1, key, preferred) && SameElements(s1, s2)
    requires |preferred| <= |Turns(s1, key, preferred)| && |preferred| <= |Turns(s2, key, preferred)|
    ensures s in Turns(s1, key, preferred)[|preferred|..] ==> s in Turns(s2, key, preferred)[|preferred|..]
  {
    var t1, t2, n := Turns(s1, key, preferred), Turns(s2, key, preferred), |preferred|;
    if s in t1[n..] {
      var i :| n <= i < |t1| && t1[i] == s;
      TurnsHaveBuckets(s1, key, preferred, i);
      BucketElements(s1, key, s);
      var x := Bucket(s1, key, s)[0];
      assert x in Bucket(s1, key, s);
      var q :| 0 <= q < |s2| && s2[q] == x;
      assert Keys(s2, key)[q] == s;
      TurnsStart(s2, key, preferred);
      var j :| 0 <= j < |t2| && t2[j] == s;
    }
  }

  lemma SettledAgree<T(!new)>(s1: seq<T>, s2: seq<T>, before: (T, T) -> bool, key: T -> string, preferred: seq<string>)
    requires StrictWeak(before) && SameElements(s1, s2) && Keyed(s1, key, preferred)
    requires Settled(s1, before, key, preferred) && Settled(s2, before, key, preferred)
    ensures Balanced(s1, key, preferred) == Balanced(s2, key, preferred)
  {
    LateTurnsAgree(s1, s2, before, key, preferred);
    var turns := Turns(s1, key, preferred);
    forall i | 0 <= i < |turns| ensures Bucket(s1, key, turns[i]) == Bucket(s2, key, turns[i]) {
      BucketsAgree(s1, s2, before, key, preferred, turns[i]);
    }
    assert Buckets(s1, key, turns) == Buckets(s2, key, turns);
  }

  lemma ContestedElsewhere<T(!new)>(xs: seq<T>, ys: seq<T>, before: (T, T) -> bool, key: T -> string,
                                    preferred: seq<string>)
    requires SameElements(xs, ys) && Decided(xs, before, key, preferred)
    ensures Decided(ys, before, key, preferred)
  {
    forall a, b ensures !Contested(ys, before, key, preferred, a, b) {
      assert !Contested(xs, before, key, preferred, a, b);
    }
  }

  lemma SortIsSettled<T(!new)>(xs: seq<T>, before: (T, T) -> bool, key: T -> string, preferred: seq<string>)
    requires StrictWeak(before) && Distinguished(xs) && Decided(xs, before, key, preferred)
    ensures Settled(StableSort(xs, before), before, key, preferred) && SameElements(xs, StableSort(xs, before))
  {
    StableSortSorts(xs, before);
    StableSortKeepsDistinct(xs, before);
    ContestedElsewhere(xs, StableSort(xs, before), before, key, preferred);
  }

  /** If the order is decided, it depends on the elements only, not on the order in which they came. */
  lemma DecidedIsUnique<T(!new)>(xs: seq<T>, ys: seq<T>, before: (T, T) -> bool, key: T -> string,
                                 preferred: seq<string>)
    requires StrictWeak(before) && Distinguished(xs) && Distinguished(ys) && SameElements(xs, ys)
    requires Keyed(xs, key, preferred) && Decided(xs, before, key, preferred)
    ensures Arranged(xs, before, key, preferred) == Arranged(ys, before, key, preferred)
  {
    ContestedElsewhere(xs, ys, before, key, preferred);
    SortIsSettled(xs, before, key, preferred);
    SortIsSettled(ys, before, key, preferred);
    SettledAgree(StableSort(xs, before), StableSort(ys, before), before, key, preferred);
  }

  // ----- A contested order follows the order of the input -----

  lemma PrecedesOnce<T>(xs: seq<T>, a: T, b: T)
    requires Distinguished(xs) && Precedes(xs, a, b)
    ensures !Precedes(xs, b, a)
  {
  }

  lemma BucketPrecedence<T(!new)>(xs: seq<T>, key: T -> string, a: T, b: T)
    requires Distinguished(xs) && Precedes(xs, a, b) && key(a) == key(b)
    ensures Precedes(Bucket(xs, key, key(a)), a, b)
  {
    var bucket, ahead := Bucket(xs, key, key(a)), (x: T, y: T) => !(x == b && y == a);
    PrecedesOnce(xs, a, b);
    forall i, j | 0 <= i < j < |xs| ensures ahead(xs[i], xs[j]) {
    }
    BucketKeepsOrder(xs, key, key(a), ahead);
    BucketElements(xs, key, key(a));
    assert a in bucket && b in bucket;
    var i :| 0 <= i < |bucket| && bucket[i] == a;
    var j :| 0 <= j < |bucket| && bucket[j] == b;
    assert !ahead(b, a);
  }

  lemma NothingPrecedesHead<T>(xs: seq<T>, x: T)
    requires Distinguished(xs) && xs != []
    ensures !Precedes(xs, x, xs[0])
  {
  }

  /** The head of a bucket is the first of its source. */
  lemma HeadIsFirst<T(!new)>(xs: seq<T>, key: T -> string, a: T, x: T)
    requires Distinguished(xs) && Bucket(xs, key, key(a)) != [] && Bucket(xs, key, key(a))[0] == a && key(x) == key(a)
    ensures !Precedes(xs, x, a)
  {
    var bucket := Bucket(xs, key, key(a));
    BucketElements(xs, key, key(a));
    NothingPrecedesHead(bucket, x);
    if Precedes(xs, x, a) {
      BucketPrecedence(xs, key, x, a);
    }
  }

  /** An element that leads its source and comes ahead of all others of its source in the input is its head. */
  lemma LeaderIsHead<T(!new)>(xs: seq<T>, before: (T, T) -> bool, key: T -> string, p: nat)
    requires StrictWeak(before) && Distinguished(xs) && p < |xs| && Leads(xs, before, key, xs[p])
    requires forall r :: 0 <= r < p ==> key(xs[r]) != key(xs[p])
    ensures var bucket := Bucket(StableSort(xs, before), key, key(xs[p])); bucket != [] && bucket[0] == xs[p]
  {
    var sorted := StableSort(xs, before);
    var bucket := Bucket(sorted, key, key(xs[p]));
    StableSortSorts(xs, before);
    StableSortKeepsDistinct(xs, before);
    BucketElements(sorted, key, key(xs[p]));
    assert xs[p] in bucket;
    var head := bucket[0];
    assert head in bucket;
    HeadLeads(sorted, before, key, key(xs[p]));
    var r :| 0 <= r < |xs| && xs[r] == head;
    if r != p {
      StableSortKeepsInputOrder(xs, before, p, r);
      HeadIsFirst(sorted, key, head, xs[p]);
    }
  }

  lemma TurnOf<T(!new)>(xs: seq<T>, key: T -> string, preferred: seq<string>, a: T) returns (i: nat)
    requires Keyed(xs, key, preferred) && a in xs
    ensures i < |Turns(xs, key, preferred)| && Turns(xs, key, preferred)[i] == key(a)
  {
    TurnsStart(xs, key, preferred);
    var q :| 0 <= q < |xs| && xs[q] == a;
    assert Keys(xs, key)[q] == key(a);
    assert key(a) in Turns(xs, key, preferred);
    i :| 0 <= i < |Turns(xs, key, preferred)| && Turns(xs, key, preferred)[i] == key(a);
  }

  /** Of two sources that take their turns as they first occur, the one whose head comes first has its turn first. */
  lemma HeadsTakeTurns<T(!new)>(xs: seq<T>, key: T -> string, preferred: seq<string>, a: T, b: T, i: nat, j: nat)
    requires Distinguished(xs) && Keyed(xs, key, preferred) && Precedes(xs, a, b)
    requires key(a) != key(b) && key(a) !in preferred && key(b) !in preferred
    requires Bucket(xs, key, key(b)) != [] && Bucket(xs, key, key(b))[0] == b
    requires i < |Turns(xs, key, preferred)| && Turns(xs, key, preferred)[i] == key(a)
    requires j < |Turns(xs, key, preferred)| && Turns(xs, key, preferred)[j] == key(b)
    ensures i < j
  {
    TurnsStart(xs, key, preferred);
    if j < i {
      var q, r :| 0 <= q < r < |xs| && xs[q] == a && xs[r] == b;
      var p := EarlierTurn(xs, key, preferred, j, i, q);
      HeadIsFirst(xs, key, b, xs[p]);
      assert Precedes(xs, xs[p], xs[r]);
    }
  }

  /** The elements of two existing cells are balanced in the order of the cells. */
  lemma CellsPrecede<T(!new)>(xs: seq<T>, key: T -> string, preferred: seq<string>, c: Cell, d: Cell)
    requires Earlier(c, d)
    requires c.bucket < |Turns(xs, key, preferred)| && c.index < |Bucket(xs, key, Turns(xs, key, preferred)[c.bucket])|
    requires d.bucket < |Turns(xs, key, preferred)| && d.index < |Bucket(xs, key, Turns(xs, key, preferred)[d.bucket])|
    ensures var turns := Turns(xs, key, preferred);
            Precedes(Balanced(xs, key, preferred), Bucket(xs, key, turns[c.bucket])[c.index],
                     Bucket(xs, key, turns[d.bucket])[d.index])
  {
    var buckets := Buckets(xs, key, Turns(xs, key, preferred));
    var cells := Cells(Sizes(buckets));
    CellsAreAll(Sizes(buckets));
    CellsExist(buckets);
    assert Exists(Sizes(buckets), c) && Exists(Sizes(buckets), d);
    assert c in cells && d in cells;
    var i :| 0 <= i < |cells| && cells[i] == c;
    var j :| 0 <= j < |cells| && cells[j] == d;
    assert !Earlier(d, c);
    assert Interleaved(buckets)[i] == buckets[c.bucket][c.index] &&
           Interleaved(buckets)[j] == buckets[d.bucket][d.index];
  }

  lemma RivalsOfOneSource<T(!new)>(xs: seq<T>, key: T -> string, preferred: seq<string>, a: T, b: T)
    requires Distinguished(xs) && Keyed(xs, key, preferred) && Precedes(xs, a, b) && key(a) == key(b)
    ensures Precedes(Balanced(xs, key, preferred), a, b)
  {
    var bucket := Bucket(xs, key, key(a));
    BucketPrecedence(xs, key, a, b);
    var i, j :| 0 <= i < j < |bucket| && bucket[i] == a && bucket[j] == b;
    var turn := TurnOf(xs, key, preferred, a);
    CellsPrecede(xs, key, preferred, Cell(turn, i), Cell(turn, j));
  }

  lemma RivalHeads<T(!new)>(xs: seq<T>, key: T -> string, preferred: seq<string>, a: T, b: T)
    requires Distinguished(xs) && Keyed(xs, key, preferred) && Precedes(xs, a, b)
    requires key(a) != key(b) && key(a) !in preferred && key(b) !in preferred
    requires Bucket(xs, key, key(a)) != [] && Bucket(xs, key, key(a))[0] == a
    requires Bucket(xs, key, key(b)) != [] && Bucket(xs, key, key(b))[0] == b
    ensures Precedes(Balanced(xs, key, preferred), a, b)
  {
    var i := TurnOf(xs, key, preferred, a);
    var j := TurnOf(xs, key, preferred, b);
    HeadsTakeTurns(xs, key, preferred, a, b, i, j);
    CellsPrecede(xs, key, preferred, Cell(i, 0), Cell(j, 0));
  }

  /** Of two elements whose order is open, the one that comes first in the input is delivered first. */
  lemma ContestedFollowsInput<T(!new)>(xs: seq<T>, before: (T, T) -> bool, key: T -> string, preferred: seq<string>)
    requires StrictWeak(before) && Distinguished(xs) && Keyed(xs, key, preferred)
    requires |xs| > 1 && Contested(xs, before, key, preferred, xs[0], xs[1])
    ensures Precedes(Arranged(xs, before, key, preferred), xs[0], xs[1])
  {
    var sorted := StableSort(xs, before);
    StableSortKeepsInputOrder(xs, before, 0, 1);
    StableSortSorts(xs, before);
    StableSortKeepsDistinct(xs, before);
    if key(xs[0]) == key(xs[1]) {
      RivalsOfOneSource(sorted, key, preferred, xs[0], xs[1]);
    } else {
      LeaderIsHead(xs, before, key, 0);
      LeaderIsHead(xs, before, key, 1);
      RivalHeads(sorted, key, preferred, xs[0], xs[1]);
    }
  }
}
