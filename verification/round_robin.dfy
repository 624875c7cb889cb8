/**
 * Round-robin interleaving of buckets: round after round, one element of every bucket that still has one.
 * Parser search, article search and the feed all deliver their results in this order.
 */
module RoundRobin {
  import Induction

  /** Element number `index` of bucket number `bucket`. */
  datatype Cell = Cell(bucket: nat, index: nat)

  /** Round number `index`, restricted to the first `n` buckets. */
  function Row(sizes: seq<nat>, index: nat, n: nat): (row: seq<Cell>)
    requires n <= |sizes|
  {
    if n == 0 then [] else Row(sizes, index, n - 1) + if index < sizes[n - 1] then [Cell(n - 1, index)] else []
  }

  /** The first `n` rounds. */
  function Rounds(sizes: seq<nat>, n: nat): seq<Cell> {
    if n == 0 then [] else Rounds(sizes, n - 1) + Row(sizes, n - 1, |sizes|)
  }

  function MaxSize(sizes: seq<nat>): nat {
    if |sizes| == 0 then 0 else
      var m := MaxSize(sizes[..|sizes| - 1]);
      if sizes[|sizes| - 1] > m then sizes[|sizes| - 1] else m
  }

  lemma {:induction false} MaxSizeBounds(sizes: seq<nat>, bound: nat)
    ensures forall b :: 0 <= b < |sizes| ==> sizes[b] <= MaxSize(sizes)
    ensures (forall b :: 0 <= b < |sizes| ==> sizes[b] <= bound) ==> MaxSize(sizes) <= bound
  {
    if |sizes| > 0 {
      MaxSizeBounds(sizes[..|sizes| - 1], bound);
    }
  }

  /** The order in which all cells are visited. */
  function Cells(sizes: seq<nat>): seq<Cell> {
    Rounds(sizes, MaxSize(sizes))
  }

  ghost predicate Exists(sizes: seq<nat>, c: Cell) {
    c.bucket < |sizes| && c.index < sizes[c.bucket]
  }

  ghost predicate Earlier(a: Cell, b: Cell) {
    a.index < b.index || (a.index == b.index && a.bucket < b.bucket)
  }

  ghost predicate InOrder(cells: seq<Cell>) {
    forall i, j :: 0 <= i < j < |cells| ==> Earlier(cells[i], cells[j])
  }

  lemma {:induction false} RowCells(sizes: seq<nat>, index: nat, n: nat)
    requires n <= |sizes|
    ensures InOrder(Row(sizes, index, n))
    ensures forall c :: c in Row(sizes, index, n) <==> c.index == index && c.bucket < n && Exists(sizes, c)
  {
    if n > 0 {
      RowCells(sizes, index, n - 1);
      var front, last := Row(sizes, index, n - 1), Cell(n - 1, index);
      assert forall c :: c in front + [last] <==> c in front || c == last;
      assert forall i :: 0 <= i < |front| ==> front[i] in front;
    }
  }

  lemma InOrderConcat(xs: seq<Cell>, ys: seq<Cell>)
    requires InOrder(xs) && InOrder(ys)
    requires forall x, y :: x in xs && y in ys ==> Earlier(x, y)
    ensures InOrder(xs + ys)
  {
    forall i, j | 0 <= i < j < |xs + ys| ensures Earlier((xs + ys)[i], (xs + ys)[j]) {
      if i < |xs| <= j {
        assert xs[i] in xs && ys[j - |xs|] in ys;
      }
    }
  }

  /** The cells are those of the first `n` rounds, by index first and by bucket second. */
  ghost predicate VisitsRounds(sizes: seq<nat>, cells: seq<Cell>, n: nat) {
    InOrder(cells) && forall c :: c in cells <==> c.index < n && Exists(sizes, c)
  }

  lemma NextRound(sizes: seq<nat>, cells: seq<Cell>, n: nat)
    requires VisitsRounds(sizes, cells, n)
    ensures VisitsRounds(sizes, cells + Row(sizes, n, |sizes|), n + 1)
  {
    var row := Row(sizes, n, |sizes|);
    RowCells(sizes, n, |sizes|);
    InOrderConcat(cells, row);
    forall c ensures c in cells + row <==> c.index < n + 1 && Exists(sizes, c) {
      assert c in cells + row <==> c in cells || c in row;
    }
  }

  ghost function Visiting(sizes: seq<nat>): nat -> bool {
    (n: nat) => VisitsRounds(sizes, Rounds(sizes, n), n)
  }

  lemma VisitingCarries(sizes: seq<nat>, k: nat)
    ensures Induction.Carries(Visiting(sizes), k)
  {
    if Visiting(sizes)(k) {
      NextRound(sizes, Rounds(sizes, k), k);
    }
  }

  lemma RoundsCells(sizes: seq<nat>, n: nat)
    ensures VisitsRounds(sizes, Rounds(sizes, n), n)
  {
    forall k: nat ensures Induction.Carries(Visiting(sizes), k) {
      VisitingCarries(sizes, k);
    }
    Induction.HoldsThroughout(Visiting(sizes), n);
  }

  lemma CellsAreAll(sizes: seq<nat>)
    ensures InOrder(Cells(sizes))
    ensures forall c :: c in Cells(sizes) <==> Exists(sizes, c)
  {
    RoundsCells(sizes, MaxSize(sizes));
    MaxSizeBounds(sizes, 0);
  }

  lemma {:induction false} EmptyRow(sizes: seq<nat>, index: nat, n: nat)
    requires n <= |sizes| && index >= MaxSize(sizes)
    ensures Row(sizes, index, n) == []
  {
    MaxSizeBounds(sizes, 0);
    if n > 0 {
      EmptyRow(sizes, index, n - 1);
    }
  }

  /** After the largest bucket is exhausted further rounds are empty. */
  lemma {:induction false} NoMoreRounds(sizes: seq<nat>, n: nat)
    requires n >= MaxSize(sizes)
    ensures Rounds(sizes, n) == Cells(sizes)
    decreases n
  {
    if n > MaxSize(sizes) {
      EmptyRow(sizes, n - 1, |sizes|);
      NoMoreRounds(sizes, n - 1);
    }
  }

  lemma {:induction false} RoundsGrow(sizes: seq<nat>, m: nat, n: nat)
    requires m <= n
    ensures Rounds(sizes, m) <= Rounds(sizes, n)
  {
    if m < n {
      RoundsGrow(sizes, m, n - 1);
    }
  }

  lemma {:induction false} RowGrows(sizes: seq<nat>, index: nat, m: nat, n: nat)
    requires m <= n <= |sizes|
    ensures Row(sizes, index, m) <= Row(sizes, index, n)
  {
    if m < n {
      RowGrows(sizes, index, m, n - 1);
    }
  }

  /** What has been visited so far is a prefix of everything. */
  lemma PartialIsPrefix(sizes: seq<nat>, index: nat, n: nat)
    requires n <= |sizes|
    ensures Rounds(sizes, index) + Row(sizes, index, n) <= Cells(sizes)
  {
    RowGrows(sizes, index, n, |sizes|);
    var m := if index + 1 > MaxSize(sizes) then index + 1 else MaxSize(sizes);
    RoundsGrow(sizes, index + 1, m);
    NoMoreRounds(sizes, m);
    assert Rounds(sizes, index + 1) == Rounds(sizes, index) + Row(sizes, index, |sizes|);
  }

  lemma FirstCell(sizes: seq<nat>)
    requires |sizes| > 0 && sizes[0] > 0
    ensures |Cells(sizes)| > 0 && Cells(sizes)[0] == Cell(0, 0)
  {
    var cells := Cells(sizes);
    CellsAreAll(sizes);
    assert Exists(sizes, Cell(0, 0));
    var i :| 0 <= i < |cells| && cells[i] == Cell(0, 0);
    assert i > 0 ==> Earlier(cells[0], cells[i]);
  }

  function Sum(sizes: seq<nat>): nat {
    if |sizes| == 0 then 0 else Sum(sizes[..|sizes| - 1]) + sizes[|sizes| - 1]
  }

  // ----- Shares -----

  /** The indices at which bucket `b` was visited, in order. */
  function Share(cells: seq<Cell>, b: nat): (share: seq<nat>)
    ensures |share| <= |cells|
  {
    if |cells| == 0 then [] else
      var front, last := Share(cells[..|cells| - 1], b), cells[|cells| - 1];
      if last.bucket == b then front + [last.index] else front
  }

  lemma {:induction false} ShareContains(cells: seq<Cell>, b: nat, k: nat)
    ensures k in Share(cells, b) <==> Cell(b, k) in cells
  {
    if |cells| > 0 {
      ShareContains(cells[..|cells| - 1], b, k);
      assert cells == cells[..|cells| - 1] + [cells[|cells| - 1]];
    }
  }

  lemma CountedIn(share: seq<nat>, k: nat)
    requires forall i :: 0 <= i < |share| ==> share[i] == i
    ensures k < |share| ==> k in share
  {
    if k < |share| {
      assert share[k] == k;
    }
  }

  /** The share of a bucket is a prefix of the bucket: 0, 1, 2, ... */
  ghost predicate IsPrefixShare(sizes: seq<nat>, share: seq<nat>, b: nat) {
    && (forall k :: 0 <= k < |share| ==> share[k] == k)
    && (b < |sizes| ==> |share| <= sizes[b])
  }

  /** The next cell of a bucket is the one after its share so far: nothing is skipped, nothing repeated. */
  lemma NextOfBucket(sizes: seq<nat>, n: nat, b: nat)
    requires n < |Cells(sizes)| && Cells(sizes)[n].bucket == b
    requires IsPrefixShare(sizes, Share(Cells(sizes)[..n], b), b)
    ensures Cells(sizes)[n].index == |Share(Cells(sizes)[..n], b)| && b < |sizes| && Cells(sizes)[n].index < sizes[b]
  {
    var cells := Cells(sizes);
    var front, share, next := cells[..n], Share(cells[..n], b), cells[n];
    CellsAreAll(sizes);
    assert next in cells;
    assert next !in front;
    ShareContains(front, b, next.index);
    CountedIn(share, next.index);
    if next.index > |share| {
      var missed := Cell(b, |share|);
      assert Exists(sizes, missed);
      var i :| 0 <= i < |cells| && cells[i] == missed;
      assert i >= n ==> Earlier(missed, next) && (i == n || Earlier(next, missed));
      assert front[i] == missed;
      ShareContains(front, b, |share|);
    }
  }

  /** However short the visit, the share of every bucket is a prefix of that bucket. */
  lemma {:induction false} ShareIsPrefix(sizes: seq<nat>, n: nat, b: nat)
    requires n <= |Cells(sizes)|
    ensures IsPrefixShare(sizes, Share(Cells(sizes)[..n], b), b)
  {
    if n > 0 {
      ShareIsPrefix(sizes, n - 1, b);
      assert Cells(sizes)[..n][..n - 1] == Cells(sizes)[..n - 1];
      if Cells(sizes)[n - 1].bucket == b {
        NextOfBucket(sizes, n - 1, b);
      }
    }
  }

  /** Fairness: no bucket is more than one element ahead of a bucket that still has elements. */
  lemma SharesAreFair(sizes: seq<nat>, n: nat, a: nat, b: nat)
    requires n <= |Cells(sizes)| && a < |sizes| && b < |sizes|
    ensures var cells := Cells(sizes)[..n];
            |Share(cells, a)| >= sizes[a] || |Share(cells, a)| >= |Share(cells, b)| - 1
  {
    var cells := Cells(sizes);
    var ours, theirs := Share(cells[..n], a), Share(cells[..n], b);
    ShareIsPrefix(sizes, n, a);
    ShareIsPrefix(sizes, n, b);
    CellsAreAll(sizes);
    if |ours| < sizes[a] && |ours| < |theirs| - 1 {
      assert theirs[|theirs| - 1] == |theirs| - 1;
      ShareContains(cells[..n], b, |theirs| - 1);
      var i :| 0 <= i < n && cells[..n][i] == Cell(b, |theirs| - 1);
      assert cells[i] == Cell(b, |theirs| - 1);
      assert Exists(sizes, Cell(a, |ours|));
      assert Cell(a, |ours|) in cells;
      var j :| 0 <= j < |cells| && cells[j] == Cell(a, |ours|);
      assert j < i;
      assert cells[..n][j] == Cell(a, |ours|);
      ShareContains(cells[..n], a, |ours|);
      assert false;
    }
  }

  // ----- Counting -----

  /** How many cells the shares of the first `n` buckets make up. */
  function ShareTotal(cells: seq<Cell>, n: nat): nat {
    if n == 0 then 0 else ShareTotal(cells, n - 1) + |Share(cells, n - 1)|
  }

  lemma {:induction false} ShareTotalSnoc(cells: seq<Cell>, c: Cell, n: nat)
    ensures ShareTotal(cells + [c], n) == ShareTotal(cells, n) + if c.bucket < n then 1 else 0
  {
    if n > 0 {
      ShareTotalSnoc(cells, c, n - 1);
      assert (cells + [c])[..|cells|] == cells;
    }
  }

  /** Every cell belongs to exactly one share. */
  lemma {:induction false} SharesCover(cells: seq<Cell>, n: nat)
    requires forall c :: c in cells ==> c.bucket < n
    ensures ShareTotal(cells, n) == |cells|
  {
    if |cells| == 0 {
      EmptyShares(n);
    } else {
      var front, last := cells[..|cells| - 1], cells[|cells| - 1];
      assert cells == front + [last];
      SharesCover(front, n);
      ShareTotalSnoc(front, last, n);
    }
  }

  lemma {:induction false} EmptyShares(n: nat)
    ensures ShareTotal([], n) == 0
  {
    if n > 0 {
      EmptyShares(n - 1);
    }
  }

  /** In the end a bucket has been visited as a whole. */
  lemma ShareIsWhole(sizes: seq<nat>, b: nat)
    requires b < |sizes|
    ensures |Share(Cells(sizes), b)| == sizes[b]
  {
    var cells := Cells(sizes);
    var share := Share(cells, b);
    assert cells[..|cells|] == cells;
    ShareIsPrefix(sizes, |cells|, b);
    CellsAreAll(sizes);
    if |share| < sizes[b] {
      assert Exists(sizes, Cell(b, |share|));
      ShareContains(cells, b, |share|);
      assert false;
    }
  }

  lemma {:induction false} ShareTotalIsSum(sizes: seq<nat>, n: nat)
    requires n <= |sizes|
    ensures ShareTotal(Cells(sizes), n) == Sum(sizes[..n])
  {
    if n > 0 {
      ShareTotalIsSum(sizes, n - 1);
      ShareIsWhole(sizes, n - 1);
      assert sizes[..n][..n - 1] == sizes[..n - 1];
    }
  }

  /** All elements of all buckets are visited. */
  lemma CellsCount(sizes: seq<nat>)
    ensures |Cells(sizes)| == Sum(sizes)
  {
    CellsAreAll(sizes);
    SharesCover(Cells(sizes), |sizes|);
    ShareTotalIsSum(sizes, |sizes|);
    assert sizes[..|sizes|] == sizes;
  }

  // ----- Elements -----

  function Sizes<T>(buckets: seq<seq<T>>): (sizes: seq<nat>)
    ensures |sizes| == |buckets|
    ensures forall b :: 0 <= b < |buckets| ==> sizes[b] == |buckets[b]|
  {
    seq(|buckets|, b requires 0 <= b < |buckets| => |buckets[b]|)
  }

  ghost predicate AllExist<T>(buckets: seq<seq<T>>, cells: seq<Cell>) {
    forall i :: 0 <= i < |cells| ==> cells[i].bucket < |buckets| && cells[i].index < |buckets[cells[i].bucket]|
  }

  function Pick<T>(buckets: seq<seq<T>>, cells: seq<Cell>): (r: seq<T>)
    requires AllExist(buckets, cells)
    ensures |r| == |cells|
  {
    seq(|cells|, i requires 0 <= i < |cells| => buckets[cells[i].bucket][cells[i].index])
  }

  lemma CellsExist<T>(buckets: seq<seq<T>>)
    ensures AllExist(buckets, Cells(Sizes(buckets)))
  {
    var cells := Cells(Sizes(buckets));
    CellsAreAll(Sizes(buckets));
    forall i | 0 <= i < |cells| ensures Exists(Sizes(buckets), cells[i]) {
      assert cells[i] in cells;
    }
  }

  /** All elements of the buckets, interleaved. */
  function Interleaved<T>(buckets: seq<seq<T>>): (r: seq<T>)
    ensures |r| == |Cells(Sizes(buckets))|
  {
    CellsExist(buckets);
    Pick(buckets, Cells(Sizes(buckets)))
  }

  lemma InterleavedCount<T>(buckets: seq<seq<T>>)
    ensures |Interleaved(buckets)| == Sum(Sizes(buckets))
  {
    CellsCount(Sizes(buckets));
  }

  ghost predicate InSomeBucket<T>(buckets: seq<seq<T>>, x: T) {
    exists b :: 0 <= b < |buckets| && x in buckets[b]
  }

  /** Exactly the elements of the buckets occur. */
  lemma InterleavedElements<T>(buckets: seq<seq<T>>)
    ensures forall x :: x in Interleaved(buckets) <==> InSomeBucket(buckets, x)
  {
    var cells, r := Cells(Sizes(buckets)), Interleaved(buckets);
    CellsAreAll(Sizes(buckets));
    CellsExist(buckets);
    forall x | x in r ensures InSomeBucket(buckets, x) {
      var i :| 0 <= i < |r| && r[i] == x;
      assert x in buckets[cells[i].bucket];
    }
    forall x | InSomeBucket(buckets, x) ensures x in r {
      var b: nat :| b < |buckets| && x in buckets[b];
      var k: nat :| k < |buckets[b]| && buckets[b][k] == x;
      assert Exists(Sizes(buckets), Cell(b, k));
      var i :| 0 <= i < |cells| && cells[i] == Cell(b, k);
      assert r[i] == x;
    }
  }
}
