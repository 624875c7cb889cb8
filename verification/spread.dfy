/** What diversification does to a list of items, in their scores and normalized source names alone: the one order in
    which items stand between neighbours of one source, as soon as possible and at a loss of five points at most. */
module Spread {
  import opened Contracts
  import opened Text
  import Diversify
  import opened Ranking

  function Name(item: FeedItem): string {
    NormalizedSource(item.sourceName)
  }

  /** The two items come from one known source. */
  predicate OneSource(a: FeedItem, b: FeedItem) {
    Name(a) != "" && Name(a) == Name(b)
  }

  /** `item` comes from another known source than `other` and scores at most five points less. */
  predicate MayPrecede(item: FeedItem, other: FeedItem) {
    Name(item) != "" && Name(item) != Name(other) && other.score - item.score <= 5.0
  }

  /** `order` lists each of the numbers below `n` once. */
  ghost predicate IsOrder(order: seq<nat>, n: nat) {
    && |order| == n
    && (forall i :: 0 <= i < n ==> order[i] < n)
    && (forall i, j :: 0 <= i < j < n ==> order[i] != order[j])
  }

  /** The item at position `i` has been placed ahead of one that preceded it. */
  ghost predicate Overtakes(order: seq<nat>, i: nat)
    requires i < |order|
  {
    exists j :: i < j < |order| && order[j] < order[i]
  }

  /** The item at position `i` stands between two of one source. The second one is the first of all that follow, and
      `i` is the first of them that may stand there. */
  ghost predicate Separates(items: seq<FeedItem>, order: seq<nat>, i: nat)
    requires IsOrder(order, |items|) && i < |items|
  {
    && 0 < i < |items| - 1
    && OneSource(items[order[i - 1]], items[order[i + 1]])
    && MayPrecede(items[order[i]], items[order[i + 1]])
    && (forall j :: i <= j < |items| ==> order[i + 1] <= order[j])
    && (forall j :: i < j < |items| && order[j] < order[i] ==> !MayPrecede(items[order[j]], items[order[i + 1]]))
  }

  /** If the items at `i - 1` and `i` come from one source, none that follows may stand between them. */
  ghost predicate Inseparable(items: seq<FeedItem>, order: seq<nat>, i: nat)
    requires IsOrder(order, |items|) && 0 < i < |items|
  {
    OneSource(items[order[i - 1]], items[order[i]]) ==>
      forall j :: i < j < |items| ==> !MayPrecede(items[order[j]], items[order[i]])
  }

  ghost predicate IsSpread(items: seq<FeedItem>, order: seq<nat>) {
    && IsOrder(order, |items|)
    && (forall i: nat :: i < |items| && Overtakes(order, i) ==> Separates(items, order, i))
    && (forall i: nat :: 0 < i < |items| ==> Inseparable(items, order, i))
  }

  // ----- There is only one such order -----

  lemma Range(n: nat) returns (all: set<nat>)
    ensures |all| == n && forall x: nat :: x in all <==> x < n
  {
    all := {};
    for k := 0 to n
      invariant |all| == k && forall x: nat :: x in all <==> x < k
    {
      all := all + {k};
    }
  }

  lemma {:induction false} ElementsOf(order: seq<nat>) returns (all: set<nat>)
    requires forall i, j :: 0 <= i < j < |order| ==> order[i] != order[j]
    ensures |all| == |order| && forall x: nat :: x in all <==> x in order
  {
    all := {};
    if |order| > 0 {
      var front, last := order[..|order| - 1], order[|order| - 1];
      all := ElementsOf(front);
      assert order == front + [last];
      all := all + {last};
    }
  }

  lemma SubsetOfSize(part: set<nat>, all: set<nat>)
    requires part <= all && |part| == |all|
    ensures part == all
  {
    assert all == part + (all - part);
  }

  lemma OrderListsAll(order: seq<nat>, n: nat, x: nat)
    requires IsOrder(order, n) && x < n
    ensures x in order
  {
    var part := ElementsOf(order);
    var all := Range(n);
    SubsetOfSize(part, all);
  }

  /** Two orders that agree before position `p` list the same numbers from there on. */
  lemma FoundLater(order: seq<nat>, other: seq<nat>, n: nat, p: nat, k: nat) returns (q: nat)
    requires IsOrder(order, n) && IsOrder(other, n) && p <= k < n && order[..p] == other[..p]
    ensures p <= q < n && other[q] == order[k]
  {
    OrderListsAll(other, n, order[k]);
    q :| q < n && other[q] == order[k];
    assert forall i :: 0 <= i < p ==> order[..p][i] == other[..p][i];
  }

  /** Unless an item overtakes, it is the first of all that follow. */
  lemma NextInLine(order: seq<nat>, n: nat, i: nat, j: nat)
    requires IsOrder(order, n) && i < n && !Overtakes(order, i) && i <= j < n
    ensures order[i] <= order[j]
  {
  }

  /** Two such orders that agree before position `p` and both let an item overtake there choose the same. */
  lemma SameChoice(items: seq<FeedItem>, a: seq<nat>, b: seq<nat>, p: nat)
    requires IsSpread(items, a) && IsSpread(items, b) && p < |items| && a[..p] == b[..p]
    requires Overtakes(a, p) && Overtakes(b, p)
    ensures a[p] >= b[p]
  {
    assert Separates(items, a, p) && Separates(items, b, p);
    var q := FoundLater(a, b, |items|, p, p);
    FirstAgrees(a, b, |items|, p);
    assert MayPrecede(items[b[q]], items[b[p + 1]]);
  }

  /** The first of all that follow is the same in both. */
  lemma FirstAgrees(a: seq<nat>, b: seq<nat>, n: nat, p: nat)
    requires IsOrder(a, n) && IsOrder(b, n) && p + 1 < n && a[..p] == b[..p]
    requires forall j :: p <= j < n ==> a[p + 1] <= a[j]
    requires forall j :: p <= j < n ==> b[p + 1] <= b[j]
    ensures a[p + 1] == b[p + 1]
  {
    var q := FoundLater(a, b, n, p, p + 1);
    var r := FoundLater(b, a, n, p, p + 1);
  }

  /** Where one order separates two items, the other may not let them follow each other. */
  lemma SeparableThere(items: seq<FeedItem>, a: seq<nat>, b: seq<nat>, p: nat)
    requires IsOrder(a, |items|) && IsOrder(b, |items|) && p < |items| && a[..p] == b[..p]
    requires Separates(items, a, p) && !Overtakes(b, p)
    ensures 0 < p && !Inseparable(items, b, p)
  {
    var q := FoundLater(a, b, |items|, p, p + 1);
    var r := FoundLater(b, a, |items|, p, p);
    NextInLine(b, |items|, p, q);
    assert b[p] == a[p + 1];
    var t := FoundLater(a, b, |items|, p, p);
    assert a[p - 1] == a[..p][p - 1] == b[..p][p - 1] == b[p - 1];
    assert p < t && MayPrecede(items[b[t]], items[b[p]]);
  }

  /** Where one order lets an item overtake, so does the other. */
  lemma BothOvertake(items: seq<FeedItem>, a: seq<nat>, b: seq<nat>, p: nat)
    requires IsSpread(items, a) && IsSpread(items, b) && p < |items| && a[..p] == b[..p]
    requires Overtakes(a, p)
    ensures Overtakes(b, p)
  {
    assert Separates(items, a, p);
    if !Overtakes(b, p) {
      SeparableThere(items, a, b, p);
    }
  }

  lemma NextAgrees(items: seq<FeedItem>, a: seq<nat>, b: seq<nat>, p: nat)
    requires IsSpread(items, a) && IsSpread(items, b) && p < |items| && a[..p] == b[..p]
    ensures a[p] == b[p]
  {
    if Overtakes(a, p) {
      BothOvertake(items, a, b, p);
      SameChoice(items, a, b, p);
      SameChoice(items, b, a, p);
    } else {
      if Overtakes(b, p) {
        BothOvertake(items, b, a, p);
      }
      var q := FoundLater(a, b, |items|, p, p);
      var r := FoundLater(b, a, |items|, p, p);
      NextInLine(a, |items|, p, r);
      NextInLine(b, |items|, p, q);
    }
  }

  lemma {:induction false} SpreadsAgree(items: seq<FeedItem>, a: seq<nat>, b: seq<nat>, p: nat)
    requires IsSpread(items, a) && IsSpread(items, b) && p <= |items|
    ensures a[..p] == b[..p]
  {
    if p > 0 {
      SpreadsAgree(items, a, b, p - 1);
      NextAgrees(items, a, b, p - 1);
    }
  }

  // ----- Diversification finds it -----

  /** The positions that the items of the diversified list had before. */
  function Ranks(items: seq<FeedItem>): (order: seq<nat>)
    ensures |order| == |items|
  {
    var plan := Plan(items);
    seq(|plan|, i requires 0 <= i < |plan| => plan[i].rank)
  }

  lemma RanksAreOrder(items: seq<FeedItem>)
    ensures IsOrder(Ranks(items), |items|)
    ensures forall i: nat :: i < |items| ==> (Plan(items)[i].promoted <==> Overtakes(Ranks(items), i))
  {
    var plan, order := Plan(items), Ranks(items);
    Diversify.IsPermutation(SlotsOf(items));
    forall i: nat | i < |items| ensures plan[i].promoted <==> Overtakes(order, i) {
      if plan[i].promoted {
        var j :| i < j < |plan| && plan[j].rank < plan[i].rank;
        assert order[j] < order[i];
      }
    }
  }

  /** The diversified list shows the items in that order, with a reason added to those that overtake. */
  lemma DiversifiedByRanks(items: seq<FeedItem>, i: nat)
    requires i < |items|
    ensures IsOrder(Ranks(items), |items|)
    ensures var order := Ranks(items);
            Diversified(items)[i] == if Overtakes(order, i) then WithReason(items[order[i]]) else items[order[i]]
  {
    RanksAreOrder(items);
  }

  /** The slots stand for the items in this order. */
  ghost predicate StandFor(slots: seq<Diversify.Slot>, items: seq<FeedItem>, order: seq<nat>) {
    && IsOrder(order, |items|) && |slots| == |items|
    && forall i :: 0 <= i < |slots| ==> StandsFor(slots[i], items, order[i])
  }

  ghost predicate StandsFor(slot: Diversify.Slot, items: seq<FeedItem>, rank: nat) {
    rank < |items| && slot.rank == rank && slot.source == Name(items[rank]) && slot.score == items[rank].score
  }

  lemma SeparatesItems(slots: seq<Diversify.Slot>, items: seq<FeedItem>, order: seq<nat>, i: nat)
    requires StandFor(slots, items, order) && Diversify.Separates(slots, i)
    ensures i < |items| && Separates(items, order, i)
  {
    assert StandsFor(slots[i - 1], items, order[i - 1]) && StandsFor(slots[i + 1], items, order[i + 1]);
    forall j: nat | i <= j < |items| ensures StandsFor(slots[j], items, order[j]) {
    }
  }

  lemma InseparableItems(slots: seq<Diversify.Slot>, items: seq<FeedItem>, order: seq<nat>, i: nat)
    requires StandFor(slots, items, order) && 0 < i < |slots| && Diversify.Settled(slots, i)
    ensures Inseparable(items, order, i)
  {
    assert StandsFor(slots[i - 1], items, order[i - 1]);
    forall j: nat | i <= j < |items| ensures StandsFor(slots[j], items, order[j]) {
    }
  }

  lemma PlanStandsFor(items: seq<FeedItem>)
    ensures StandFor(Plan(items), items, Ranks(items))
  {
    RanksAreOrder(items);
    forall i: nat | i < |items| ensures StandsFor(Plan(items)[i], items, Ranks(items)[i]) {
      PlanHolds(items, i);
    }
  }

  lemma RanksSeparate(items: seq<FeedItem>, i: nat)
    requires i < |items| && Overtakes(Ranks(items), i)
    ensures IsOrder(Ranks(items), |items|) && Separates(items, Ranks(items), i)
  {
    RanksAreOrder(items);
    PlanStandsFor(items);
    Diversify.PromotedSeparates(SlotsOf(items), i);
    SeparatesItems(Plan(items), items, Ranks(items), i);
  }

  lemma RanksAreInseparable(items: seq<FeedItem>, i: nat)
    requires 0 < i < |items|
    ensures IsOrder(Ranks(items), |items|) && Inseparable(items, Ranks(items), i)
  {
    PlanStandsFor(items);
    Diversify.FinalInvariant(SlotsOf(items));
    InseparableItems(Plan(items), items, Ranks(items), i);
  }

  lemma DiversifiedIsSpread(items: seq<FeedItem>)
    ensures IsSpread(items, Ranks(items))
  {
    RanksAreOrder(items);
    forall i: nat | i < |items| && Overtakes(Ranks(items), i) ensures Separates(items, Ranks(items), i) {
      RanksSeparate(items, i);
    }
    forall i: nat | 0 < i < |items| ensures Inseparable(items, Ranks(items), i) {
      RanksAreInseparable(items, i);
    }
  }

  /** Diversification puts every list into the one order that is spread. */
  lemma SpreadExactly(items: seq<FeedItem>, order: seq<nat>)
    ensures IsSpread(items, order) <==> order == Ranks(items)
  {
    DiversifiedIsSpread(items);
    if IsSpread(items, order) {
      SpreadsAgree(items, order, Ranks(items), |items|);
      assert order[..|items|] == order && Ranks(items)[..|items|] == Ranks(items);
    }
  }

  // ----- In scores and names -----

  /** Where neighbours come from one known source, everything further down is of no known source, of the same one, or
      more than five points behind. */
  lemma NeighboursOfOneSource(items: seq<FeedItem>, i: nat, j: nat)
    requires 0 < i < j < |items|
    ensures var out := Diversified(items);
            var name := NormalizedSource(out[i].sourceName);
            name != "" && NormalizedSource(out[i - 1].sourceName) == name ==>
              || NormalizedSource(out[j].sourceName) == ""
              || NormalizedSource(out[j].sourceName) == name
              || out[j].score + 5.0 < out[i].score
  {
    DiversifiedIsSpread(items);
    DiversifiedByRanks(items, i - 1);
    DiversifiedByRanks(items, i);
    DiversifiedByRanks(items, j);
    assert Inseparable(items, Ranks(items), i);
  }

  /** An item ahead of one that preceded it stands between two of one known source, not its own, and is at most five
      points behind the second. */
  lemma PromotedStandsBetween(items: seq<FeedItem>, i: nat)
    requires i < |items| && Overtakes(Ranks(items), i)
    ensures var out := Diversified(items);
            && 0 < i < |items| - 1
            && NormalizedSource(out[i - 1].sourceName) == NormalizedSource(out[i + 1].sourceName) != ""
            && NormalizedSource(out[i].sourceName) != ""
            && NormalizedSource(out[i].sourceName) != NormalizedSource(out[i + 1].sourceName)
            && out[i].score + 5.0 >= out[i + 1].score
  {
    RanksSeparate(items, i);
    DiversifiedByRanks(items, i - 1);
    DiversifiedByRanks(items, i);
    DiversifiedByRanks(items, i + 1);
  }
}
