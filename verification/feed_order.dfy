/** What the feed lists and in which order, in the fields of items, events and previews. */
module FeedOrder {
  import opened Contracts
  import MapOrder
  import Sorting
  import SourceBalance
  import RoundOrder
  import opened FeedStore

  // ----- Scored items -----

  /** The item that the store holds for an article carries the fields of its last event, and no reaction. */
  lemma HeldItem(history: seq<ScoredEvent>, id: string) returns (k: nat)
    requires id in Latest(history)
    ensures k < |history| && history[k].articleID == id
    ensures forall j :: k < j < |history| ==> history[j].articleID != id
    ensures var item, event := Latest(history)[id], history[k];
            && item.articleID == event.articleID && item.title == event.title && item.summary == event.summary
            && item.sourceName == event.sourceName && item.url == event.url && item.tags == event.tags
            && item.score == event.score && item.scoreReasons == event.scoreReasons
            && item.publishedAt == event.publishedAt && item.reaction == "" && !item.saved
  {
    LatestByID(history, id);
    k :| LatestEvent(history, k, id) && Latest(history)[id] == ItemOf(history[k]);
  }

  function SortedItemsOf(history: seq<ScoredEvent>, ids: seq<string>): seq<FeedItem>
    requires forall id :: id in ids ==> id in Latest(history)
  {
    Sorting.StableSort(ItemsAt(Latest(history), ids), Better)
  }

  lemma ListingIsPrefix(history: seq<ScoredEvent>, ids: seq<string>, limit: int)
    requires MapOrder.Enumerates(ids, Latest(history))
    ensures Listing(Latest(history), ids, limit) <=
            SourceBalance.Balanced(SortedItemsOf(history, ids), SourceKey, [])
  {
  }

  /** Of two listed items of one source, the earlier one has the higher score, or the same score and no earlier date. */
  lemma BestOfSourceFirst(history: seq<ScoredEvent>, ids: seq<string>, limit: int, i: nat, j: nat)
    requires MapOrder.Enumerates(ids, Latest(history))
    requires i < j < |Listing(Latest(history), ids, limit)|
    ensures var r := Listing(Latest(history), ids, limit);
            SourceKey(r[i]) == SourceKey(r[j]) ==>
              r[i].score > r[j].score || (r[i].score == r[j].score && r[i].publishedAt >= r[j].publishedAt)
  {
    var r, sorted := Listing(Latest(history), ids, limit), SortedItemsOf(history, ids);
    SortedItems(history, ids);
    ListingIsPrefix(history, ids, limit);
    if SourceKey(r[i]) == SourceKey(r[j]) {
      RoundOrder.SourceInOrder(sorted, SourceKey, [], NotWorse, i, j);
    }
  }

  /** The best item of the source `s` in the list is at least as good as any of the source `t`. */
  ghost predicate BestIsNoWorse(list: seq<FeedItem>, s: string, t: string) {
    exists x :: && x in list && SourceKey(x) == s
                && forall y :: y in list && SourceKey(y) == t ==>
                     x.score > y.score || (x.score == y.score && x.publishedAt >= y.publishedAt)
  }

  lemma TurnsByScore(sorted: seq<FeedItem>, s: string, t: string)
    requires SourceBalance.Chained(sorted, NotWorse)
    requires RoundOrder.NamedBefore(SourceBalance.Keys(sorted, SourceKey), s, t)
    ensures BestIsNoWorse(sorted, s, t)
  {
    var names := SourceBalance.Keys(sorted, SourceKey);
    var p :| 0 <= p < |names| && names[p] == s && forall q :: 0 <= q < |names| && names[q] == t ==> p < q;
    var x := sorted[p];
    forall y | y in sorted && SourceKey(y) == t
      ensures x.score > y.score || (x.score == y.score && x.publishedAt >= y.publishedAt)
    {
      var q :| 0 <= q < |sorted| && sorted[q] == y;
      assert names[q] == t;
      assert NotWorse(sorted[p], sorted[q]);
    }
    assert x in sorted && SourceKey(x) == s;
  }

  /** Items are listed in rounds, one of every source that has another one, and in each round the sources come by their
      best item. */
  lemma ListingInRounds(history: seq<ScoredEvent>, ids: seq<string>, limit: int, i: nat, j: nat)
    requires MapOrder.Enumerates(ids, Latest(history))
    requires i < j < |Listing(Latest(history), ids, limit)|
    ensures var r := Listing(Latest(history), ids, limit);
            var s, t := SourceKey(r[i]), SourceKey(r[j]);
            var a, b := SourceBalance.Count(r[..i], SourceKey, s), SourceBalance.Count(r[..j], SourceKey, t);
            a < b || (a == b && BestIsNoWorse(SortedItemsOf(history, ids), s, t))
  {
    var r, sorted := Listing(Latest(history), ids, limit), SortedItemsOf(history, ids);
    var all := SourceBalance.Balanced(sorted, SourceKey, []);
    var s, t := SourceKey(r[i]), SourceKey(r[j]);
    SortedItems(history, ids);
    ListingIsPrefix(history, ids, limit);
    assert r[..i] == all[..i] && r[..j] == all[..j];
    RoundOrder.InRounds(sorted, SourceKey, [], i, j);
    var keys := SourceBalance.Keys(sorted, SourceKey);
    assert [] + keys == keys;
    if RoundOrder.NamedBefore(keys, s, t) {
      TurnsByScore(sorted, s, t);
    }
  }

  // ----- Previews -----

  /** What is listed as long as nothing has been scored. */
  function PreviewListing(articles: seq<ArticlePreview>, limit: int): seq<FeedItem> {
    Limited(SourceBalance.Balanced(PreviewItems(Sorting.StableSort(articles, NewerPreview)), SourceKey, []), limit)
  }

  predicate NoEarlier(a: FeedItem, b: FeedItem) {
    a.publishedAt >= b.publishedAt
  }

  lemma PreviewsSorted(articles: seq<ArticlePreview>)
    ensures SourceBalance.Chained(PreviewItems(Sorting.StableSort(articles, NewerPreview)), NoEarlier)
    ensures forall a :: a in Sorting.StableSort(articles, NewerPreview) <==> a in articles
  {
    var sorted := Sorting.StableSort(articles, NewerPreview);
    assert Sorting.StrictWeak(NewerPreview);
    Sorting.StableSortSorts(articles, NewerPreview);
    var items := PreviewItems(sorted);
    forall i, j | 0 <= i < j < |items| ensures NoEarlier(items[i], items[j]) {
      assert !NewerPreview(sorted[j], sorted[i]);
    }
  }

  /** Of two previews of one source, the earlier one was published no earlier. */
  lemma NewestPreviewFirst(articles: seq<ArticlePreview>, limit: int, i: nat, j: nat)
    requires i < j < |PreviewListing(articles, limit)|
    ensures var r := PreviewListing(articles, limit);
            SourceKey(r[i]) == SourceKey(r[j]) ==> r[i].publishedAt >= r[j].publishedAt
  {
    var r, items := PreviewListing(articles, limit), PreviewItems(Sorting.StableSort(articles, NewerPreview));
    PreviewsSorted(articles);
    if SourceKey(r[i]) == SourceKey(r[j]) {
      RoundOrder.SourceInOrder(items, SourceKey, [], NoEarlier, i, j);
    }
  }

  /** The score is the number of whole seconds from the beginning of 1970 to this time, or zero for the zero time. */
  ghost predicate CountsSeconds(at: Time, score: real) {
    if at == ZERO_TIME then score == 0.0 else
      exists seconds: int :: && score == seconds as real
                             && 0 <= at - 62_135_596_800_000_000_000 - 1_000_000_000 * seconds < 1_000_000_000
  }

  lemma SecondsCounted(at: Time)
    ensures CountsSeconds(at, ScoreByFreshness(at))
  {
    if at != ZERO_TIME {
      var seconds := (at - UNIX_EPOCH) / 1_000_000_000;
      assert 0 <= at - 62_135_596_800_000_000_000 - 1_000_000_000 * seconds < 1_000_000_000;
    }
  }

  /** Every preview listed carries the fields of an article, and scores the whole seconds from 1970 to its date, or
      nothing without one. */
  lemma PreviewFields(articles: seq<ArticlePreview>, limit: int, i: nat) returns (a: ArticlePreview)
    requires i < |PreviewListing(articles, limit)|
    ensures a in articles
    ensures var item := PreviewListing(articles, limit)[i];
            && item.articleID == a.id && item.title == a.title && item.summary == a.summary
            && item.sourceName == a.sourceName && item.url == a.url && item.tags == a.tags
            && item.publishedAt == a.publishedAt && item.scoreReasons == [] && item.reaction == "" && !item.saved
            && CountsSeconds(a.publishedAt, item.score)
  {
    var sorted := Sorting.StableSort(articles, NewerPreview);
    var items := PreviewItems(sorted);
    var r := PreviewListing(articles, limit);
    PreviewsSorted(articles);
    SourceBalance.BalancedIsPermutation(items, SourceKey, []);
    assert r[i] in SourceBalance.Balanced(items, SourceKey, []);
    var k :| 0 <= k < |items| && items[k] == r[i];
    a := sorted[k];
    SecondsCounted(a.publishedAt);
  }

  /** Without a limit every article is listed, and with one as many as wanted. */
  lemma PreviewCount(articles: seq<ArticlePreview>, limit: int)
    ensures |PreviewListing(articles, limit)| == if 0 < limit < |articles| then limit else |articles|
  {
    var items := PreviewItems(Sorting.StableSort(articles, NewerPreview));
    SourceBalance.BalancedIsPermutation(items, SourceKey, []);
    assert Sorting.StrictWeak(NewerPreview);
    Sorting.StableSortSorts(articles, NewerPreview);
  }
}
