/** The feed read model (`MemoryFeed`). */
module FeedStore {
  import opened Contracts
  import FirstSeen
  import opened Sorting
  import opened SourceBalance
  import MapOrder

  datatype ScoredEvent = ScoredEvent(
    articleID: string,
    sourceName: string,
    url: string,
    title: string,
    summary: string,
    tags: seq<string>,
    score: real,
    scoreReasons: seq<string>,
    publishedAt: Time)

  datatype ArticlePreview = ArticlePreview(
    id: string, sourceName: string, url: string, title: string, summary: string, tags: seq<string>, publishedAt: Time)

  function ItemOf(event: ScoredEvent): FeedItem {
    FeedItem(event.articleID, event.title, event.summary, event.sourceName, event.url, event.tags, event.score,
             event.scoreReasons, "", false, event.publishedAt)
  }

  const UNIX_EPOCH: Time := 62_135_596_800_000_000_000

  /** Seconds since 1970, or zero for the zero time. */
  function ScoreByFreshness(publishedAt: Time): real {
    if publishedAt == ZERO_TIME then 0.0 else ((publishedAt - UNIX_EPOCH) / 1_000_000_000) as real
  }

  function PreviewItem(article: ArticlePreview): FeedItem {
    FeedItem(article.id, article.title, article.summary, article.sourceName, article.url, article.tags,
             ScoreByFreshness(article.publishedAt), [], "", false, article.publishedAt)
  }

  function PreviewItems(articles: seq<ArticlePreview>): (r: seq<FeedItem>)
    ensures |r| == |articles|
  {
    seq(|articles|, i requires 0 <= i < |articles| => PreviewItem(articles[i]))
  }

  function SourceKey(item: FeedItem): (name: string)
    ensures name != ""
  {
    TurnName(item.sourceName)
  }

  /** By score, and among equal scores the more recently published first. */
  predicate Better(a: FeedItem, b: FeedItem) {
    if a.score == b.score then a.publishedAt > b.publishedAt else a.score > b.score
  }

  predicate NewerPreview(a: ArticlePreview, b: ArticlePreview) {
    a.publishedAt > b.publishedAt
  }

  function Limited(items: seq<FeedItem>, limit: int): (r: seq<FeedItem>)
    ensures r <= items
    ensures |r| == if limit <= 0 || limit > |items| then |items| else limit
  {
    if limit <= 0 || limit > |items| then items else items[..limit]
  }

  /** The latest accepted event for each article. */
  function Latest(history: seq<ScoredEvent>): map<string, FeedItem> {
    if |history| == 0 then map[] else
      var front, last := Latest(history[..|history| - 1]), history[|history| - 1];
      if last.articleID == "" then front else front[last.articleID := ItemOf(last)]
  }

  function ItemsAt(scored: map<string, FeedItem>, ids: seq<string>): (r: seq<FeedItem>)
    requires forall id :: id in ids ==> id in scored
    ensures |r| == |ids|
  {
    seq(|ids|, i requires 0 <= i < |ids| => scored[ids[i]])
  }

  function Listing(scored: map<string, FeedItem>, ids: seq<string>, limit: int): seq<FeedItem>
    requires forall id :: id in ids ==> id in scored
  {
    Limited(Balanced(StableSort(ItemsAt(scored, ids), Better), SourceKey, []), limit)
  }

  /** For some order of iteration over the map, `items` is the listing. */
  ghost predicate IsListing(scored: map<string, FeedItem>, limit: int, items: seq<FeedItem>) {
    exists ids :: MapOrder.Enumerates(ids, scored) && items == Listing(scored, ids, limit)
  }

  class MemoryFeed {
    var articles: seq<ArticlePreview>
    var scored: map<string, FeedItem>
    ghost var history: seq<ScoredEvent>

    ghost predicate Valid()
      reads this
    {
      scored == Latest(history)
    }

    constructor ()
      ensures Valid() && history == [] && articles == []
    {
      articles, scored, history := [], map[], [];
    }

    method AddArticle(article: ArticlePreview)
      requires Valid()
      modifies this`articles
      ensures Valid() && articles == old(articles) + [article]
    {
      articles := articles + [article];
    }

    method UpsertScoredItem(event: ScoredEvent) returns (r: Result<()>)
      requires Valid()
      modifies this`scored, this`history
      ensures Valid() && history == old(history) + [event]
      ensures r.Err? <==> event.articleID == ""
      ensures r.Err? ==> scored == old(scored)
      ensures r.Ok? ==> scored == old(scored)[event.articleID := ItemOf(event)]
    {
      history := history + [event];
      assert history[..|history| - 1] == old(history);
      if event.articleID == "" {
        return Err("article id is required");
      }
      scored := scored[event.articleID := ItemOf(event)];
      return Ok(());
    }

    method List(limit: int) returns (items: seq<FeedItem>)
      ensures scored != map[] ==> IsListing(scored, limit, items)
      ensures scored == map[] ==>
                items == Limited(Balanced(PreviewItems(StableSort(articles, NewerPreview)), SourceKey, []), limit)
    {
      if |scored| > 0 {
        items := ListScored(limit);
        return;
      }
      var sorted := StableSort(articles, NewerPreview);
      var previews := PreviewItems(sorted);
      BalancedIsPermutation(previews, SourceKey, []);
      items := InterleaveBySource(previews, SourceKey, []);
      items := Limited(items, if limit <= 0 || limit > |sorted| then |sorted| else limit);
    }

    method ListScored(limit: int) returns (items: seq<FeedItem>)
      ensures IsListing(scored, limit, items)
    {
      ghost var ids;
      items, ids := Scan();
      items := StableSort(items, Better);
      BalancedIsPermutation(items, SourceKey, []);
      var bound := if limit <= 0 || limit > |items| then |items| else limit;
      items := InterleaveBySource(items, SourceKey, []);
      items := Limited(items, bound);
    }

    /** Iterates over the map in an arbitrary order. */
    method Scan() returns (items: seq<FeedItem>, ghost ids: seq<string>)
      ensures MapOrder.Enumerates(ids, scored) && items == ItemsAt(scored, ids)
    {
      items, ids := [], [];
      var todo := scored.Keys;
      while todo != {}
        invariant FirstSeen.NoRepeats(ids) && todo <= scored.Keys
        invariant forall id :: id in ids <==> id in scored && id !in todo
        invariant items == ItemsAt(scored, ids)
        decreases |todo|
      {
        var id :| id in todo;
        todo := todo - {id};
        ids := ids + [id];
        items := items + [scored[id]];
      }
    }
  }

  // ----- What a listing contains -----

  lemma {:induction false} LatestByID(history: seq<ScoredEvent>, id: string)
    ensures id in Latest(history) ==> id != "" && Latest(history)[id].articleID == id
    ensures id in Latest(history) ==>
              exists k :: LatestEvent(history, k, id) && Latest(history)[id] == ItemOf(history[k])
    ensures id !in Latest(history) ==> id == "" || forall k :: 0 <= k < |history| ==> history[k].articleID != id
  {
    if |history| > 0 {
      var front, last := history[..|history| - 1], history[|history| - 1];
      LatestByID(front, id);
      if last.articleID == id && id != "" {
        assert LatestEvent(history, |history| - 1, id);
      } else if id in Latest(front) {
        var k :| LatestEvent(front, k, id) && Latest(front)[id] == ItemOf(front[k]);
        assert LatestEvent(history, k, id);
      }
    }
  }

  /** Event `k` is the last one for this article. */
  ghost predicate LatestEvent(history: seq<ScoredEvent>, k: int, id: string) {
    0 <= k < |history| && history[k].articleID == id && forall j :: k < j < |history| ==> history[j].articleID != id
  }

  lemma BetterIsOrder()
    ensures StrictWeak(Better)
  {
  }

  /** At least as good: the order in which the items are sorted. */
  predicate NotWorse(a: FeedItem, b: FeedItem) {
    !Better(b, a)
  }

  /** The sorted items are the scored ones, each once, best first. */
  lemma SortedItems(history: seq<ScoredEvent>, ids: seq<string>)
    requires MapOrder.Enumerates(ids, Latest(history))
    ensures var sorted := StableSort(ItemsAt(Latest(history), ids), Better);
            && |sorted| == |ids|
            && Distinguished(sorted) && Chained(sorted, NotWorse)
            && forall item :: item in sorted <==>
                 item.articleID in Latest(history) && Latest(history)[item.articleID] == item
  {
    var scored := Latest(history);
    var items := ItemsAt(scored, ids);
    forall id | id in scored ensures scored[id].articleID == id {
      LatestByID(history, id);
    }
    forall i, j | 0 <= i < j < |items| ensures items[i] != items[j] {
      assert ids[i] in ids && ids[j] in ids;
    }
    forall item ensures item in items <==> item.articleID in scored && scored[item.articleID] == item {
      if item.articleID in scored && scored[item.articleID] == item {
        var i :| 0 <= i < |ids| && ids[i] == item.articleID;
        assert items[i] == item;
      }
      if item in items {
        var i :| 0 <= i < |items| && items[i] == item;
        assert ids[i] in ids;
      }
    }
    BetterIsOrder();
    StableSortSorts(items, Better);
    StableSortKeepsDistinct(items, Better);
  }

  /** A listing has as many items as asked for and available, with distinct identifiers, each as last upserted. */
  lemma ListingItems(history: seq<ScoredEvent>, ids: seq<string>, limit: int)
    requires MapOrder.Enumerates(ids, Latest(history))
    ensures var r, n := Listing(Latest(history), ids, limit), |Latest(history)|;
            && |r| == (if limit <= 0 || limit > n then n else limit)
            && (forall i :: 0 <= i < |r| ==>
                  r[i].articleID in Latest(history) && Latest(history)[r[i].articleID] == r[i])
            && (forall i, j :: 0 <= i < j < |r| ==> r[i].articleID != r[j].articleID)
  {
    var scored := Latest(history);
    var sorted := StableSort(ItemsAt(scored, ids), Better);
    var all, r := Balanced(sorted, SourceKey, []), Listing(scored, ids, limit);
    SortedItems(history, ids);
    MapOrder.EnumerationSize(ids, scored);
    BalancedIsPermutation(sorted, SourceKey, []);
    forall i | 0 <= i < |r| ensures r[i].articleID in scored && scored[r[i].articleID] == r[i] {
      assert r[i] == all[i] && all[i] in all;
    }
  }

  /** The first item of a listing has the highest score of all. */
  lemma ListingStartsWithBest(history: seq<ScoredEvent>, ids: seq<string>, limit: int, id: string)
    requires MapOrder.Enumerates(ids, Latest(history)) && id in Latest(history)
    ensures var r := Listing(Latest(history), ids, limit); |r| > 0 && r[0].score >= Latest(history)[id].score
  {
    var scored := Latest(history);
    var sorted := StableSort(ItemsAt(scored, ids), Better);
    SortedItems(history, ids);
    LatestByID(history, id);
    assert scored[id] in sorted;
    BalancedStart(sorted, SourceKey);
    var i :| 0 <= i < |sorted| && sorted[i] == scored[id];
    assert i > 0 ==> NotWorse(sorted[0], sorted[i]);
  }

  /** No item that is left out scores higher than a listed item of its source. */
  lemma ListingTakesTheBest(history: seq<ScoredEvent>, ids: seq<string>, limit: int, x: FeedItem, id: string)
    requires MapOrder.Enumerates(ids, Latest(history)) && id in Latest(history)
    requires var r := Listing(Latest(history), ids, limit);
             x in r && Latest(history)[id] !in r && SourceKey(x) == SourceKey(Latest(history)[id])
    ensures x.score >= Latest(history)[id].score
  {
    var scored := Latest(history);
    var sorted := StableSort(ItemsAt(scored, ids), Better);
    var all, r := Balanced(sorted, SourceKey, []), Listing(scored, ids, limit);
    SortedItems(history, ids);
    LatestByID(history, id);
    assert r == all[..|r|];
    PrefixTakesTheBest(sorted, SourceKey, [], |r|, NotWorse, x, scored[id]);
  }

  /** No source is more than one item ahead of a source with items left. */
  lemma ListingIsFair(history: seq<ScoredEvent>, ids: seq<string>, limit: int, a: string, b: string)
    requires MapOrder.Enumerates(ids, Latest(history))
    ensures var r := Listing(Latest(history), ids, limit);
            || Count(r, SourceKey, a) == Count(StableSort(ItemsAt(Latest(history), ids), Better), SourceKey, a)
            || Count(r, SourceKey, a) >= Count(r, SourceKey, b) - 1
  {
    var sorted := StableSort(ItemsAt(Latest(history), ids), Better);
    var all, r := Balanced(sorted, SourceKey, []), Listing(Latest(history), ids, limit);
    assert r == all[..|r|];
    PrefixIsFair(sorted, SourceKey, [], |r|, a, b);
  }
}
