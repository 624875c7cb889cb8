/** The in-memory article store and its search (`MemoryArticleStore`, `IngestUsecase`). */
module ArticleStore {
  import opened Contracts
  import opened Text
  import FirstSeen
  import Sorting
  import SourceBalance
  import MapOrder
  import Slices

  /** The identifier made from the SHA-1 sum of a URL. Which one is left open. */
  const StableArticleID: string -> string

  datatype SearchQuery = SearchQuery(
    text: string,
    sources: seq<string>,
    tags: seq<string>,
    fromDate: Option<Time>,
    toDate: Option<Time>,
    limit: int,
    offset: int)

  function Normalize(query: SearchQuery): (q: SearchQuery)
    ensures 1 <= q.limit <= 100 && q.offset >= 0
    ensures 1 <= query.limit <= 100 ==> q.limit == query.limit
    ensures query.limit <= 0 ==> q.limit == 20
    ensures query.limit > 100 ==> q.limit == 100
    ensures q.offset == if query.offset >= 0 then query.offset else 0
    ensures q.text == TrimSpace(query.text) && q.sources == query.sources && q.tags == query.tags
    ensures q.fromDate == query.fromDate && q.toDate == query.toDate
  {
    query.(text := TrimSpace(query.text),
           limit := if query.limit <= 0 then 20 else if query.limit > 100 then 100 else query.limit,
           offset := if query.offset < 0 then 0 else query.offset)
  }

  // ----- Matching -----

  const STOP_WORDS := {
    "и", "в", "во", "на", "по", "с", "со", "о", "об", "от", "до", "для", "из", "за", "к", "ко",
    "a", "an", "the", "of", "to", "in", "on", "for", "and"
  }

  function KeptTerms(fields: seq<string>): seq<string> {
    if |fields| == 0 then [] else
      var front, term := KeptTerms(fields[..|fields| - 1]), TrimSet(fields[|fields| - 1], "\"'.,:;!?()[]{}<>");
      if |term| < 2 || term in STOP_WORDS then front else front + [term]
  }

  function SearchTerms(text: string): seq<string> {
    KeptTerms(Fields(ToLower(text)))
  }

  function NormalizedTag(tag: string): string {
    var lower := ToLower(TrimSpace(tag));
    TrimSpace(if lower != "" && lower[|lower| - 1] == '*' then lower[..|lower| - 1] else lower)
  }

  function SearchedText(article: Article): string {
    ToLower(Join([article.title, article.summary, article.content, article.url, article.author,
                  Join(article.tags, " ")], " "))
  }

  /** The article is a result of the (normalized) query: of a wanted source and tag, in the date range and
      containing all search terms; a query without terms has no results. */
  predicate Matches(query: SearchQuery, article: Article) {
    var sources := set s | s in query.sources && NormalizedSource(s) != "" :: NormalizedSource(s);
    var tags := set t | t in query.tags && NormalizedTag(t) != "" :: NormalizedTag(t);
    var terms := SearchTerms(query.text);
    && (sources == {} || ToLower(article.sourceName) in sources)
    && (tags == {} || exists t :: t in article.tags && NormalizedTag(t) in tags)
    && (query.fromDate.Some? ==> article.publishedAt >= query.fromDate.value)
    && (query.toDate.Some? ==> article.publishedAt <= query.toDate.value)
    && |terms| > 0
    && forall term :: term in terms ==> Contains(SearchedText(article), term)
  }

  // ----- The store -----

  /** What the store holds: articles by URL and by identifier. */
  datatype Store = Store(byURL: map<string, Article>, byID: map<string, Article>)

  const EMPTY := Store(map[], map[])

  /** The first article of a URL is kept for good; a new one takes over its identifier. */
  function Saved(store: Store, article: Article): Store {
    if article.url in store.byURL then store
    else Store(store.byURL[article.url := article], store.byID[article.id := article])
  }

  /** Every entry is filed under its own URL or identifier, and the index by identifier is part of the index by URL. */
  ghost predicate Consistent(store: Store) {
    && (forall url :: url in store.byURL ==> store.byURL[url].url == url)
    && (forall id :: id in store.byID ==> FiledByURL(store, id))
  }

  ghost predicate FiledByURL(store: Store, id: string)
    requires id in store.byID
  {
    var article := store.byID[id];
    article.id == id && article.url in store.byURL && store.byURL[article.url] == article
  }

  lemma SavedIsConsistent(store: Store, article: Article)
    requires Consistent(store)
    ensures Consistent(Saved(store, article))
  {
    var next := Saved(store, article);
    forall id | id in next.byID ensures FiledByURL(next, id) {
      assert id in store.byID ==> FiledByURL(store, id);
    }
  }

  /** The matching articles in the order of the enumeration. */
  function Matching(query: SearchQuery, byID: map<string, Article>, ids: seq<string>): (r: seq<Article>)
    requires forall id :: id in ids ==> id in byID
    ensures |r| <= |ids|
  {
    if |ids| == 0 then [] else
      var front, last := Matching(query, byID, ids[..|ids| - 1]), byID[ids[|ids| - 1]];
      if Matches(query, last) then front + [last] else front
  }

  predicate Newer(a: Article, b: Article) {
    a.publishedAt > b.publishedAt
  }

  function SourceKey(article: Article): (name: string)
    ensures name != ""
  {
    SourceBalance.TurnName(article.sourceName)
  }

  function CleanSources(sources: seq<string>): seq<string> {
    FirstSeen.Distinct(seq(|sources|, i requires 0 <= i < |sources| => NormalizedSource(sources[i])))
  }

  /** All results of a query, of which a search returns a window. */
  function Results(query: SearchQuery, byID: map<string, Article>, ids: seq<string>): seq<Article>
    requires forall id :: id in ids ==> id in byID
  {
    SourceBalance.Balanced(Sorting.StableSort(Matching(query, byID, ids), Newer), SourceKey,
                           CleanSources(query.sources))
  }

  /** For some order of iteration over the index, `page` is the window that the query asks for. */
  ghost predicate IsPage(query: SearchQuery, byID: map<string, Article>, page: seq<Article>)
    requires query.offset >= 0 && query.limit >= 0
  {
    exists ids :: MapOrder.Enumerates(ids, byID) &&
                  page == Slices.Window(Results(query, byID, ids), query.offset, query.limit)
  }

  method CleanSourceOrder(sources: seq<string>) returns (order: seq<string>)
    ensures order == CleanSources(sources)
  {
    ghost var clean := seq(|sources|, i requires 0 <= i < |sources| => NormalizedSource(sources[i]));
    var seen: set<string> := {};
    order := [];
    for i := 0 to |sources|
      invariant order == FirstSeen.DistinctTo(clean, i)
      invariant forall x :: x in seen <==> x in order
    {
      var source := NormalizedSource(sources[i]);
      if source == "" || source in seen {
        continue;
      }
      seen := seen + {source};
      order := order + [source];
    }
  }

  lemma CleanSourcesAreClean(sources: seq<string>)
    ensures FirstSeen.NoRepeats(CleanSources(sources)) && "" !in CleanSources(sources)
  {
    FirstSeen.DistinctElements(seq(|sources|, i requires 0 <= i < |sources| => NormalizedSource(sources[i])));
  }

  class MemoryArticleStore {
    var byURL: map<string, Article>
    var byID: map<string, Article>

    function Contents(): Store
      reads this
    {
      Store(byURL, byID)
    }

    constructor ()
      ensures Contents() == EMPTY
    {
      byURL, byID := map[], map[];
    }

    method Save(article: Article) returns (saved: Article)
      modifies this
      ensures Contents() == Saved(old(Contents()), article)
      ensures article.url in byURL && saved == byURL[article.url]
      ensures article.url !in old(byURL) ==> saved == article
    {
      if article.url in byURL {
        return byURL[article.url];
      }
      byURL := byURL[article.url := article];
      byID := byID[article.id := article];
      return article;
    }

    method Search(rawQuery: SearchQuery) returns (articles: seq<Article>)
      ensures IsPage(Normalize(rawQuery), byID, articles)
    {
      var query := Normalize(rawQuery);
      ghost var ids;
      articles, ids := Scan(query);
      articles := Sorting.StableSort(articles, Newer);
      CleanSourcesAreClean(query.sources);
      var order := CleanSourceOrder(query.sources);
      articles := SourceBalance.InterleaveBySource(articles, SourceKey, order);
      assert articles == Results(query, byID, ids);
      if query.offset >= |articles| {
        return [];
      }
      articles := articles[query.offset..];
      if |articles| > query.limit {
        articles := articles[..query.limit];
      }
    }

    /** Iterates over the index in an arbitrary order. */
    method Scan(query: SearchQuery) returns (articles: seq<Article>, ghost ids: seq<string>)
      ensures MapOrder.Enumerates(ids, byID)
      ensures articles == Matching(query, byID, ids)
    {
      articles, ids := [], [];
      var todo := byID.Keys;
      while todo != {}
        invariant FirstSeen.NoRepeats(ids) && todo <= byID.Keys
        invariant forall id :: id in ids <==> id in byID && id !in todo
        invariant articles == Matching(query, byID, ids)
        decreases |todo|
      {
        var id :| id in todo;
        todo := todo - {id};
        assert (ids + [id])[..|ids|] == ids;
        ids := ids + [id];
        if Matches(query, byID[id]) {
          articles := articles + [byID[id]];
        }
      }
    }
  }

  // ----- What a search finds -----

  lemma {:induction false} MatchingElements(query: SearchQuery, store: Store, ids: seq<string>)
    requires Consistent(store) && FirstSeen.NoRepeats(ids) && forall id :: id in ids ==> id in store.byID
    ensures SourceBalance.Distinguished(Matching(query, store.byID, ids))
    ensures forall a :: a in Matching(query, store.byID, ids) <==>
              Matches(query, a) && a.id in ids && store.byID[a.id] == a
  {
    if |ids| > 0 {
      var front, last := ids[..|ids| - 1], ids[|ids| - 1];
      assert ids == front + [last];
      MatchingElements(query, store, front);
      assert FiledByURL(store, last);
    }
  }

  lemma NewerIsOrder()
    ensures Sorting.StrictWeak(Newer)
  {
  }

  /** The article is in the store and matches the query. */
  ghost predicate IsMatch(query: SearchQuery, store: Store, a: Article) {
    Matches(query, a) && a.id in store.byID && store.byID[a.id] == a
  }

  /** Every match is listed, each once, and nothing else. */
  ghost predicate ListsMatches(query: SearchQuery, store: Store, list: seq<Article>) {
    SourceBalance.Distinguished(list) && forall a :: a in list <==> IsMatch(query, store, a)
  }

  lemma MatchingIsMatches(query: SearchQuery, store: Store, ids: seq<string>)
    requires Consistent(store) && MapOrder.Enumerates(ids, store.byID)
    ensures ListsMatches(query, store, Matching(query, store.byID, ids))
  {
    MatchingElements(query, store, ids);
  }

  /** The results of a query are exactly the matching articles, each once. */
  lemma ResultsAreMatches(query: SearchQuery, store: Store, ids: seq<string>)
    requires Consistent(store) && MapOrder.Enumerates(ids, store.byID)
    ensures ListsMatches(query, store, Results(query, store.byID, ids))
    ensures |Results(query, store.byID, ids)| <= |store.byID|
  {
    var matching := Matching(query, store.byID, ids);
    var sorted := Sorting.StableSort(matching, Newer);
    MatchingIsMatches(query, store, ids);
    NewerIsOrder();
    Sorting.StableSortSorts(matching, Newer);
    Sorting.StableSortKeepsDistinct(matching, Newer);
    SourceBalance.BalancedIsPermutation(sorted, SourceKey, CleanSources(query.sources));
    MapOrder.EnumerationSize(ids, store.byID);
  }

  // ----- Ingestion -----

  function ArticleID(event: DiscoveredEvent): string {
    if event.sourceName != "" && event.externalID != "" then event.sourceName + ":" + event.externalID
    else StableArticleID(event.url)
  }

  function ArticleOf(event: DiscoveredEvent, now: Time): Article {
    Article(ArticleID(event), event.sourceName, event.externalID, event.url, event.title, event.summary, event.content,
            event.author, event.tags, event.language, event.publishedAt, now)
  }

  datatype CreatedEvent = CreatedEvent(
    articleID: string, sourceName: string, externalID: string, url: string, title: string, createdAt: Time,
    publishedAt: Time)

  function CreatedOf(article: Article): CreatedEvent {
    CreatedEvent(article.id, article.sourceName, article.externalID, article.url, article.title, article.parsedAt,
                 article.publishedAt)
  }

  /** Validates an event, stores its article unless the context is cancelled or its URL is known, and reports the
      stored article. */
  method IngestDiscovered(store: MemoryArticleStore, event: DiscoveredEvent, cancelled: bool, now: Time)
    returns (r: Result<CreatedEvent>)
    modifies store
    ensures r.Ok? <==> ValidateDiscovered(event).Ok? && !cancelled
    ensures r.Err? ==> store.Contents() == old(store.Contents())
    ensures ValidateDiscovered(event).Err? ==> r == Err(ValidateDiscovered(event).error)
    ensures r.Ok? ==>
              && store.Contents() == Saved(old(store.Contents()), ArticleOf(event, now))
              && event.url in store.byURL && r.value == CreatedOf(store.byURL[event.url])
  {
    var valid := ValidateDiscovered(event);
    if valid.Err? {
      return Err(valid.error);
    }
    if cancelled {
      return Err("context canceled");
    }
    var article := store.Save(ArticleOf(event, now));
    return Ok(CreatedOf(article));
  }
}
