/** From a candidate that a search returns to the article in the store: what the events carry, and what is stored. */
module Publication {
  import opened Contracts
  import Text
  import opened ArticleStore
  import ConsumerLoop
  import SearchUsecase

  /** An event is valid if it names its source, identifier, URL and title and the time of its discovery. */
  lemma ValidExactly(event: DiscoveredEvent)
    ensures ValidateDiscovered(event).Ok? <==>
            && Text.TrimSpace(event.sourceName) != "" && Text.TrimSpace(event.externalID) != ""
            && Text.TrimSpace(event.url) != "" && Text.TrimSpace(event.title) != "" && event.discoveredAt != ZERO_TIME
  {
  }

  /** A candidate that is published and ingested is stored with all its fields, under an identifier made from its source
      and its identifier there, or from its URL if one of them is missing. */
  lemma CandidateIsStored(c: Candidate, discoveredAt: Time, parsedAt: Time)
    ensures var event := SearchUsecase.EventOf(c, discoveredAt);
            var article := ArticleOf(event, parsedAt);
            && event.discoveredAt == discoveredAt && article.parsedAt == parsedAt
            && article.sourceName == c.sourceName && article.externalID == c.externalID && article.url == c.url
            && article.title == c.title && article.summary == c.summary && article.content == c.content
            && article.author == c.author && article.tags == c.tags && article.language == c.language
            && article.publishedAt == c.publishedAt
            && article.id == if c.sourceName == "" || c.externalID == "" then StableArticleID(c.url)
                             else c.sourceName + ":" + c.externalID
  {
  }

  /** What is said of the events of one candidate holds of every event: the article agrees with it in all its fields. */
  lemma EventIsStored(event: DiscoveredEvent, parsedAt: Time)
    ensures var a := ArticleOf(event, parsedAt);
            && event == DiscoveredEvent(a.sourceName, a.externalID, a.url, a.title, a.summary, a.content, a.author,
                                        a.tags, a.language, a.publishedAt, event.discoveredAt)
            && a.parsedAt == parsedAt
            && var created := CreatedOf(a);
               && created.articleID == a.id && created.sourceName == event.sourceName
               && created.externalID == event.externalID && created.url == event.url && created.title == event.title
               && created.createdAt == parsedAt && created.publishedAt == event.publishedAt
  {
  }

  /** Event `k` is the first one with its URL. */
  ghost predicate IsFirst(events: seq<DiscoveredEvent>, k: nat) {
    k < |events| && forall j :: 0 <= j < k ==> events[j].url != events[k].url
  }

  lemma FirstInFront(events: seq<DiscoveredEvent>, k: nat)
    requires |events| > 0
    ensures k < |events| - 1 ==> (IsFirst(events[..|events| - 1], k) <==> IsFirst(events, k))
  {
  }

  /** Event `k` is the first one with its URL, and the last such event with this identifier. */
  ghost predicate IsLastFirst(events: seq<DiscoveredEvent>, k: nat, id: string) {
    && IsFirst(events, k) && ArticleID(events[k]) == id
    && forall j: nat :: k < j && IsFirst(events, j) ==> ArticleID(events[j]) != id
  }

  /** The article is that of event `k`, the first one with this URL. */
  ghost predicate FiledFor(events: seq<DiscoveredEvent>, k: nat, url: string, article: Article) {
    IsFirst(events, k) && events[k].url == url && article == ArticleOf(events[k], ZERO_TIME)
  }

  /** After any events, the store holds for each URL the article of the first event with it. */
  lemma {:induction false} FirstOfURLIsKept(events: seq<DiscoveredEvent>, url: string)
    ensures var store := ConsumerLoop.CleanPass(events);
            && (url !in store.byURL ==> forall k :: 0 <= k < |events| ==> events[k].url != url)
            && (url in store.byURL ==> exists k: nat :: FiledFor(events, k, url, store.byURL[url]))
  {
    if |events| > 0 {
      var front, last := events[..|events| - 1], |events| - 1;
      FirstOfURLIsKept(front, url);
      var before := ConsumerLoop.CleanPass(front);
      if url in before.byURL {
        var k: nat :| FiledFor(front, k, url, before.byURL[url]);
        FirstInFront(events, k);
        assert FiledFor(events, k, url, before.byURL[url]);
      } else if events[last].url == url {
        assert forall j :: 0 <= j < last ==> events[j] == front[j];
        assert FiledFor(events, last, url, ArticleOf(events[last], ZERO_TIME));
      }
    }
  }

  lemma LastIsFirst(events: seq<DiscoveredEvent>)
    requires |events| > 0
    ensures IsFirst(events, |events| - 1) <==>
            events[|events| - 1].url !in ConsumerLoop.CleanPass(events[..|events| - 1]).byURL
  {
    var front, url := events[..|events| - 1], events[|events| - 1].url;
    var before := ConsumerLoop.CleanPass(front);
    FirstOfURLIsKept(front, url);
    assert forall j :: 0 <= j < |front| ==> front[j] == events[j];
    if url in before.byURL {
      var k: nat :| FiledFor(front, k, url, before.byURL[url]);
      assert events[k].url == url;
    }
  }

  /** The article is that of event `k`, the last one with this identifier that was the first one with its URL. */
  ghost predicate FiledUnder(events: seq<DiscoveredEvent>, k: nat, id: string, article: Article) {
    IsLastFirst(events, k, id) && article == ArticleOf(events[k], ZERO_TIME)
  }

  lemma FiledLater(events: seq<DiscoveredEvent>, k: nat, id: string, article: Article)
    requires |events| > 0 && FiledUnder(events[..|events| - 1], k, id, article)
    requires IsFirst(events, |events| - 1) ==> ArticleID(events[|events| - 1]) != id
    ensures FiledUnder(events, k, id, article)
  {
    var front := events[..|events| - 1];
    assert events[k] == front[k];
    forall j: nat | k <= j && IsFirst(events, j) ensures j < |front| ==> IsFirst(front, j) {
      FirstInFront(events, j);
    }
    FirstInFront(events, k);
  }

  /** And for each identifier the article of the last event with it that was the first one with its URL. */
  lemma {:induction false} LastOfIDIsKept(events: seq<DiscoveredEvent>, id: string)
    ensures var store := ConsumerLoop.CleanPass(events);
            && (id !in store.byID ==> forall k: nat :: IsFirst(events, k) ==> ArticleID(events[k]) != id)
            && (id in store.byID ==> exists k: nat :: FiledUnder(events, k, id, store.byID[id]))
  {
    if |events| > 0 {
      var front, last := events[..|events| - 1], |events| - 1;
      var before := ConsumerLoop.CleanPass(front);
      LastOfIDIsKept(front, id);
      LastIsFirst(events);
      if IsFirst(events, last) && ArticleID(events[last]) == id {
        assert FiledUnder(events, last, id, ArticleOf(events[last], ZERO_TIME));
      } else if id in before.byID {
        var k: nat :| FiledUnder(front, k, id, before.byID[id]);
        FiledLater(events, k, id, before.byID[id]);
      } else {
        forall k: nat | IsFirst(events, k) ensures ArticleID(events[k]) != id {
          FirstInFront(events, k);
          assert k < last ==> events[k] == front[k];
        }
      }
    }
  }
}
