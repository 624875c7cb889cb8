/** What a search of the article store finds, in the fields of the query and of the articles. */
module SearchMatches {
  import opened Contracts
  import opened Text
  import MapOrder
  import FirstSeen
  import Sorting
  import SourceBalance
  import opened ArticleStore
  import RoundOrder

  // ----- Terms -----

  ghost predicate IsTerm(fields: seq<string>, term: string) {
    && |term| >= 2 && term !in STOP_WORDS
    && exists i :: 0 <= i < |fields| && TrimSet(fields[i], "\"'.,:;!?()[]{}<>") == term
  }

  lemma {:induction false} KeptTermsAre(fields: seq<string>, term: string)
    ensures term in KeptTerms(fields) <==> IsTerm(fields, term)
  {
    if |fields| > 0 {
      var front := fields[..|fields| - 1];
      KeptTermsAre(front, term);
      if IsTerm(front, term) {
        var i :| 0 <= i < |front| && TrimSet(front[i], "\"'.,:;!?()[]{}<>") == term;
        assert fields[i] == front[i];
      }
      if IsTerm(fields, term) {
        var i :| 0 <= i < |fields| && TrimSet(fields[i], "\"'.,:;!?()[]{}<>") == term;
        assert i < |front| ==> front[i] == fields[i];
      }
    }
  }

  /** The terms of a query are the words of its text in lower case, without punctuation around them, that have at least
      two characters and are no stop words. */
  lemma SearchTermsAre(text: string, term: string)
    ensures var words := Fields(ToLower(text));
            term in SearchTerms(text) <==>
            && |term| >= 2 && term !in STOP_WORDS
            && exists i :: 0 <= i < |words| && TrimSet(words[i], "\"'.,:;!?()[]{}<>") == term
  {
    KeptTermsAre(Fields(ToLower(text)), term);
  }

  /** A tag of a query with an asterisk at its end is the tag without it. */
  lemma StarIsIgnored(tag: string)
    requires tag != "" && TrimSpace(tag) == tag && LowerRune('*') == '*'
    requires ToLower(tag) == tag && tag[|tag| - 1] != '*'
    ensures NormalizedTag(tag) == tag && NormalizedTag(tag + "*") == tag
  {
    var from, to := TrimSpaceDrops(tag);
    TrimFixed(tag + "*");
    assert ToLower(tag + "*") == ToLower(tag) + "*";
  }

  /** Tags are compared in lower case and without white space around them. */
  lemma TagInLowerCase(tag: string)
    requires var lower := ToLower(TrimSpace(tag)); lower == "" || lower[|lower| - 1] != '*'
    ensures NormalizedTag(tag) == TrimSpace(ToLower(TrimSpace(tag)))
  {
  }

  // ----- Results -----

  lemma NamedSources(query: SearchQuery, article: Article)
    ensures var sources := set s | s in query.sources && NormalizedSource(s) != "" :: NormalizedSource(s);
            && (sources == {} <==> forall i :: 0 <= i < |query.sources| ==> IsBlank(query.sources[i]))
            && (ToLower(article.sourceName) in sources <==>
                exists i :: && 0 <= i < |query.sources| && !IsBlank(query.sources[i])
                            && ToLower(TrimSpace(query.sources[i])) == ToLower(article.sourceName))
  {
    var sources := set s | s in query.sources && NormalizedSource(s) != "" :: NormalizedSource(s);
    forall i | 0 <= i < |query.sources| && !IsBlank(query.sources[i])
      ensures NormalizedSource(query.sources[i]) in sources
    {
      assert query.sources[i] in query.sources;
    }
    if sources != {} {
      var name :| name in sources;
      var s :| s in query.sources && NormalizedSource(s) != "" && NormalizedSource(s) == name;
      var i :| 0 <= i < |query.sources| && query.sources[i] == s;
    }
  }

  lemma NoTags(query: SearchQuery)
    ensures var tags := set t | t in query.tags && NormalizedTag(t) != "" :: NormalizedTag(t);
            tags == {} <==> forall i :: 0 <= i < |query.tags| ==> NormalizedTag(query.tags[i]) == ""
  {
    var tags := set t | t in query.tags && NormalizedTag(t) != "" :: NormalizedTag(t);
    forall i | 0 <= i < |query.tags| && NormalizedTag(query.tags[i]) != ""
      ensures NormalizedTag(query.tags[i]) in tags
    {
      assert query.tags[i] in query.tags;
    }
    if tags != {} {
      var name :| name in tags;
      var s :| s in query.tags && NormalizedTag(s) != "" && NormalizedTag(s) == name;
      var i :| 0 <= i < |query.tags| && query.tags[i] == s;
    }
  }

  lemma TagSet(query: SearchQuery, name: string)
    ensures var tags := set t | t in query.tags && NormalizedTag(t) != "" :: NormalizedTag(t);
            name in tags <==> NamesTag(query, name)
  {
    var tags := set t | t in query.tags && NormalizedTag(t) != "" :: NormalizedTag(t);
    if name in tags {
      var s :| s in query.tags && NormalizedTag(s) != "" && NormalizedTag(s) == name;
      var i :| 0 <= i < |query.tags| && query.tags[i] == s;
    }
    if i :| 0 <= i < |query.tags| && NormalizedTag(query.tags[i]) != "" && NormalizedTag(query.tags[i]) == name {
      assert query.tags[i] in query.tags;
    }
  }

  /** The query names the tag. */
  ghost predicate NamesTag(query: SearchQuery, name: string) {
    exists i :: 0 <= i < |query.tags| && NormalizedTag(query.tags[i]) != "" && NormalizedTag(query.tags[i]) == name
  }

  /** The article comes from one of the sources that the query names, if it names any. */
  ghost predicate FromWantedSource(query: SearchQuery, article: Article) {
    || (forall i :: 0 <= i < |query.sources| ==> IsBlank(query.sources[i]))
    || exists i :: && 0 <= i < |query.sources| && !IsBlank(query.sources[i])
                   && ToLower(TrimSpace(query.sources[i])) == ToLower(article.sourceName)
  }

  /** The article has one of the tags that the query names, if it names any. */
  ghost predicate HasWantedTag(query: SearchQuery, article: Article) {
    || (forall i :: 0 <= i < |query.tags| ==> NormalizedTag(query.tags[i]) == "")
    || exists t :: t in article.tags && NamesTag(query, NormalizedTag(t))
  }

  lemma SourcesMatch(query: SearchQuery, article: Article)
    ensures var sources := set s | s in query.sources && NormalizedSource(s) != "" :: NormalizedSource(s);
            sources == {} || ToLower(article.sourceName) in sources <==> FromWantedSource(query, article)
  {
    NamedSources(query, article);
  }

  lemma TagsMatch(query: SearchQuery, article: Article)
    ensures var tags := set t | t in query.tags && NormalizedTag(t) != "" :: NormalizedTag(t);
            tags == {} || (exists t :: t in article.tags && NormalizedTag(t) in tags) <==> HasWantedTag(query, article)
  {
    NoTags(query);
    forall t | t in article.tags {
      TagSet(query, NormalizedTag(t));
    }
  }

  /** What it takes to match, in the fields of the query and of the article. */
  lemma MatchesExactly(query: SearchQuery, a: Article)
    ensures Matches(query, a) <==>
            && SearchTerms(query.text) != []
            && (forall term <- SearchTerms(query.text) ::
                  Contains(ToLower(Join([a.title, a.summary, a.content, a.url, a.author, Join(a.tags, " ")], " ")),
                           term))
            && (query.fromDate.Some? ==> a.publishedAt >= query.fromDate.value)
            && (query.toDate.Some? ==> a.publishedAt <= query.toDate.value)
            && FromWantedSource(query, a) && HasWantedTag(query, a)
  {
    SourcesMatch(query, a);
    TagsMatch(query, a);
  }

  /** A stored article is a result if and only if the query has terms, all of them occur in the text of the article, it
      was published within the dates, and it comes from a wanted source and has a wanted tag, where any are named. */
  lemma ResultsExactly(query: SearchQuery, store: Store, ids: seq<string>, a: Article)
    requires Consistent(store) && MapOrder.Enumerates(ids, store.byID)
    ensures a in Results(query, store.byID, ids) <==>
            && a.id in store.byID && store.byID[a.id] == a
            && SearchTerms(query.text) != []
            && (forall term <- SearchTerms(query.text) ::
                  Contains(ToLower(Join([a.title, a.summary, a.content, a.url, a.author, Join(a.tags, " ")], " ")),
                           term))
            && (query.fromDate.Some? ==> a.publishedAt >= query.fromDate.value)
            && (query.toDate.Some? ==> a.publishedAt <= query.toDate.value)
            && FromWantedSource(query, a) && HasWantedTag(query, a)
  {
    ResultsAreMatches(query, store, ids);
    MatchesExactly(query, a);
    assert a in Results(query, store.byID, ids) <==> IsMatch(query, store, a);
  }

  /** A query with further terms and narrower dates finds nothing that the wider one does not find. */
  lemma NarrowerFindsLess(query: SearchQuery, narrower: SearchQuery, store: Store, ids: seq<string>, a: Article)
    requires Consistent(store) && MapOrder.Enumerates(ids, store.byID)
    requires query.sources == narrower.sources && query.tags == narrower.tags && SearchTerms(query.text) != []
    requires forall term :: term in SearchTerms(query.text) ==> term in SearchTerms(narrower.text)
    requires query.fromDate.Some? ==> narrower.fromDate.Some? && query.fromDate.value <= narrower.fromDate.value
    requires query.toDate.Some? ==> narrower.toDate.Some? && narrower.toDate.value <= query.toDate.value
    ensures a in Results(narrower, store.byID, ids) ==> a in Results(query, store.byID, ids)
  {
    ResultsExactly(query, store, ids, a);
    ResultsExactly(narrower, store, ids, a);
  }

  // ----- The order of the results -----

  /** Not older: the order in which matching articles are sorted. */
  predicate NotOlder(a: Article, b: Article) {
    a.publishedAt >= b.publishedAt
  }

  function SortedMatches(query: SearchQuery, byID: map<string, Article>, ids: seq<string>): seq<Article>
    requires forall id :: id in ids ==> id in byID
  {
    Sorting.StableSort(Matching(query, byID, ids), Newer)
  }

  lemma SortedByDate(query: SearchQuery, byID: map<string, Article>, ids: seq<string>)
    requires forall id :: id in ids ==> id in byID
    ensures SourceBalance.Chained(SortedMatches(query, byID, ids), NotOlder)
  {
    NewerIsOrder();
    Sorting.StableSortSorts(Matching(query, byID, ids), Newer);
    var sorted := SortedMatches(query, byID, ids);
    forall i, j | 0 <= i < j < |sorted| ensures NotOlder(sorted[i], sorted[j]) {
      assert !Newer(sorted[j], sorted[i]);
    }
  }

  /** Of two results of one source, the earlier one was published no earlier. */
  lemma NewestOfSourceFirst(query: SearchQuery, store: Store, ids: seq<string>, i: nat, j: nat)
    requires forall id :: id in ids ==> id in store.byID
    requires i < j < |Results(query, store.byID, ids)|
    ensures var r := Results(query, store.byID, ids);
            SourceKey(r[i]) == SourceKey(r[j]) ==> r[i].publishedAt >= r[j].publishedAt
  {
    var sorted, r := SortedMatches(query, store.byID, ids), Results(query, store.byID, ids);
    SortedByDate(query, store.byID, ids);
    if SourceKey(r[i]) == SourceKey(r[j]) {
      RoundOrder.SourceInOrder(sorted, SourceKey, CleanSources(query.sources), NotOlder, i, j);
    }
  }

  /** The query names the source `s` before the source `t`, if it names `t` at all. */
  ghost predicate NamedFirst(query: SearchQuery, s: string, t: string) {
    RoundOrder.NamedBefore(CleanSources(query.sources), s, t)
  }

  /** The query does not name the source `t`, and some listed article of the source `s` is not older than any of `t`. */
  ghost predicate NewestFirst(query: SearchQuery, list: seq<Article>, s: string, t: string) {
    && t !in CleanSources(query.sources)
    && exists x :: && x in list && SourceKey(x) == s
                   && forall y :: y in list && SourceKey(y) == t ==> x.publishedAt >= y.publishedAt
  }

  lemma TurnsByDate(query: SearchQuery, sorted: seq<Article>, s: string, t: string)
    requires SourceBalance.Chained(sorted, NotOlder)
    requires RoundOrder.NamedBefore(CleanSources(query.sources) + SourceBalance.Keys(sorted, SourceKey), s, t)
    ensures NamedFirst(query, s, t) || NewestFirst(query, sorted, s, t)
  {
    var preferred := CleanSources(query.sources);
    var names := preferred + SourceBalance.Keys(sorted, SourceKey);
    var p :| 0 <= p < |names| && names[p] == s && forall q :: 0 <= q < |names| && names[q] == t ==> p < q;
    if p < |preferred| {
      assert preferred[p] == s;
      forall q | 0 <= q < |preferred| && preferred[q] == t ensures p < q {
        assert names[q] == t;
      }
    } else {
      var x := sorted[p - |preferred|];
      forall q | 0 <= q < |preferred| ensures preferred[q] != t {
        assert names[q] == preferred[q];
      }
      forall y | y in sorted && SourceKey(y) == t ensures x.publishedAt >= y.publishedAt {
        var k :| 0 <= k < |sorted| && sorted[k] == y;
        assert names[|preferred| + k] == t;
        assert NotOlder(x, sorted[k]);
      }
      assert x in sorted && SourceKey(x) == s;
    }
  }

  lemma SortedAreResults(query: SearchQuery, store: Store, ids: seq<string>, a: Article)
    requires Consistent(store) && MapOrder.Enumerates(ids, store.byID)
    ensures a in SortedMatches(query, store.byID, ids) <==> a in Results(query, store.byID, ids)
  {
    ResultsAreMatches(query, store, ids);
    MatchingIsMatches(query, store, ids);
    NewerIsOrder();
    Sorting.StableSortSorts(Matching(query, store.byID, ids), Newer);
    assert a in Results(query, store.byID, ids) <==> IsMatch(query, store, a);
    assert a in Matching(query, store.byID, ids) <==> IsMatch(query, store, a);
  }

  /** Results come in rounds, one of every source that has another one. Within a round, sources that the query names
      come first, in its order, and then the others by their newest result. */
  lemma ResultsInRounds(query: SearchQuery, store: Store, ids: seq<string>, i: nat, j: nat)
    requires Consistent(store) && MapOrder.Enumerates(ids, store.byID)
    requires i < j < |Results(query, store.byID, ids)|
    ensures var r := Results(query, store.byID, ids);
            var s, t := SourceKey(r[i]), SourceKey(r[j]);
            var a, b := SourceBalance.Count(r[..i], SourceKey, s), SourceBalance.Count(r[..j], SourceKey, t);
            a < b || (a == b && (NamedFirst(query, s, t) || NewestFirst(query, r, s, t)))
  {
    var sorted, r := SortedMatches(query, store.byID, ids), Results(query, store.byID, ids);
    var s, t := SourceKey(r[i]), SourceKey(r[j]);
    SortedByDate(query, store.byID, ids);
    RoundOrder.InRounds(sorted, SourceKey, CleanSources(query.sources), i, j);
    if RoundOrder.NamedBefore(CleanSources(query.sources) + SourceBalance.Keys(sorted, SourceKey), s, t) {
      TurnsByDate(query, sorted, s, t);
      forall a ensures a in sorted <==> a in r {
        SortedAreResults(query, store, ids, a);
      }
    }
  }

  /** The sources of a query: those it names, trimmed and in lower case, each once. */
  lemma CleanSourcesNamed(sources: seq<string>, name: string)
    ensures name in CleanSources(sources) <==>
            name != "" && exists i :: 0 <= i < |sources| && ToLower(TrimSpace(sources[i])) == name
    ensures FirstSeen.NoRepeats(CleanSources(sources))
  {
    var names := seq(|sources|, i requires 0 <= i < |sources| => NormalizedSource(sources[i]));
    FirstSeen.DistinctElements(names);
    assert forall i :: 0 <= i < |names| ==> names[i] == ToLower(TrimSpace(sources[i]));
  }

  /** Two articles take the same turn if and only if their source names are the same up to letter case and white space
      around them, a blank name being the same as "_unknown". */
  lemma SameTurn(a: Article, b: Article)
    ensures var s, t := ToLower(TrimSpace(a.sourceName)), ToLower(TrimSpace(b.sourceName));
            SourceKey(a) == SourceKey(b) <==> s == t || (s in {"", "_unknown"} && t in {"", "_unknown"})
  {
  }
}
