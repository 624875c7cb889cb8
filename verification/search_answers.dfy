/** What a search does for its caller: which sources it asks, what it announces, which candidates are usable and in
    which order they are returned. */
module SearchAnswers {
  import opened Contracts
  import opened Text
  import opened Candidates
  import SourceBalance
  import SearchPipeline
  import SearchCounts
  import opened SearchUsecase
  import Relevance
  import Selections

  // ----- Sources -----

  /** Name number `i` is, without white space around it, a known and enabled source. */
  ghost function IsWanted(usecase: Usecase, names: seq<string>): nat -> bool {
    (i: nat) =>
      && i < |names| && TrimSpace(names[i]) != ""
      && TrimSpace(names[i]) in usecase.sourceOrder && usecase.enabled(TrimSpace(names[i]))
  }

  lemma {:induction false} WantedAt(usecase: Usecase, names: seq<string>, n: nat)
    requires n <= |names|
    ensures Selections.Picks(Trimmed(names), Selections.Below(n, IsWanted(usecase, names)), usecase.Wanted(names[..n]))
  {
    if n > 0 {
      WantedAt(usecase, names, n - 1);
      assert names[..n][..n - 1] == names[..n - 1];
    }
  }

  /** A query with sources asks those of them that are known and enabled, in its order and as often as it names them. */
  lemma NamedSourcesAreAsked(usecase: Usecase, query: SearchQuery) returns (at: seq<nat>)
    requires query.sources != []
    ensures Selections.Ascending(at)
    ensures forall i: nat :: i in at <==>
              && i < |query.sources| && TrimSpace(query.sources[i]) != ""
              && TrimSpace(query.sources[i]) in usecase.sourceOrder && usecase.enabled(TrimSpace(query.sources[i]))
    ensures Selections.Picks(Trimmed(query.sources), at, usecase.SelectedSources(query))
  {
    at := Selections.Below(|query.sources|, IsWanted(usecase, query.sources));
    Selections.BelowSelects(|query.sources|, IsWanted(usecase, query.sources));
    WantedAt(usecase, query.sources, |query.sources|);
    assert query.sources[..|query.sources|] == query.sources;
  }

  ghost function IsEnabled(usecase: Usecase, names: seq<string>): nat -> bool {
    (i: nat) => i < |names| && usecase.enabled(names[i])
  }

  lemma {:induction false} EnabledAt(usecase: Usecase, names: seq<string>, n: nat)
    requires n <= |names|
    ensures Selections.Picks(names, Selections.Below(n, IsEnabled(usecase, names)), usecase.Enabled(names[..n]))
  {
    if n > 0 {
      EnabledAt(usecase, names, n - 1);
      assert names[..n][..n - 1] == names[..n - 1];
    }
  }

  /** Any other query asks all enabled sources, in the order in which they were given. */
  lemma AllSourcesAreAsked(usecase: Usecase, query: SearchQuery) returns (at: seq<nat>)
    requires query.sources == []
    ensures Selections.Ascending(at)
    ensures forall i: nat :: i in at <==> i < |usecase.sourceOrder| && usecase.enabled(usecase.sourceOrder[i])
    ensures Selections.Picks(usecase.sourceOrder, at, usecase.SelectedSources(query))
  {
    var names := usecase.sourceOrder;
    at := Selections.Below(|names|, IsEnabled(usecase, names));
    Selections.BelowSelects(|names|, IsEnabled(usecase, names));
    EnabledAt(usecase, names, |names|);
    assert names[..|names|] == names;
  }

  // ----- Failures -----

  /** Source `k` has failed, and the attempt to announce it is not refused. */
  ghost function IsTold(answers: seq<Answer>, refuses: nat -> bool, first: nat): nat -> bool {
    (k: nat) => k < |answers| && answers[k].Error? && !refuses(first + FailedAmong(answers, k))
  }

  ghost predicate TellsOf(sources: seq<string>, query: SearchQuery, answers: seq<Answer>, at: seq<nat>,
                          messages: seq<Message>) {
    && |messages| == |at|
    && forall i :: 0 <= i < |at| ==>
         && at[i] < |answers| && at[i] < |sources| && answers[at[i]].Error?
         && messages[i] == FailedMessage(sources[at[i]] + ":" + query.text, sources[at[i]], query.text,
                                         answers[at[i]].message)
  }

  lemma TellsNext(sources: seq<string>, query: SearchQuery, answers: seq<Answer>, at: seq<nat>, messages: seq<Message>,
                  k: nat, told: bool)
    requires TellsOf(sources, query, answers, at, messages) && k < |answers| == |sources|
    requires told ==> answers[k].Error?
    ensures var more := if told then [FailureOf(sources[k], query, answers[k].message)] else [];
            TellsOf(sources, query, answers, at + if told then [k] else [], messages + more)
  {
  }

  lemma {:induction false} ToldAt(sources: seq<string>, query: SearchQuery, answers: seq<Answer>, refuses: nat -> bool,
                                  first: nat, n: nat)
    requires n <= |answers| == |sources|
    ensures TellsOf(sources, query, answers, Selections.Below(n, IsTold(answers, refuses, first)),
                    FailuresTold(sources, query, answers, refuses, first, n))
  {
    if n > 0 {
      var keeps, k := IsTold(answers, refuses, first), n - 1;
      var at, messages := Selections.Below(k, keeps), FailuresTold(sources, query, answers, refuses, first, k);
      ToldAt(sources, query, answers, refuses, first, k);
      TellsNext(sources, query, answers, at, messages, k, keeps(k));
      assert Selections.Below(n, keeps) == at + if keeps(k) then [k] else [];
    }
  }

  /** Every source that fails is announced under its name, with the text of the query and its error, in the order of
      the sources, unless the producer refuses: one attempt for each failure. */
  lemma FailuresAreTold(usecase: Usecase, query: SearchQuery, answers: seq<Answer>, first: nat) returns (at: seq<nat>)
    requires |answers| == |usecase.SelectedSources(query)|
    ensures Selections.Ascending(at)
    ensures forall k: nat :: k in at <==>
              k < |answers| && answers[k].Error? && !usecase.producer.refuses(first + FailedAmong(answers, k))
    ensures TellsOf(usecase.SelectedSources(query), query, answers, at, usecase.FailuresOf(query, answers, first))
  {
    var keeps := IsTold(answers, usecase.producer.refuses, first);
    at := Selections.Below(|answers|, keeps);
    Selections.BelowSelects(|answers|, keeps);
    ToldAt(usecase.SelectedSources(query), query, answers, usecase.producer.refuses, first, |answers|);
  }

  // ----- Candidates -----

  /** A candidate is usable if it has a URL and a title and was published within the dates of the query, or has no date
      at all. */
  lemma UsableExactly(found: Candidate, source: string, query: SearchQuery)
    ensures EntryOf(found, source, query).usable <==>
            && NormalizeURL(found.url) != "" && TrimSpace(found.title) != ""
            && (found.publishedAt != ZERO_TIME && query.fromDate.Some? ==>
                  found.publishedAt >= query.fromDate.value)
            && (found.publishedAt != ZERO_TIME && query.toDate.Some? ==> found.publishedAt <= query.toDate.value)
  {
  }

  /** What a candidate looks like when it is returned. A missing name, identifier or language is filled in. */
  lemma ReturnedForm(found: Candidate, source: string, query: SearchQuery)
    ensures var c := EntryOf(found, source, query).candidate;
            && c.url == NormalizeURL(found.url) && c.publishedAt == found.publishedAt
            && c.title == TrimSpace(found.title) && c.summary == TrimSpace(found.summary)
            && c.content == TrimSpace(found.content) && c.author == TrimSpace(found.author)
            && (IsBlank(found.sourceName) ==> c.sourceName == TrimSpace(source))
            && (!IsBlank(found.sourceName) ==> c.sourceName == TrimSpace(found.sourceName))
            && (IsBlank(found.externalID) ==> c.externalID == StableCandidateID(NormalizeURL(found.url)))
            && (!IsBlank(found.externalID) ==> c.externalID == TrimSpace(found.externalID))
            && (IsBlank(found.language) ==> c.language == query.language)
            && (!IsBlank(found.language) ==> c.language == TrimSpace(found.language))
  {
  }

  /** The tags are not empty, not among `seen` and different from each other, up to letter case. */
  ghost predicate DifferInCase(tags: seq<string>, seen: set<string>) {
    && (forall i :: 0 <= i < |tags| ==> tags[i] != "" && ToLower(tags[i]) !in seen)
    && (forall i, j :: 0 <= i < j < |tags| ==> ToLower(tags[i]) != ToLower(tags[j]))
  }

  ghost predicate HasUpToCase(tags: seq<string>, tag: string) {
    exists i :: 0 <= i < |tags| && ToLower(tags[i]) == ToLower(tag)
  }

  lemma TagAdded(tag: string, rest: seq<string>, seen: set<string>)
    requires tag != "" && ToLower(tag) !in seen && DifferInCase(rest, seen + {ToLower(tag)})
    ensures DifferInCase([tag] + rest, seen)
  {
    var r := [tag] + rest;
    forall i | 0 <= i < |r| ensures r[i] != "" && ToLower(r[i]) !in seen && (i > 0 ==> ToLower(r[i]) != ToLower(tag)) {
      if i > 0 {
        assert r[i] == rest[i - 1];
      }
    }
    forall i, j | 0 <= i < j < |r| ensures ToLower(r[i]) != ToLower(r[j]) {
      assert r[j] == rest[j - 1];
      if i > 0 {
        assert r[i] == rest[i - 1];
      }
    }
  }

  lemma CaseAdded(tag: string, rest: seq<string>, other: string)
    ensures HasUpToCase([tag] + rest, other) <==> ToLower(tag) == ToLower(other) || HasUpToCase(rest, other)
  {
    var r := [tag] + rest;
    assert r[0] == tag;
    if i :| 0 <= i < |rest| && ToLower(rest[i]) == ToLower(other) {
      assert r[i + 1] == rest[i];
    }
    if i :| 0 <= i < |r| && ToLower(r[i]) == ToLower(other) {
      assert i > 0 ==> rest[i - 1] == r[i];
    }
  }

  lemma {:induction false} CleanTagsAre(tags: seq<string>, seen: set<string>, tag: string)
    ensures DifferInCase(CleanTags(tags, seen), seen)
    ensures tag in CleanTags(tags, seen) ==> tag in Trimmed(tags)
    ensures tag in Trimmed(tags) && tag != "" && ToLower(tag) !in seen ==> HasUpToCase(CleanTags(tags, seen), tag)
  {
    if |tags| > 0 {
      var first := TrimSpace(tags[0]);
      assert Trimmed(tags) == [first] + Trimmed(tags[1..]);
      if first == "" || ToLower(first) in seen {
        CleanTagsAre(tags[1..], seen, tag);
      } else {
        var rest := CleanTags(tags[1..], seen + {ToLower(first)});
        CleanTagsAre(tags[1..], seen + {ToLower(first)}, tag);
        TagAdded(first, rest, seen);
        CaseAdded(first, rest, tag);
      }
    }
  }

  /** The returned tags are those found without white space around them, each once up to letter case. */
  lemma ReturnedTags(found: Candidate, source: string, query: SearchQuery, tag: string)
    ensures var tags := EntryOf(found, source, query).candidate.tags;
            && DifferInCase(tags, {})
            && (tag in tags ==> tag in Trimmed(found.tags))
            && (tag in Trimmed(found.tags) && tag != "" ==> HasUpToCase(tags, tag))
  {
    CleanTagsAre(found.tags, {}, tag);
  }

  /** Of two candidates returned from one bucket, the earlier one is the more relevant for the text of the query, or
      they are equally relevant and it was published no earlier. */
  lemma BestComesFirst(usecase: Usecase, query: SearchQuery, answers: seq<Answer>, b: nat, i: nat, j: nat)
    requires |answers| == |usecase.SelectedSources(query)|
    requires var buckets := SearchPipeline.Gathered(usecase.SurveyOf(query, answers), |answers|).buckets;
             var r := SearchPipeline.Delivered(buckets, query.limit);
             i < j < |r| && b < |buckets| && r[i] in buckets[b].entries && r[j] in buckets[b].entries
    ensures var buckets := SearchPipeline.Gathered(usecase.SurveyOf(query, answers), |answers|).buckets;
            var r := CandidatesOf(SearchPipeline.Delivered(buckets, query.limit));
            || RelevanceScore(r[i], query.text) > RelevanceScore(r[j], query.text)
            || (RelevanceScore(r[i], query.text) == RelevanceScore(r[j], query.text) &&
                r[i].publishedAt >= r[j].publishedAt)
  {
    var survey := usecase.SurveyOf(query, answers);
    var r := SearchPipeline.Delivered(SearchPipeline.Gathered(survey, |answers|).buckets, query.limit);
    SearchIsGenuine(usecase, query, answers);
    Relevance.ReturnedByRelevance(survey, query.limit, b, i, j);
    assert r[i] in r && r[j] in r;
  }

  // ----- Statistics -----

  ghost function IsNamed(candidates: seq<Candidate>, name: string): nat -> bool {
    (i: nat) => i < |candidates| && candidates[i].sourceName == name
  }

  /** How many of the candidates carry the name. */
  ghost function NumberNamed(candidates: seq<Candidate>, name: string): nat {
    |Selections.Below(|candidates|, IsNamed(candidates, name))|
  }

  lemma {:induction false} CountIsNumber(delivered: seq<Entry>, name: string, n: nat)
    requires n <= |delivered|
    ensures SearchCounts.CountBySource(delivered[..n], name) ==
            |Selections.Below(n, IsNamed(CandidatesOf(delivered), name))|
  {
    if n > 0 {
      CountIsNumber(delivered, name, n - 1);
      SourceBalance.BucketSnoc(delivered, n, SearchCounts.NameOf, name);
    }
  }

  lemma CountedAreNamed(delivered: seq<Entry>, name: string)
    ensures SearchCounts.CountBySource(delivered, name) == NumberNamed(CandidatesOf(delivered), name)
  {
    CountIsNumber(delivered, name, |delivered|);
    assert delivered[..|delivered|] == delivered;
  }

  /** The statistics have a line for every source asked. It counts as returned the candidates returned under the name of
      the source, and the same as published if the search has published everything, or else none. */
  lemma LinesOfStatistics(usecase: Usecase, query: SearchQuery, answers: seq<Answer>, clock: nat -> Time, first: nat,
                          result: SearchResult, error: Option<string>, published: seq<Message>, k: nat)
    requires |answers| == |usecase.SelectedSources(query)| && k < |answers|
    requires usecase.Reported(query, answers, clock, first, result, error, published)
    ensures |result.sourceStats| == |answers|
    ensures var line, name := result.sourceStats[k], usecase.SelectedSources(query)[k];
            && line.sourceName == name
            && line.returnedCount == NumberNamed(result.candidates, name)
            && line.publishedCount == if error.None? then line.returnedCount else 0
  {
    var survey := usecase.SurveyOf(query, answers);
    var all := SearchPipeline.Gathered(survey, |answers|);
    var delivered := SearchPipeline.Delivered(all.buckets, query.limit);
    SearchCounts.StatsNames(survey, |answers|);
    CountedAreNamed(delivered, usecase.SelectedSources(query)[k]);
  }
}
