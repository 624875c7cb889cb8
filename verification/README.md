# articleflow: ranking, collection and delivery

A Dafny 4.11 model of the algorithms with which articleflow collects articles, ranks them and delivers them to a
reader, and proofs of what they guarantee. `dafny verify dfyconfig.toml` checks the whole project.

- **Ranking** (`rank.dfy`, `scoring.dfy`, `diversify.dfy`, `spread.dfy`, `reasons.dfy`, `signals.dfy`): scoring, the
  stable sort, the in-place pass that breaks up runs of one source, and the store of reaction signals. The pass works on
  an array; the function `DiversifyFrom` describes it on slots that remember where an item came from, so that all
  guarantees can be stated: how far an item can fall, how large an inversion can be, that each source keeps its order,
  that nothing is left to do, and which of all orders it is.
- **Search and publish** (`search_usecase.dfy`, `search_pipeline.dfy`, `relevance.dfy`, `search_answers.dfy`,
  `search_counts.dfy`, `accepted_counts.dfy`, `candidates.dfy`, `titles.dfy`, `round_robin.dfy`): the loops over sources
  and candidates with their shared map of seen keys, the fallback to candidates without relevance, round-robin
  interleaving, statistics, and publishing through a producer that may refuse any message.
- **Fetching** (`worker_pool.dfy`, `discovery.dfy`, `initial_state.dfy`): the pool of goroutines as a transition system
  under every schedule, paging against an arbitrary server, and the scanner that finds the end of a JSON object,
  proved against a syntax tree of RFC 8259 with free layout, escapes and string contents.
- **Stores and protocols** (`article_store.dfy`, `search_matches.dfy`, `search_order.dfy`, `balance_order.dfy`,
  `round_order.dfy`, `term_matching.dfy`, `source_balance.dfy`, `publication.dfy`, `feed_cursor.dfy`,
  `consumer_loop.dfy`, `feed_store.dfy`, `feed_order.dfy`, `personalization.dfy`, `rate_limit.dfy`,
  `rate_limit_traces.dfy`): the article store and its search, what the order of the results depends on, cursor paging by
  a search for each page, the consume-handle-commit loop under crashes and redelivery, the feed read model, reactions
  and the fixed-window rate limiter.
- `sorting.dfy`, `first_seen.dfy`, `map_order.dfy`, `selections.dfy`, `slices.dfy`, `induction.dfy`, `text.dfy`,
  `text_laws.dfy` and `contracts.dfy` hold what the services share: stable sorting as `sort.SliceStable` promises it,
  keeping first occurrences, iteration over maps, filters, the string library and its laws, and the value types.

The loops are proved against functions. What these compute is stated once more without them, in the fields of the
inputs and of the results: `Spread.SpreadExactly`, `Scoring.BaseScoreIs`, `Signals.ScoreIsTotals`,
`Relevance.KeptExactly`, `SearchMatches.ResultsExactly`, `WorkerPool.SelectsRecent`, `Discovery.SearchStopsExactly`,
`FeedOrder.BestOfSourceFirst`, `Personalization.ShownReaction` and the lemmas beside them.

Conventions: instants are integers (nanoseconds) with a distinguished zero, differences of instants saturate at 64
bits as in Go, scores are `real`, iteration over a map follows an arbitrary enumeration of its keys, and clocks,
parsers, servers, producers and schedules are parameters. Unicode case mapping and letter classes, URL cleaning and
canonicalization, and SHA-1 identifiers are functions about which nothing is assumed.

Six things the code does that its callers may not expect. Each has a lemma at an input where it happens, and lemmas
that say exactly when it does, or what holds all the same:

- Every page of the feed is a search of its own, and a search iterates over a map. Articles published at the same time
  may be listed differently each time, so that one is shown twice and another never
  (`FeedCursor.TiedArticleShownTwice`). It takes no more than two articles of one source and time that contain the text
  of the query (`FeedCursor.AlikeArticleShownTwice`). All walks show every match once if and only if no two matching
  articles of one source were published at the same time, nor the newest ones of two sources that the query does not
  name (`FeedCursor.WalkTilesExactly`). Articles without a date all have the same time.
- A page from which articles were hidden has fewer items than the limit, so no next cursor is given and the feed ends
  there, although `docs/roadmap.md` describes cursors for scrolling through the whole feed
  (`FeedCursor.HiddenArticleHidesTheNext`). `FeedCursor.HiddenArticleEndsWalk` says when something visible is missed,
  while all pages agree on the order.
- An event that fails validation is never committed, so the loop stops at it on every restart
  (`ConsumerLoop.UntitledEventIsNeverCommitted`). The whole log can be committed if and only if every event is valid
  (`ConsumerLoop.LogCanBeCommitted`).
- A query may name a source twice, a parser may give its candidates any source name, and the statistics count by name,
  so that the returned counts need not add up to the number of candidates (`SearchUsecase.RepeatedSourceReturnsTwice`,
  `SearchUsecase.ForeignNameReturnsNothing`). They do for every limit if and only if every kept candidate is named
  after a source that was asked exactly once (`SearchCounts.ReturnedCountsAddUpExactly`), which can be seen from the
  answers (`SearchUsecase.ReturnedCountsOfSearch`). A source can also return more than it had accepted. One that is
  asked once does so, for some limit, if and only if the candidates kept that others have found under its name are more
  than those it has found under other names (`AcceptedCounts.AskedOnceReturnsAtMostAccepted`).
- The key by which a candidate is recognized again by its identifier is its source name, a colon and the identifier, so
  that candidates of different sources can count as duplicates (`Candidates.IdentifiersMayCollide`). As long as no source
  name contains a colon they cannot (`Candidates.SameIdentifierExactly`).
- The rate limiter reads the clock before it takes the lock, so requests may be processed in another order than they
  read the clock. Then a client that keeps to the limit can be rejected, and more than twice the limit can pass. If
  readings are processed at most `late` behind, the most that passes in a window length is known exactly
  (`RateLimitTraces.MostIsExact`). It is at most twice the limit if and only if the limit is one, or `late` at most one
  unit, or the limit is two and `late` at most a window length and one unit (`RateLimitTraces.TwiceTheLimitExactly`).
  Clients that keep to the limit are never rejected if and only if `late` is zero, or the limit is one and `late` less
  than a window length (`RateLimitTraces.ModestClientsPassExactly`).

## Model

| member | source | states |
|---|---|---|
| Diversify.IsPermutation | services/ranking-service/internal/usecase/rank.go:126-153 | for every list, diversification permutes it, and promotes exactly the items that end up ahead of one that preceded them |
| Diversify.StepKeeps | services/ranking-service/internal/usecase/rank.go:127-152 | every iteration keeps the invariant: the unprocessed tail is a subsequence of the original list, a promoted item is directly followed by the item it displaced, and every processed clash is settled |
| Diversify.DisplacementIsBounded | services/ranking-service/internal/usecase/rank.go:127-152 | no item falls from rank p to a position beyond 2p |
| Diversify.IsMaximal | services/ranking-service/internal/usecase/rank.go:130-147 | between two neighbours of one known source no item that follows was eligible to be moved; `Spread.NeighboursOfOneSource` says so in names and scores |
| Diversify.PromotedSeparates | services/ranking-service/internal/usecase/rank.go:127-151 | every promoted item stands between two that clash, of which the second is the first of all that follow, and is the first of these that was eligible |
| Spread.SpreadExactly | services/ranking-service/internal/usecase/rank.go:122-154 | whatever the list, of all orders of its items diversification yields the only one in which an item stands ahead of one that preceded it just to separate two of one known source, being the first that may at a loss of at most five points, and in which no two neighbours of one source could still be separated |
| Spread.DiversifiedByRanks | services/ranking-service/internal/usecase/rank.go:148-151 | the diversified list shows the items in that order, with the reason added to exactly those ahead of one that preceded them |
| Spread.NeighboursOfOneSource | services/ranking-service/internal/usecase/rank.go:130-147 | after two neighbours of one known source every item is of no known source, of the same source, or more than five points below the second |
| Spread.PromotedStandsBetween | services/ranking-service/internal/usecase/rank.go:129-151 | an item ahead of one that preceded it comes from another known source than its two neighbours, who share one, and is at most five points below the second |
| Diversify.SettledIsFixed | services/ranking-service/internal/usecase/rank.go:127-152 | a list in which all clashes are settled is left as it is |
| Diversify.RespectsScores | services/ranking-service/internal/usecase/rank.go:134-151 | on a list sorted by score, no item is overtaken by one more than five points below it, and each source, blank included, keeps its order |
| Ranking.FindReplacement | services/ranking-service/internal/usecase/rank.go:133-147 | the search finds the first later item that `MayOvertake`, or none; `Spread.SpreadExactly` says in names and scores what that leads to |
| Ranking.ReplacementFound | services/ranking-service/internal/usecase/rank.go:133-147 | the item found in the array is the one that the rule on slots promotes |
| Ranking.MoveUp | services/ranking-service/internal/usecase/rank.go:148-151 | the replacement moves up with its reason, everything between moves down by one, all else stays in place |
| Ranking.SettlePosition | services/ranking-service/internal/usecase/rank.go:127-152 | one iteration on the array does one step of the pass |
| Ranking.DiversifyRankedItems | services/ranking-service/internal/usecase/rank.go:122-154 | the in-place pass over the array computes the list that `Spread.SpreadExactly` and `Spread.DiversifiedByRanks` determine |
| Ranking.ShortListsUnchanged | services/ranking-service/internal/usecase/rank.go:123-125 | the early exit for fewer than three items agrees with the general rule |
| Ranking.DiversifyIsIdempotent | services/ranking-service/internal/usecase/rank.go:122-154 | diversifying twice is diversifying once, reasons included, for every list |
| Ranking.MatchTerms | services/ranking-service/internal/usecase/rank.go:76-84 | ten points and one reason for every query term found, repeated terms included |
| Ranking.Ranker.ScoreWithReasons | services/ranking-service/internal/usecase/rank.go:75-106 | the score is that of the terms, the source boost, the freshness and the reaction signals, and the reasons are those that contributed, compacted |
| Ranking.FreshnessFades | services/ranking-service/internal/usecase/rank.go:89-97 | the later of two items never gets fewer freshness points: twenty from now on, ten after a day |
| Scoring.FreshnessIs | services/ranking-service/internal/usecase/rank.go:89-97 | freshness times the age plus a day is twenty days: twenty points divided by one more than the age in days |
| Scoring.BaseScoreIs | services/ranking-service/internal/usecase/rank.go:75-98 | without signals the score is ten points for every place of a term that occurs in title, summary and tags, three for the source "habr", and the freshness of a dated item |
| Scoring.SignalledScore | services/ranking-service/internal/usecase/rank.go:99-105 | with signals it is the larger of zero and that score with the totals of the item's tags and source, after any history |
| Scoring.ReasonsAre | services/ranking-service/internal/usecase/rank.go:75-106 | a reason is given for every query term that occurs, for the source "habr", for having a date and for signals that change the score, and for nothing else |
| Scoring.TermIsInOnePart | services/ranking-service/internal/usecase/rank.go:78 | a query term occurs in the joined text if and only if it occurs in the title, the summary or one of the tags: no match runs across two fields |
| Ranking.Ranker.Rank | services/ranking-service/internal/usecase/rank.go:28-40 | ranking scores every item by what the clock says and the signal store holds at that moment, other requests using the store between any two items, then sorts stably by score and diversifies |
| Ranking.RankIsPermutation | services/ranking-service/internal/usecase/rank.go:28-40 | no item is lost, duplicated or altered by sorting and diversifying, but for the reason added to promoted ones |
| Ranking.RankBoundsInversions | services/ranking-service/internal/usecase/rank.go:36-39 | for any two positions of the ranking, the later item scores at most five points more than the earlier |
| Ranking.RankKeepsSourceOrder | services/ranking-service/internal/usecase/rank.go:36-39 | items of one source come by score, and in input order where scores are equal |
| Ranking.RankBoundsDisplacement | services/ranking-service/internal/usecase/rank.go:122-154 | no item falls from sorted rank p beyond position 2p |
| Ranking.RankIsSettled | services/ranking-service/internal/usecase/rank.go:36-40 | diversifying a ranking again changes nothing |
| Ranking.ScoringReasons | services/ranking-service/internal/usecase/rank.go:75-106 | scoring itself never gives the reason "source_diversity", whatever the query terms |
| Ranking.RankMarksPromotions | services/ranking-service/internal/usecase/rank.go:148-151 | "source_diversity" is a reason of exactly the items placed ahead of one that sorted before them |
| Scoring.PromotedReasons | services/ranking-service/internal/usecase/rank.go:148-149 | a promoted item keeps its reasons and has "source_diversity" after them |
| Reasons.CompactReasons | services/ranking-service/internal/usecase/rank.go:108-120 | the loop with its seen map computes the compaction |
| Reasons.CompactedReasons | services/ranking-service/internal/usecase/rank.go:108-120 | compaction keeps exactly the non-blank trimmed reasons, each once, and is idempotent |
| Signals.NormalizeTags | services/ranking-service/internal/usecase/signals.go:88-103 | the loop computes the distinct non-empty tags, lower-cased and trimmed, in first-seen order |
| Signals.SignalStore.RememberArticle | services/ranking-service/internal/usecase/signals.go:30-44 | tags and source of an article are replaced if there are any, a blank identifier is ignored, nothing else changes |
| Signals.SignalStore.RecordReaction | services/ranking-service/internal/usecase/signals.go:46-64 | an accepted reaction adds its weight to the remembered tags and half to the source; a rejected one reports why and changes nothing |
| Signals.SignalStore.ApplyToScore | services/ranking-service/internal/usecase/signals.go:66-86 | the score gains the weights of the item's tags and source and is cut off at zero, unless the item has neither |
| Signals.ScoreIsTotals | services/ranking-service/internal/usecase/signals.go:66-86 | after any history an item without tags and source keeps its base score; any other scores the larger of zero and its base with the totals of its tags and its source |
| Signals.UnconcernedScore | services/ranking-service/internal/usecase/signals.go:66-86 | as long as no accepted reaction concerns an item, it keeps a base score that is not negative |
| Signals.OneReactionScore | services/ranking-service/internal/usecase/signals.go:46-86 | after one reaction to a remembered item its score has changed by 4, 8, 1, -3 or -8 for each tag and half of that for its source, but not below zero |
| Signals.NormalizedTagsAre | services/ranking-service/internal/usecase/signals.go:88-103 | the tags of an item are its non-empty tags in lower case and trimmed, each once |
| Signals.StoreRemembers | services/ranking-service/internal/usecase/signals.go:30-44 | after any history the store holds the last non-empty tags and source remembered for each article |
| Signals.WeightsAreTotals | services/ranking-service/internal/usecase/signals.go:46-64 | after any history each tag weight is the sum of the accepted reactions to articles remembered with the tag at that time, and each source weight half of that |
| Signals.ReactionShift | services/ranking-service/internal/usecase/signals.go:55-62 | one accepted reaction of weight w shifts the score of an item, before the cut-off, by w for each shared tag and w/2 for a shared source |
| Signals.SharedWeightIsMultiple | services/ranking-service/internal/usecase/signals.go:57-59 | the shift by tags is exactly w times the number of shared tags |
| Signals.ReactionIsMonotone | services/ranking-service/internal/usecase/signals.go:66-86 | positive reactions never lower the score of any item, negative ones never raise it |
| Signals.RejectedReaction | services/ranking-service/internal/usecase/signals.go:46-53 | exactly reactions with a blank field, a zero time or an unknown kind are rejected, and they change nothing |
| Sorting.OrderIsStable | services/ranking-service/internal/usecase/rank.go:36-38 | the stable order is sorted, lists every position, and keeps equal elements in input order |
| Sorting.OrderIsInjective | services/ranking-service/internal/usecase/rank.go:36-38 | the stable order lists no position twice |
| Sorting.StableSortSorts | services/parser-service/internal/search/search.go:272-279 | the stable sort has the same elements, sorted |
| Candidates.RelevanceIsMention | services/parser-service/internal/search/search.go:289-319 | a candidate has no relevance exactly if the query has terms and neither title, tags, summary, content nor URL contains one |
| Relevance.RelevanceIsHits | services/parser-service/internal/search/search.go:289-319 | the relevance is four, three, two, one and one points for each query term in title, tags, summary, content and URL, and one point without terms |
| Relevance.QueryTermsAre | services/parser-service/internal/search/search.go:321-336 | the query terms are the words of the text in lower case with at least two characters, each once |
| Candidates.EntriesAreGenuine | services/parser-service/internal/search/search.go:87-108 | the keys, the usability and the relevance of a candidate are those of its normalized form, and a usable one has at least one key |
| SearchAnswers.ReturnedForm | services/parser-service/internal/search/search.go:338-358 | a candidate is returned with its texts trimmed, and with the name of its source, an identifier made from its URL and the language of the query where its own are missing |
| SearchAnswers.ReturnedTags | services/parser-service/internal/search/search.go:441-457 | its tags are those found, trimmed and not empty, each once up to letter case |
| SearchAnswers.UsableExactly | services/parser-service/internal/search/search.go:88-95 | it is usable if and only if it has a URL and a title and, unless it has no date, lies within the dates of the query |
| Candidates.CommonKeys | services/parser-service/internal/search/search.go:360-372 | two candidates have a key in common if and only if they have the same URL, the same identifier within the source or the same title, up to letter case: keys of different kinds never coincide |
| Candidates.SameIdentifierExactly | services/parser-service/internal/search/search.go:365-367 | as long as no source name contains a colon, two candidates have the same identifier key if and only if their sources and their identifiers there are the same up to letter case |
| Candidates.IdentifiersMayCollide | services/parser-service/internal/search/search.go:365-367 | with a colon in a source name candidates of different sources may have the same key |
| Titles.SameTitleExactly | services/parser-service/internal/search/search.go:418-434 | two candidates have the same title if and only if the same words of three or more characters occur in them in the same order, at least four of them, provided that a blank is no letter or digit |
| Titles.LongWordsAre | services/parser-service/internal/search/search.go:418-429 | these words come in the order of the title, as often as they occur |
| SearchUsecase.HasSeenCandidate | services/parser-service/internal/search/search.go:374-381 | true exactly if some key has been seen |
| SearchUsecase.MarkSeenCandidate | services/parser-service/internal/search/search.go:383-387 | exactly the keys are added to the seen ones |
| SearchUsecase.TakeCandidates | services/parser-service/internal/search/search.go:86-108 | the loop over a source's candidates filters, deduplicates and partitions them; afterwards the seen map holds exactly the keys of all marked candidates |
| SearchUsecase.InterleaveCandidateBuckets | services/parser-service/internal/search/search.go:248-270 | the loops with their two exits deliver the first `limit` elements of the round-robin order |
| SearchUsecase.CountCandidatesBySource | services/parser-service/internal/search/search.go:281-287 | the map counts the candidates of every source name, zero for absent ones |
| SearchUsecase.PublishCandidate | services/parser-service/internal/search/search.go:145-171 | publishing succeeds exactly if the event is valid and the producer takes it; then exactly that event has been sent, otherwise nothing |
| SearchUsecase.Usecase.Collect | services/parser-service/internal/search/search.go:61-123 | the loop over the sources produces the buckets, statistics and last error of the survey, and makes one attempt to announce every failure |
| SearchAnswers.NamedSourcesAreAsked | services/parser-service/internal/search/search.go:192-203 | a query with sources asks those that are known and enabled, trimmed, in its order and as often as it names them |
| SearchAnswers.AllSourcesAreAsked | services/parser-service/internal/search/search.go:204-210 | any other query asks all enabled sources in the order of their parsers |
| SearchAnswers.FailuresAreTold | services/parser-service/internal/search/search.go:173-190 | every failed source is announced with its name, the text of the query and its error, in the order of the sources, unless the producer refuses |
| SearchUsecase.Usecase.PublishAll | services/parser-service/internal/search/search.go:133-137 | messages are sent in order, each with its own clock reading, up to the first candidate whose event is invalid or refused, and without error all of them |
| SearchUsecase.Usecase.SearchAndPublish | services/parser-service/internal/search/search.go:55-143 | the whole search: what is returned, exactly which messages are sent about failures and candidates, that an error means the candidate after the last published one is invalid or was refused, and that every published count is then zero |
| SearchAnswers.BestComesFirst | services/parser-service/internal/search/search.go:272-279 | of two candidates returned from one bucket the earlier is more relevant for the text of the query, or equally relevant and published no earlier |
| SearchAnswers.LinesOfStatistics | services/parser-service/internal/search/search.go:125-142 | the statistics have a line for every source asked, which counts as returned the candidates returned under its name, and as many as published if all have been published, or else none |
| SearchUsecase.ReturnedCandidatesDiffer | services/parser-service/internal/search/search.go:96-101 | whatever the parsers answer, any two returned candidates, of one or of two sources, have no deduplication key in common |
| SearchUsecase.ReturnedCountsOfSearch | services/parser-service/internal/search/search.go:125-129 | the returned counts of the statistics add up to the number of candidates returned whenever each candidate found comes under the name of a source that is asked exactly once |
| SearchUsecase.SelectedNamesAreNamedOnce | services/parser-service/internal/search/search.go:338-342 | that is so when the selected sources are different and every candidate found has a blank name or that of some selected source |
| SearchUsecase.RepeatedSourcesAreAskedTwice | services/parser-service/internal/search/search.go:192-203 | a source named twice in the query is asked twice |
| SearchUsecase.RepeatedSourceReturnsTwice | services/parser-service/internal/search/search.go:124-128 | when the query names a source twice and it finds one usable candidate of its own both times, the search returns one candidate and its statistics say two, one of them by a line that had accepted none |
| SearchUsecase.ForeignNameReturnsNothing | services/parser-service/internal/search/search.go:124-128 | when the only source finds one usable candidate under another name, the search returns it and its statistics say that nothing has been returned |
| SearchPipeline.GatheredIsSound | services/parser-service/internal/search/search.go:65-123 | after every source, marked candidates are pairwise unrelated and each bucket lists marked candidates at distinct places, fallback included |
| SearchPipeline.DeliveredAreUnrelated | services/parser-service/internal/search/search.go:124 | sorting, interleaving and the limit keep the candidates pairwise unrelated |
| SearchPipeline.MarkedUnlessEarlierTwin | services/parser-service/internal/search/search.go:65-108 | a usable candidate is kept out as a duplicate if and only if it shares a key with a candidate marked at an earlier place: in an earlier source, or earlier in the same one |
| SearchPipeline.MarkedInTheEnd | services/parser-service/internal/search/search.go:65-123 | in the end exactly the candidates marked at some place are marked: later sources never unmark one |
| SearchCounts.CountsAreConserved | services/parser-service/internal/search/search.go:69-122 | before anything is returned, every source that answered has found = accepted + filtered = the candidates of its answer, and a failed one has all counts zero, its error and the status of a failure |
| SearchCounts.LastErrorIs | services/parser-service/internal/search/search.go:76-82 | the error reported without candidates is that of the last source that failed |
| SearchCounts.ReturnedCountsAreTimesNamed | services/parser-service/internal/search/search.go:125-128 | for any sources, repeated ones included, the returned counts count each candidate once for every time that the source it is named after was asked |
| SearchCounts.ReturnedCountsAddUpExactly | services/parser-service/internal/search/search.go:124-128 | the returned counts of a search add up to the number of candidates for every limit, if and only if every kept candidate is named after a source that was asked exactly once |
| SearchCounts.ReturnedCountsAddUp | services/parser-service/internal/search/search.go:124-128 | they add up for every limit if all usable candidates of the answers are named after a source asked exactly once, be it their own or another one |
| SearchCounts.OwnNamesAreNamedOnce | services/parser-service/internal/search/search.go:338-342 | in particular when the sources are different and name their candidates after themselves |
| SearchCounts.RepeatedSourceCountsTwice | services/parser-service/internal/search/search.go:96-101 | any usable candidate found both times by a source asked twice is delivered once and counted twice; the second line has accepted nothing |
| SearchCounts.ForeignNameIsNotCounted | services/parser-service/internal/search/search.go:339-342 | any usable candidate under another name than that of the only source is delivered and counted nowhere |
| AcceptedCounts.AllKeptIsDelivered | services/parser-service/internal/search/search.go:248-287 | of the candidates under any name, interleaving without limit delivers exactly as many as all buckets hold |
| AcceptedCounts.ReturnedAtMostAcceptedExactly | services/parser-service/internal/search/search.go:115-128 | a line of the statistics returns at most what it had accepted, for every limit, if and only if the buckets of all sources together hold no more candidates under its name |
| AcceptedCounts.AcceptedIsKept | services/parser-service/internal/search/search.go:109-122 | what the lines of a source have accepted is what its buckets hold, under whatever names |
| AcceptedCounts.AskedOnceReturnsAtMostAccepted | services/parser-service/internal/search/search.go:115-128 | a source asked once returns at most what it had accepted, for every limit, if and only if the candidates kept that others found under its name are no more than those it found under other names |
| AcceptedCounts.ReturnedAtMostAccepted | services/parser-service/internal/search/search.go:115-128 | that is so for a source asked once if no usable candidate of another source carries its name, whatever its own candidates and other sources do |
| AcceptedCounts.OwnNamesAreNamedByNoOther | services/parser-service/internal/search/search.go:338-342 | in particular for every source when the sources are different and name their candidates after themselves |
| SearchPipeline.DeliveredCount | services/parser-service/internal/search/search.go:248-270 | min(limit, total) candidates are delivered, and a smaller limit delivers a prefix of a larger one |
| SearchPipeline.DeliveredSharesAreFair | services/parser-service/internal/search/search.go:248-270 | each bucket delivers its first elements, and of two buckets one is behind the other by more than one only when it is exhausted |
| SearchPipeline.BucketsAreSorted | services/parser-service/internal/search/search.go:114 | every bucket of a search is sorted by the order `Above`; `Relevance.BucketsByRelevance` says so in relevance and dates |
| Relevance.BucketsByRelevance | services/parser-service/internal/search/search.go:272-279 | in every bucket the earlier of two candidates is more relevant, or equally relevant and dated no earlier |
| Relevance.ReturnedByRelevance | services/parser-service/internal/search/search.go:248-279 | so it is for any two candidates returned from one bucket |
| Relevance.KeptExactly | services/parser-service/internal/search/search.go:84-122 | the buckets of a source hold exactly those of its candidates that were marked and have some relevance, or all that were marked if none of them has any |
| Relevance.ReturnedExactly | services/parser-service/internal/search/search.go:248-270 | a limit that is large enough returns exactly these |
| RoundRobin.CellsAreAll | services/parser-service/internal/search/search.go:253-268 | the round-robin order visits exactly the existing elements, round by round and in bucket order |
| RoundRobin.ShareIsPrefix | services/parser-service/internal/search/search.go:253-268 | however early the visit stops, of each bucket a prefix has been visited |
| RoundRobin.SharesAreFair | services/parser-service/internal/search/search.go:253-268 | no bucket is more than one element ahead of a bucket that still has elements |
| RoundRobin.CellsCount | services/parser-service/internal/search/search.go:253-268 | every element is visited exactly once: the visits are as many as the elements |
| RoundRobin.InterleavedElements | services/parser-service/internal/search/search.go:253-268 | exactly the elements of the buckets occur |
| WorkerPool.StepKeepsInvariant | services/parser-service/internal/parsers/dzen/client.go:138-156 | after every step of every schedule each job handed out is with exactly one worker or once in the channel, with its own answer |
| WorkerPool.NoDeadlock | services/parser-service/internal/parsers/dzen/client.go:138-156 | until the workers are joined some step is possible, and no worker ever waits for room in the result channel |
| WorkerPool.RunLength | services/parser-service/internal/parsers/dzen/client.go:141-156 | every step brings every run closer to its end by exactly one |
| WorkerPool.RunsEndTogether | services/parser-service/internal/parsers/dzen/client.go:128-156 | a run is over after exactly 3n + W + 2 steps and not before, with W = min(4, n) workers |
| WorkerPool.JoinedIsComplete | services/parser-service/internal/parsers/dzen/client.go:155-161 | whatever the schedule, in the end every index has been delivered exactly once, with its answer |
| WorkerPool.Reassemble | services/parser-service/internal/parsers/dzen/client.go:158-161 | writing the results by index gives the answers in job order |
| WorkerPool.SelectCandidates | services/parser-service/internal/parsers/dzen/client.go:162-175 | the loop with its early exit, which reads the clock for every article, computes what `WorkerPool.SelectsRecent` determines |
| WorkerPool.SelectsRecent | services/parser-service/internal/parsers/dzen/client.go:162-212 | the candidates are, in job order, exactly those fetched that have no date or one at most five years of 365 days before the clock reading for them, or the first of these if there is a limit |
| WorkerPool.FetchCandidates | services/parser-service/internal/parsers/dzen/client.go:124-176 | under every schedule the pool returns the candidates of exactly the recent answers, in job order and up to the limit, as the sequential program does |
| Discovery.AppendDiscoveryURLs | services/parser-service/internal/parsers/vc/discovery.go:136-152 | a page adds its new cleaned entry URLs in first-seen order until the limit is reached, and the seen map holds exactly the URLs |
| Discovery.CollectURLs | services/parser-service/internal/parsers/vc/discovery.go:44-65 | against any server: at most `limit` requests, an error only from a failed request, and otherwise the first `limit` distinct URLs of all visited pages, with another request exactly as long as there is a next page, something new and more wanted |
| Discovery.SearchStopsExactly | services/parser-service/internal/parsers/vc/discovery.go:53-65 | another request is sent exactly if the last page has a cursor or both an identifier and a sorting value, has brought something new, and more is wanted |
| Discovery.PageOffers | services/parser-service/internal/parsers/vc/discovery.go:136-152 | a page offers the cleaned URLs of its items that are entries or have no kind, in their order |
| Discovery.SearchURLs | services/parser-service/internal/parsers/vc/discovery.go:39-65 | the same for the normalized limit; a blank query makes no request |
| Discovery.NormalizedLimit | services/parser-service/internal/parsers/vc/discovery.go:166-174 | a limit from 1 to 100 is kept, one that is not positive becomes 20, a larger one 100 |
| InitialState.JsonObjectEnd | services/parser-service/internal/parsers/vc/html.go:103-135 | the loop returns the first position at which the scanner closes, or -1 |
| InitialState.ScannerFindsObjectEnd | services/parser-service/internal/parsers/vc/html.go:103-135 | for every JSON object and every text after it, the scanner stops exactly at the end of the object, whatever braces, quotes and escapes its strings contain |
| InitialState.ExtractInitialState | services/parser-service/internal/parsers/vc/html.go:79-101 | the method finds the first object after the first marker and equals sign, or nothing, on all its error paths |
| InitialState.ExtractsAssignedObject | services/parser-service/internal/parsers/vc/html.go:79-101 | in a script that assigns an object after the first marker, exactly that object is extracted |
| InitialState.NothingIsExtracted | services/parser-service/internal/parsers/vc/html.go:79-101 | a script that breaks off before the end of the object yields nothing |
| InitialState.NothingAssigned | services/parser-service/internal/parsers/vc/html.go:81-89 | neither does one without the marker or without an equals sign after it |
| SourceBalance.GroupBySource | services/article-service/internal/usecase/ingest.go:113-129 | grouping gives each source its elements in list order, preferred sources first, others as they first occur |
| SourceBalance.TakeRounds | services/article-service/internal/usecase/ingest.go:130-145 | the rounds take every element, and the exit for a round that adds nothing is unreachable |
| SourceBalance.InterleaveBySource | services/article-service/internal/usecase/ingest.go:109-146 | the whole interleaving computes the balanced list about which the properties below are proved |
| SourceBalance.BalancedIsPermutation | services/article-service/internal/usecase/ingest.go:109-146 | the balanced list has the length and exactly the elements of the list, distinct ones each once |
| SourceBalance.PrefixIsFair | services/article-service/internal/usecase/ingest.go:131-144 | in every prefix no source is more than one element ahead of a source with elements left |
| SourceBalance.PrefixTakesTheBest | services/article-service/internal/usecase/ingest.go:131-144 | every prefix holds, of each source, elements that precede all its other elements in the sorted list |
| SourceBalance.BalancedStart | services/feed-service/internal/usecase/feed.go:105-139 | without preferred sources the balanced list starts with the first element of the sorted list |
| ArticleStore.CleanSourceOrder | services/article-service/internal/usecase/ingest.go:148-160 | the preferred sources are the distinct non-blank ones, normalized, in first-seen order |
| ArticleStore.MemoryArticleStore.Save | services/article-service/internal/usecase/ingest.go:35-44 | the first article of a URL is kept and returned; a new one is entered in both indexes |
| ArticleStore.SavedIsConsistent | services/article-service/internal/usecase/ingest.go:35-44 | every save keeps the two indexes consistent: what is found by identifier is also what is found by its URL |
| ArticleStore.MemoryArticleStore.Search | services/article-service/internal/usecase/ingest.go:60-107 | a search returns the window at the offset of the results, for some order of iteration over the map; which articles these are, and in which order, say `SearchMatches.ResultsExactly` and `SearchMatches.ResultsInRounds` |
| ArticleStore.ResultsAreMatches | services/article-service/internal/usecase/ingest.go:68-98 | the results are exactly the articles that match, each once; `SearchMatches.ResultsExactly` says in their fields which these are |
| SearchMatches.ResultsExactly | services/article-service/internal/usecase/ingest.go:60-98 | a stored article is a result if and only if the query has terms, each of them occurs in the text of the article, it was published within the dates, and its source and one of its tags are among those named, where any are |
| SearchMatches.SearchTermsAre | services/article-service/internal/usecase/ingest.go:222-233 | the terms are the words of the text in lower case, without punctuation around them, that have at least two characters and are no stop words |
| SearchMatches.NarrowerFindsLess | services/article-service/internal/usecase/ingest.go:78-93 | a further term or a narrower date range never adds a result |
| SearchMatches.StarIsIgnored | services/article-service/internal/usecase/ingest.go:278-282 | a tag with an asterisk at its end is the tag without it, if lower-casing leaves the asterisk alone |
| SearchMatches.TagInLowerCase | services/article-service/internal/usecase/ingest.go:278-282 | other tags are compared in lower case and trimmed |
| TermMatching.TermIsInOnePart | services/article-service/internal/usecase/ingest.go:83-91 | a search term occurs in the joined text if and only if it occurs in one field or one tag: no match runs across two of them |
| SearchMatches.NewestOfSourceFirst | services/article-service/internal/usecase/ingest.go:95-98 | of two results of one source the earlier was published no earlier |
| SearchMatches.ResultsInRounds | services/article-service/internal/usecase/ingest.go:109-146 | results come in rounds, one of every source that has another; within a round the sources that the query names come first, in its order, and then the others by their newest result |
| SearchMatches.CleanSourcesNamed | services/article-service/internal/usecase/ingest.go:148-160 | the sources that a query names are its non-blank ones in lower case and trimmed, each once |
| SearchMatches.SameTurn | services/article-service/internal/usecase/ingest.go:121-124 | two articles count as of one source if and only if their source names agree up to letter case and white space around them, a blank name being the same as "_unknown" |
| SearchOrder.ResultsAreDetermined | services/article-service/internal/usecase/ingest.go:69-106 | without rivals the results do not depend on map iteration, so searches at different offsets are windows of one list; rivals are two matching articles published at the same time that are of one source, or the newest ones of two sources the query does not name |
| SearchOrder.RivalsChangeResults | services/article-service/internal/usecase/ingest.go:69-98 | with rivals there are two orders of iteration with different results |
| SearchOrder.DistinctTimesHaveNoRivals | services/article-service/internal/usecase/ingest.go:95-97 | matching articles with distinct publish times have no rivals |
| BalanceOrder.DecidedIsUnique | services/article-service/internal/usecase/ingest.go:95-146 | sorting and balancing depend on the elements only, not on the order in which they came, if no tie concerns one source or the heads of two sources that take their turns as they first occur |
| BalanceOrder.ContestedFollowsInput | services/article-service/internal/usecase/ingest.go:95-146 | in every such tie the element that came first is delivered first |
| ArticleStore.Normalize | contracts/article/v1/article.go:58-70 | a limit from 1 to 100 and an offset that is not negative are kept, other limits become 20 or 100, other offsets zero; the text is trimmed and nothing else changes |
| Candidates.Normalize | contracts/parser/v1/parser.go:33-48 | a limit from 1 to 100 is kept, one that is not positive becomes 20, a larger one 100; the text is trimmed and a blank language becomes "ru" |
| ArticleStore.IngestDiscovered | services/article-service/internal/usecase/ingest.go:170-208 | an invalid event or a cancelled context changes nothing, and the validation error is reported first; otherwise the article is saved unless its URL is known, and the stored article is reported |
| Publication.ValidExactly | contracts/events/v1/events.go:32-49 | an event is valid if and only if source, identifier, URL and title are not blank and it has a time of discovery |
| Publication.CandidateIsStored | services/article-service/internal/usecase/ingest.go:181-194 | a candidate that is published and ingested is stored with all its fields, under its source and identifier, or an identifier made from its URL |
| Publication.EventIsStored | services/article-service/internal/usecase/ingest.go:181-208 | an article and the event about its creation agree with the discovered event in all fields |
| Publication.FirstOfURLIsKept | services/article-service/internal/usecase/ingest.go:35-44 | after any events the store holds for each URL the article of the first event with it |
| Publication.LastOfIDIsKept | services/article-service/internal/usecase/ingest.go:35-44 | and for each identifier that of the last event with it that was the first one with its URL |
| ConsumerLoop.RedeliveryIsHarmless | services/article-service/internal/usecase/ingest.go:35-44 | handling an event a second time, at whatever time, leaves the store as it is |
| ConsumerLoop.StepKeepsInvariant | services/article-service/internal/runtime/consumer_loop.go:42-68 | fetch, handle, commit and restart all keep: the store equals one clean pass over the handled messages, and commits lag by at most one |
| ConsumerLoop.RunKeepsInvariant | services/article-service/internal/runtime/consumer_loop.go:42-68 | so does every run, with restarts anywhere |
| ConsumerLoop.StoreIsCleanPass | services/article-service/internal/runtime/consumer_loop.go:42-68 | in every run with any number of restarts, commits are a prefix of the handled messages lagging by at most one, both indexes equal those of one clean pass but for the times of parsing, and they are consistent |
| ConsumerLoop.StuckAtInvalid | services/article-service/internal/runtime/consumer_loop.go:58-60 | the loop never gets past an invalid event |
| ConsumerLoop.LogCanBeCommitted | services/article-service/internal/runtime/consumer_loop.go:42-68 | after any history a restarted loop can commit the whole log if and only if every event is valid |
| ConsumerLoop.UntitledEventIsNeverCommitted | services/article-service/internal/runtime/consumer_loop.go:58-60 | a log of one event without a title can never be committed, whatever happens |
| ConsumerLoop.HandleMessage | services/article-service/internal/runtime/consumer_loop.go:58-60 | handling succeeds exactly for a valid event that is not cancelled, and keeps the invariant; a handler that fails has changed nothing |
| ConsumerLoop.Advance | services/article-service/internal/runtime/consumer_loop.go:61-66 | the offset is committed if the consumer can commit, and the loop goes on to the next message |
| ConsumerLoop.Run | services/article-service/internal/runtime/consumer_loop.go:42-68 | one run under arbitrary faults keeps the invariant and closes the consumer; it has handled and committed an exact number of messages, stops without error only at the limit, at the end of the log or on request, and fails only because the next message could not be fetched, handled or committed |
| FeedStore.MemoryFeed.AddArticle | services/feed-service/internal/usecase/feed.go:30-34 | a preview is appended, the scored items stay |
| FeedStore.MemoryFeed.UpsertScoredItem | services/feed-service/internal/usecase/feed.go:36-54 | an event without identifier is rejected and changes nothing; any other replaces the item of its article |
| FeedStore.MemoryFeed.List | services/feed-service/internal/usecase/feed.go:56-86 | scored items are listed if there are any, otherwise the previews, newest first and balanced |
| FeedStore.MemoryFeed.ListScored | services/feed-service/internal/usecase/feed.go:88-103 | the scored items in some map order are sorted by score and date, balanced over sources and cut off |
| FeedStore.LatestByID | services/feed-service/internal/usecase/feed.go:36-54 | after any history the store holds, for each article, the item of its last event, and nothing else |
| FeedStore.ListingItems | services/feed-service/internal/usecase/feed.go:88-103 | a listing has min(limit, n) items, all if the limit is not positive, with distinct identifiers, each as last upserted |
| FeedStore.ListingStartsWithBest | services/feed-service/internal/usecase/feed.go:88-103 | the first item has the highest score of all |
| FeedStore.ListingTakesTheBest | services/feed-service/internal/usecase/feed.go:88-103 | no item left out scores higher than a listed item of its source |
| FeedStore.ListingIsFair | services/feed-service/internal/usecase/feed.go:124-137 | no source is more than one item ahead of a source with items left |
| FeedOrder.HeldItem | services/feed-service/internal/usecase/feed.go:36-54 | the item held for an article carries all fields of its last event and no reaction |
| FeedOrder.BestOfSourceFirst | services/feed-service/internal/usecase/feed.go:93-98 | of two listed items of one source the earlier has the higher score, or the same score and no earlier date |
| FeedOrder.ListingInRounds | services/feed-service/internal/usecase/feed.go:105-139 | items are listed in rounds, one of every source that has another, and in each round the sources come by their best item |
| FeedOrder.PreviewFields | services/feed-service/internal/usecase/feed.go:74-85 | a listed preview carries the fields of an article, and scores the whole seconds from 1970 to its date, or nothing without one |
| FeedOrder.NewestPreviewFirst | services/feed-service/internal/usecase/feed.go:65-67 | of two previews of one source the earlier was published no earlier |
| FeedOrder.PreviewCount | services/feed-service/internal/usecase/feed.go:68-86 | as many previews are listed as wanted and available, all if the limit is not positive |
| FeedCursor.ItoaDigits | services/gateway-api/internal/transport/http/feed_handler.go:241-246 | the decimal text of an offset consists of digits and denotes the offset |
| FeedCursor.CursorRoundTrip | services/gateway-api/internal/transport/http/feed_handler.go:211-225 | parsing a cursor gives back the offset it was made from, for every 64-bit offset |
| FeedCursor.ParsedExactly | services/gateway-api/internal/transport/http/feed_handler.go:211-225 | a cursor is read as the unsigned number after "offset:", perhaps with a plus sign and with white space, if that fits into 64 bits, and any other text as zero |
| FeedCursor.NextCursor | services/gateway-api/internal/transport/http/feed_handler.go:241-246 | a next cursor is given exactly after a full page, and it denotes the offset that follows |
| FeedCursor.WalkShowsPages | services/gateway-api/internal/transport/http/feed_handler.go:211-246 | following the cursors from any cursor terminates and shows the visible articles of consecutive pages, each page of a search of its own, up to the first page that is not full; beyond the end it shows nothing |
| FeedCursor.FollowingCursors | services/gateway-api/internal/transport/http/feed_handler.go:88-116 | what a user is shown who follows the cursors through a store are the pages of one search per request, in which the properties below are stated |
| FeedCursor.WalkTilesMatches | services/gateway-api/internal/transport/http/feed_handler.go:211-246 | without rivals and hidden matches, following the cursors shows every match exactly once, whatever the limit and the order in which each request iterates over the index |
| FeedCursor.WalkTilesExactly | services/article-service/internal/usecase/ingest.go:69-106 | walks with any limit and any orders of iteration all show every match exactly once, if and only if there are no rivals |
| FeedCursor.TiedArticleShownTwice | services/article-service/internal/usecase/ingest.go:69-97 | with two rivals in the store, one article a page and requests that iterate in different orders, the first article is shown twice and the second never |
| FeedCursor.AlikeArticleShownTwice | services/article-service/internal/usecase/ingest.go:35-97 | this happens for every query that asks for a text only, once any two articles of one source and time that contain the text have been saved |
| TermMatching.ContainingMatches | services/article-service/internal/usecase/ingest.go:83-93 | an article whose content contains the text of a query has all its search terms and matches it, if the query asks for nothing else |
| TermMatching.RivalsOccur | services/article-service/internal/usecase/ingest.go:35-97 | two such articles of one source and time are rivals once they are saved |
| FeedCursor.HiddenArticleEndsWalk | services/gateway-api/internal/transport/http/feed_handler.go:241-246 | with a hidden match and no rivals, a user is shown every visible match if and only if none lies beyond the page of the first hidden one |
| FeedCursor.HiddenArticleHidesTheNext | services/gateway-api/internal/transport/http/feed_handler.go:241-246 | with one article a page, hiding the first of two leaves the user with nothing although the second is visible |
| Personalization.LatestReactionsByArticle | services/gateway-api/internal/transport/http/feed_handler.go:277-291 | the map holds exactly the articles with reactions, each with the first reaction that is maximal in priority and then in time |
| Personalization.TopDecides | services/gateway-api/internal/transport/http/feed_handler.go:293-308 | the maximal reaction hides exactly if some reaction to the article does, and otherwise is a save exactly if some reaction is |
| Personalization.ApplyUserReactions | services/gateway-api/internal/transport/http/feed_handler.go:260-275 | exactly the items with some skip or dislike are hidden, whatever the order; the others keep their order and show the first maximal reaction, saved exactly if a save exists |
| Personalization.ShownReaction | services/gateway-api/internal/transport/http/feed_handler.go:260-308 | an item shows the reaction that outranks all others to its article - hiding before saving before liking before anything else -, of equal rank the latest, and of these the first |
| Personalization.SurvivorsAre | services/gateway-api/internal/transport/http/feed_handler.go:260-275 | shown are, in their order, exactly the items that no reaction skips or dislikes |
| RateLimit.RateLimiter.Handle | services/gateway-api/internal/transport/http/rate_limit.go:29-47 | a request is passed on exactly if the history of its key admits it |
| RateLimit.AlwaysAdmitted | services/gateway-api/internal/transport/http/rate_limit.go:20-42 | a limit that is not positive lets every request through, and a positive one the first request of every client |
| RateLimit.AdmittedIsBounded | services/gateway-api/internal/transport/http/rate_limit.go:29-47 | if requests of a key are processed at most `late` behind their clock readings, every half-open interval of one window length admits at most one request, and one less than the limit for every window that can meet it |
| RateLimit.LengthsCover | services/gateway-api/internal/transport/http/rate_limit.go:34 | the window lengths counted in a time span are its length divided by the window, rounded up |
| RateLimit.MeetingIs | services/gateway-api/internal/transport/http/rate_limit.go:34 | at most two windows can meet the interval if and only if readings are at most one unit late, at most three if and only if they are at most a window length and one unit late |
| RateLimit.AtMostTwiceTheLimit | services/gateway-api/internal/transport/http/rate_limit.go:29-47 | if the requests of a key are processed in the order of their readings, or at most one unit late, every half-open interval of one window length admits less than twice the limit, in whatever order other keys are processed |
| RateLimitTraces.BoundIsAttained | services/gateway-api/internal/transport/http/rate_limit.go:29-47 | for every limit, window and `late` there are requests, processed at most `late` behind, of which the bound on an interval lets through exactly that many |
| RateLimitTraces.MostIsExact | services/gateway-api/internal/transport/http/rate_limit.go:29-47 | a number is never exceeded in an interval of one window length, whatever is sent, if and only if it is not below that bound |
| RateLimitTraces.TwiceTheLimitExactly | services/gateway-api/internal/transport/http/rate_limit.go:31-33 | twice the limit is never exceeded if and only if the limit is one, or `late` is at most one unit, or the limit is two and `late` at most a window length and one unit |
| RateLimit.ModestClientsPass | services/gateway-api/internal/transport/http/rate_limit.go:29-47 | a client that sends at most the limit in every interval of a window length and `late` is never rejected, if its requests are processed at most `late` behind their readings |
| RateLimitTraces.OvertakenClientIsRejected | services/gateway-api/internal/transport/http/rate_limit.go:31-33 | for every limit and window there is a client that sends at most the limit in every window length, has one request overtaken, and is rejected: by a single unit if the limit is two or more, by a window length if it is one |
| RateLimitTraces.ModestClientsPassExactly | services/gateway-api/internal/transport/http/rate_limit.go:31-33 | every client that sends at most the limit in every window length is always let through if and only if its requests are processed in the order of their readings, or the limit is one and they are late by less than a window length |
| RateLimit.OtherKeysDoNotMatter | services/gateway-api/internal/transport/http/rate_limit.go:29-47 | requests of other keys make no difference to a bucket |
| Text.TrimIdempotent | services/ranking-service/internal/usecase/rank.go:112-113 | trimming twice is trimming once |
| Text.Index | services/parser-service/internal/parsers/vc/html.go:81-92 | the offset of the first occurrence, or -1 if there is none |

## Left out

- Positions in strings are counted in characters: `jsonObjectEnd` ranges over characters and returns a byte position, which is the same text cut off at the same place.
- `IsNumber` in the JSON syntax accepts more than the number grammar of RFC 8259, section 6; the scanner is proved for this larger set of texts.
- Unicode case mapping, letter and digit classes, URL cleaning and canonicalization, and SHA-1 identifiers are left open; nothing is assumed about them beyond case mapping being done character by character, except where a lemma asks that a blank or an asterisk stays what it is.
- Scores are exact reals: rounding and NaN of `float64` are not modelled.
- Mutexes and concurrent use of the stores: every method of a store is one atomic step. The worker pool is modelled with all its interleavings.
- WorkerPool.FetchCandidates: takes the answer of the network to each URL as given.
- RateLimit.AdmittedIsBounded: assumes, like the other lemmas about the limiter, that the clock never shows the zero time of Go's `time.Time`.
- SearchUsecase.Usecase.SearchAndPublish: the durations in the statistics and the serialization of messages are not modelled; what parsers answer and which attempts to publish fail are parameters.
- Discovery.SearchURLs: the server's answers are arbitrary, so which page a request asks for plays no role and is not modelled.
- ConsumerLoop.StepKeepsInvariant: `Restart` restarts the loop and keeps the store; a crash of the whole process also loses the in-memory store, while the committed offset stays.
- ConsumerLoop.Run: fetching at the end of the log is read as end of input; decoding a message is one of its arbitrary faults.
- FeedCursor.WalkTilesExactly: the store stays as it is during the walk.
- `Ranker.Rank` and the stable sorts work on values; `sort.SliceStable` is a function whose stability is proved, and `scoreWithReasons` gets the clock reading as a parameter.
- Relevance terms and title keys of candidates are functions; their loops over map-backed sets are not written out.
- `RankDiscovered` and `ReactionScorer` would only add easy members.
- The kafka-go adapter, PostgreSQL stores, HTTP handlers and clients, HTML and RSS extraction, JSON marshalling, configuration, scheduling and the web client are plumbing over libraries.
- The cache of feed responses is keyed by the raw query while its payload is personalized; whether it should agree with the uncached answer is not decided by the code.
- The job manager, metrics and user profiles have only simple properties.
