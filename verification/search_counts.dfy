/** The statistics of a search: what every source found, accepted and returned, and when the counts add up. */
module SearchCounts {
  import Contracts
  import Sorting
  import FirstSeen
  import opened RoundRobin
  import SourceBalance
  import opened Candidates
  import opened SearchPipeline

  // ----- What is found, accepted and filtered -----

  lemma {:induction false} TakeAllCounts(marked: seq<Entry>, found: seq<Entry>)
    ensures var intake := TakeAll(marked, found);
            |intake.relevant| + |intake.irrelevant| + intake.filtered == |found|
  {
    if |found| > 0 {
      TakeAllCounts(marked, found[..|found| - 1]);
    }
  }

  /** The line of statistics of one source before anything is returned: found = accepted + filtered, and a source
      that failed has found nothing. */
  ghost predicate Accounted(stats: SourceStats, source: string, strategy: string, outcome: Outcome) {
    && stats.sourceName == source && stats.strategy == strategy
    && stats.status == (if outcome.Failed? then Broken else if stats.acceptedCount == 0 then Empty else OK)
    && stats.error == (if outcome.Failed? then outcome.error else "")
    && stats.foundCount == stats.acceptedCount + stats.filteredCount == |EntriesFound(outcome)|
    && (outcome.Failed? ==> stats.foundCount == stats.acceptedCount == stats.filteredCount == 0)
    && stats.returnedCount == stats.publishedCount == 0
  }

  lemma GatherCounts(all: Collection, source: string, strategy: string, outcome: Outcome)
    ensures var stats := Gather(all, source, strategy, outcome).stats;
            |stats| == |all.stats| + 1 && stats[..|all.stats|] == all.stats &&
            Accounted(stats[|all.stats|], source, strategy, outcome)
  {
    if outcome.Found? {
      TakeAllCounts(all.marked, outcome.entries);
    }
  }

  ghost predicate AccountedAt(stats: SourceStats, survey: Survey, k: nat)
    requires k < |survey.sources|
  {
    Accounted(stats, survey.sources[k], survey.strategies(survey.sources[k]), survey.outcomes[k])
  }

  ghost predicate AllAccounted(stats: seq<SourceStats>, survey: Survey, n: nat)
    requires n <= |survey.sources|
  {
    |stats| == n && forall k :: 0 <= k < n ==> AccountedAt(stats[k], survey, k)
  }

  lemma AccountedSnoc(stats: seq<SourceStats>, survey: Survey, n: nat, next: seq<SourceStats>)
    requires n < |survey.sources| && AllAccounted(stats, survey, n)
    requires |next| == n + 1 && next[..n] == stats && AccountedAt(next[n], survey, n)
    ensures AllAccounted(next, survey, n + 1)
  {
    assert forall k :: 0 <= k < n ==> next[k] == next[..n][k];
  }

  /** What there is after `k + 1` sources is what source number `k` adds to what there was before. */
  ghost predicate Gathers(collections: nat -> Collection, survey: Survey, k: nat)
    requires k < |survey.sources|
  {
    var source := survey.sources[k];
    collections(k + 1) == Gather(collections(k), source, survey.strategies(source), survey.outcomes[k])
  }

  lemma AddsLine(collections: nat -> Collection, survey: Survey, k: nat)
    requires k < |survey.sources| && Gathers(collections, survey, k)
    requires AllAccounted(collections(k).stats, survey, k)
    ensures AllAccounted(collections(k + 1).stats, survey, k + 1)
  {
    var source := survey.sources[k];
    GatherCounts(collections(k), source, survey.strategies(source), survey.outcomes[k]);
    AccountedSnoc(collections(k).stats, survey, k, collections(k + 1).stats);
  }

  lemma {:induction false} LinesAccounted(collections: nat -> Collection, survey: Survey, n: nat)
    requires n <= |survey.sources| && collections(0) == NOTHING
    requires forall k: nat :: k < |survey.sources| ==> Gathers(collections, survey, k)
    ensures AllAccounted(collections(n).stats, survey, n)
  {
    if n > 0 {
      LinesAccounted(collections, survey, n - 1);
      assert Gathers(collections, survey, n - 1);
      AddsLine(collections, survey, n - 1);
    }
  }

  ghost function Gathering(survey: Survey): nat -> Collection
  {
    (k: nat) => if k <= |survey.sources| then Gathered(survey, k) else NOTHING
  }

  lemma GatheringGathers(survey: Survey, k: nat)
    requires k < |survey.sources|
    ensures Gathers(Gathering(survey), survey, k)
  {
  }

  /** Every candidate of every answering source is accounted for. */
  lemma CountsAreConserved(survey: Survey, n: nat)
    requires n <= |survey.sources|
    ensures AllAccounted(Gathered(survey, n).stats, survey, n)
  {
    forall k: nat | k < |survey.sources| ensures Gathers(Gathering(survey), survey, k) {
      GatheringGathers(survey, k);
    }
    LinesAccounted(Gathering(survey), survey, n);
  }

  /** The error of the last source that failed, if any of the first `n` has. */
  ghost predicate IsLastError(error: Contracts.Option<string>, survey: Survey, n: nat)
    requires n <= |survey.sources|
  {
    match error
    case None => forall k :: 0 <= k < n ==> survey.outcomes[k].Found?
    case Some(e) => exists k :: && 0 <= k < n && survey.outcomes[k] == Failed(e)
                                && forall j :: k < j < n ==> survey.outcomes[j].Found?
  }

  /** The error that a search without candidates reports is that of the last source that failed. */
  lemma {:induction false} LastErrorIs(survey: Survey, n: nat)
    requires n <= |survey.sources|
    ensures IsLastError(Gathered(survey, n).lastError, survey, n)
  {
    if n > 0 {
      LastErrorIs(survey, n - 1);
      if survey.outcomes[n - 1].Failed? {
        assert survey.outcomes[n - 1] == Failed(survey.outcomes[n - 1].error);
      } else if Gathered(survey, n - 1).lastError.Some? {
        var e := Gathered(survey, n - 1).lastError.value;
        var k :| 0 <= k < n - 1 && survey.outcomes[k] == Failed(e) &&
                 forall j :: k < j < n - 1 ==> survey.outcomes[j].Found?;
        assert survey.outcomes[k] == Failed(e);
      }
    }
  }

  // ----- What is returned -----

  function NameOf(e: Entry): string {
    e.candidate.sourceName
  }

  function CountBySource(delivered: seq<Entry>, source: string): nat {
    SourceBalance.Count(delivered, NameOf, source)
  }

  function WithReturned(stats: seq<SourceStats>, delivered: seq<Entry>): (r: seq<SourceStats>)
    ensures |r| == |stats|
  {
    seq(|stats|, k requires 0 <= k < |stats| =>
      stats[k].(returnedCount := CountBySource(delivered, stats[k].sourceName)))
  }

  function WithPublished(stats: seq<SourceStats>, delivered: seq<Entry>): (r: seq<SourceStats>)
    ensures |r| == |stats|
  {
    seq(|stats|, k requires 0 <= k < |stats| =>
      stats[k].(publishedCount := CountBySource(delivered, stats[k].sourceName)))
  }

  ghost predicate AllNamed(entries: seq<Entry>, source: string) {
    forall e :: e in entries ==> NameOf(e) == source
  }

  /** All sources are different, and every candidate carries the name of the source that was asked. */
  ghost predicate OwnNames(survey: Survey)
  {
    && FirstSeen.NoRepeats(survey.sources)
    && forall k :: 0 <= k < |survey.sources| && survey.outcomes[k].Found? ==>
         AllNamed(survey.outcomes[k].entries, survey.sources[k])
  }

  lemma StatsNames(survey: Survey, n: nat)
    requires n <= |survey.sources|
    ensures var stats := Gathered(survey, n).stats;
            |stats| == n && forall k :: 0 <= k < n ==> stats[k].sourceName == survey.sources[k]
  {
    CountsAreConserved(survey, n);
    var stats := Gathered(survey, n).stats;
    forall k | 0 <= k < n ensures stats[k].sourceName == survey.sources[k] {
      assert AccountedAt(stats[k], survey, k);
    }
  }

  /** The returned counts, source by source. */
  function ReturnedCounts(delivered: seq<Entry>, sources: seq<string>): seq<nat> {
    seq(|sources|, k requires 0 <= k < |sources| => CountBySource(delivered, sources[k]))
  }

  /** How often a source is asked. */
  function TimesAsked(sources: seq<string>, source: string): nat {
    if |sources| == 0 then 0
    else TimesAsked(sources[..|sources| - 1], source) + if sources[|sources| - 1] == source then 1 else 0
  }

  lemma {:induction false} AskedOnce(sources: seq<string>, source: string)
    requires FirstSeen.NoRepeats(sources)
    ensures TimesAsked(sources, source) == if source in sources then 1 else 0
  {
    if |sources| > 0 {
      AskedOnce(sources[..|sources| - 1], source);
      assert sources == sources[..|sources| - 1] + [sources[|sources| - 1]];
    }
  }

  /** How often the sources that the candidates are named after are asked, all told. */
  function TimesNamed(delivered: seq<Entry>, sources: seq<string>): nat {
    if |delivered| == 0 then 0
    else TimesNamed(delivered[..|delivered| - 1], sources) + TimesAsked(sources, NameOf(delivered[|delivered| - 1]))
  }

  /** One more candidate counts once for every time its source is asked. */
  lemma {:induction false} CountsSnoc(delivered: seq<Entry>, e: Entry, sources: seq<string>)
    ensures Sum(ReturnedCounts(delivered + [e], sources)) ==
            Sum(ReturnedCounts(delivered, sources)) + TimesAsked(sources, NameOf(e))
  {
    if |sources| > 0 {
      var front, last := sources[..|sources| - 1], sources[|sources| - 1];
      CountsSnoc(delivered, e, front);
      assert ReturnedCounts(delivered, sources)[..|front|] == ReturnedCounts(delivered, front);
      assert ReturnedCounts(delivered + [e], sources)[..|front|] == ReturnedCounts(delivered + [e], front);
      assert (delivered + [e])[..|delivered|] == delivered;
    }
  }

  /** The returned counts count every candidate once for every time that the source it is named after was asked:
      twice for a source selected twice, and not at all for a name that was not selected. */
  lemma {:induction false} ReturnedCountsAreTimesNamed(delivered: seq<Entry>, sources: seq<string>)
    ensures Sum(ReturnedCounts(delivered, sources)) == TimesNamed(delivered, sources)
  {
    if |delivered| == 0 {
      SourceBalance.EmptySum(ReturnedCounts(delivered, sources));
    } else {
      var front, last := delivered[..|delivered| - 1], delivered[|delivered| - 1];
      ReturnedCountsAreTimesNamed(front, sources);
      CountsSnoc(front, last, sources);
      assert delivered == front + [last];
    }
  }

  /** The returned counts add up to the number of candidates. */
  ghost predicate AddsUp(buckets: seq<SourceBucket>, sources: seq<string>, limit: nat) {
    Sum(ReturnedCounts(Delivered(buckets, limit), sources)) == |Delivered(buckets, limit)|
  }

  ghost predicate NamedOnce(entries: seq<Entry>, sources: seq<string>) {
    forall e :: e in entries ==> TimesAsked(sources, NameOf(e)) == 1
  }

  /** Every kept candidate is named after a source that was asked exactly once. */
  ghost predicate BucketsNamedOnce(buckets: seq<SourceBucket>, sources: seq<string>) {
    forall b :: 0 <= b < |buckets| ==> NamedOnce(buckets[b].entries, sources)
  }

  lemma {:induction false} TimesNamedOnce(delivered: seq<Entry>, sources: seq<string>)
    requires NamedOnce(delivered, sources)
    ensures TimesNamed(delivered, sources) == |delivered|
  {
    if |delivered| > 0 {
      assert delivered[|delivered| - 1] in delivered;
      TimesNamedOnce(delivered[..|delivered| - 1], sources);
    }
  }

  lemma DeliveredNext(buckets: seq<SourceBucket>, p: nat)
    requires p < |Interleaved(Lists(buckets))|
    ensures |Delivered(buckets, p)| == p
    ensures Delivered(buckets, p + 1) == Delivered(buckets, p) + [Interleaved(Lists(buckets))[p]]
  {
    var r := Interleaved(Lists(buckets));
    assert r[..p + 1] == r[..p] + [r[p]];
  }

  /** The element at position `p` of all candidates is named after a source asked once, if the counts add up both
      without and with it. */
  lemma NextNamedOnce(buckets: seq<SourceBucket>, sources: seq<string>, p: nat)
    requires p < |Interleaved(Lists(buckets))|
    ensures AddsUp(buckets, sources, p) && AddsUp(buckets, sources, p + 1) ==>
              TimesAsked(sources, NameOf(Interleaved(Lists(buckets))[p])) == 1
  {
    DeliveredNext(buckets, p);
    CountsSnoc(Delivered(buckets, p), Interleaved(Lists(buckets))[p], sources);
  }

  lemma AddUpExactly(buckets: seq<SourceBucket>, sources: seq<string>)
    ensures (forall limit: nat :: AddsUp(buckets, sources, limit)) <==> BucketsNamedOnce(buckets, sources)
  {
    var lists := Lists(buckets);
    var r := Interleaved(lists);
    InterleavedElements(lists);
    if BucketsNamedOnce(buckets, sources) {
      forall e | e in r ensures TimesAsked(sources, NameOf(e)) == 1 {
        var b :| 0 <= b < |lists| && e in lists[b];
        assert NamedOnce(buckets[b].entries, sources);
      }
      forall limit: nat ensures AddsUp(buckets, sources, limit) {
        TimesNamedOnce(Delivered(buckets, limit), sources);
        ReturnedCountsAreTimesNamed(Delivered(buckets, limit), sources);
      }
    }
    if forall limit: nat :: AddsUp(buckets, sources, limit) {
      forall b, e | 0 <= b < |buckets| && e in buckets[b].entries ensures TimesAsked(sources, NameOf(e)) == 1 {
        assert e in lists[b] && InSomeBucket(lists, e);
        var p: nat :| p < |r| && r[p] == e;
        NextNamedOnce(buckets, sources, p);
      }
    }
  }

  /** The returned counts of a search add up to the number of candidates, whatever the limit is, if and only if every
      kept candidate is named after a source that was asked exactly once. */
  lemma ReturnedCountsAddUpExactly(survey: Survey)
    ensures var buckets := Gathered(survey, |survey.sources|).buckets;
            (forall limit: nat :: AddsUp(buckets, survey.sources, limit)) <==> BucketsNamedOnce(buckets, survey.sources)
  {
    AddUpExactly(Gathered(survey, |survey.sources|).buckets, survey.sources);
  }

  /** Every usable candidate found is named after a source that was asked exactly once. */
  ghost predicate AnswersNamedOnce(survey: Survey)
  {
    forall p :: IsPlace(survey, p) && EntryAt(survey, p).usable ==>
      TimesAsked(survey.sources, NameOf(EntryAt(survey, p))) == 1
  }

  lemma {:induction false} ChosenAreUsable(marked: seq<Entry>, found: seq<Entry>)
    ensures forall e :: e in TakeAll(marked, found).relevant ==> e in found && e.usable
    ensures forall e :: e in TakeAll(marked, found).irrelevant ==> e in found && e.usable
  {
    if |found| > 0 {
      var front, last := found[..|found| - 1], found[|found| - 1];
      ChosenAreUsable(marked, front);
      assert found == front + [last];
    }
  }

  ghost predicate AllUsable(entries: seq<Entry>, found: seq<Entry>) {
    forall e :: e in entries ==> e in found && e.usable
  }

  lemma BucketIsUsable(marked: seq<Entry>, found: seq<Entry>)
    ensures AllUsable(Sorting.StableSort(Chosen(TakeAll(marked, found)), Above), found)
  {
    ChosenAreUsable(marked, found);
    AboveIsOrder();
    Sorting.StableSortSorts(Chosen(TakeAll(marked, found)), Above);
  }

  lemma GatherNamedOnce(all: Collection, source: string, strategy: string, outcome: Outcome, sources: seq<string>)
    requires BucketsNamedOnce(all.buckets, sources)
    requires forall e :: e in EntriesFound(outcome) && e.usable ==> TimesAsked(sources, NameOf(e)) == 1
    ensures BucketsNamedOnce(Gather(all, source, strategy, outcome).buckets, sources)
  {
    if outcome.Found? {
      BucketIsUsable(all.marked, outcome.entries);
    }
  }

  lemma {:induction false} KeptAreNamedOnce(survey: Survey, n: nat)
    requires n <= |survey.sources| && AnswersNamedOnce(survey)
    ensures BucketsNamedOnce(Gathered(survey, n).buckets, survey.sources)
  {
    if n > 0 {
      var source, found := survey.sources[n - 1], EntriesFound(survey.outcomes[n - 1]);
      KeptAreNamedOnce(survey, n - 1);
      forall e | e in found && e.usable ensures TimesAsked(survey.sources, NameOf(e)) == 1 {
        var i: nat :| i < |found| && found[i] == e;
        assert EntryAt(survey, Place(n - 1, i)) == e;
      }
      GatherNamedOnce(Gathered(survey, n - 1), source, survey.strategies(source), survey.outcomes[n - 1],
                      survey.sources);
    }
  }

  /** So they add up for every limit when the answers name only sources that were asked exactly once, be it their own
      or another one. */
  lemma ReturnedCountsAddUp(survey: Survey, limit: nat)
    requires AnswersNamedOnce(survey)
    ensures AddsUp(Gathered(survey, |survey.sources|).buckets, survey.sources, limit)
  {
    KeptAreNamedOnce(survey, |survey.sources|);
    ReturnedCountsAddUpExactly(survey);
  }

  /** In particular when all sources are different and name their candidates after themselves. */
  lemma OwnNamesAreNamedOnce(survey: Survey)
    requires OwnNames(survey)
    ensures AnswersNamedOnce(survey)
  {
    forall p | IsPlace(survey, p) ensures TimesAsked(survey.sources, NameOf(EntryAt(survey, p))) == 1 {
      assert EntryAt(survey, p) in survey.outcomes[p.source].entries;
      AskedOnce(survey.sources, NameOf(EntryAt(survey, p)));
    }
  }

  /** The returned counts as the statistics show them. */
  function ReturnedColumn(stats: seq<SourceStats>): (counts: seq<nat>)
    ensures |counts| == |stats|
  {
    seq(|stats|, k requires 0 <= k < |stats| => stats[k].returnedCount)
  }

  lemma ReturnedColumnIsCounts(survey: Survey, delivered: seq<Entry>)
    ensures ReturnedColumn(WithReturned(Gathered(survey, |survey.sources|).stats, delivered)) ==
            ReturnedCounts(delivered, survey.sources)
  {
    StatsNames(survey, |survey.sources|);
  }

  lemma PublishedColumnIsApart(stats: seq<SourceStats>, delivered: seq<Entry>)
    ensures ReturnedColumn(WithPublished(stats, delivered)) == ReturnedColumn(stats)
  {
  }

  // ----- Answers whose counts do not add up -----

  /** A single usable candidate is kept, and dropped when it is found again. */
  lemma SingleIsTaken(e: Entry)
    requires e.usable && |e.keys| > 0
    ensures TakeAll([], [e]).marked == [e] && Chosen(TakeAll([], [e])) == [e]
    ensures Chosen(TakeAll([e], [e])) == []
    ensures Sorting.StableSort([e], Above) == [e]
  {
    assert [e][..0] == [];
    RelatedToItself(e);
    assert e in [e];
    var sorted := Sorting.StableSort([e], Above);
    AboveIsOrder();
    Sorting.StableSortSorts([e], Above);
    assert sorted[0] in sorted;
  }

  lemma SingleIsDelivered(source: string, e: Entry, limit: nat)
    requires limit > 0
    ensures Delivered([SourceBucket(source, [e])], limit) == [e]
  {
    var lists := Lists([SourceBucket(source, [e])]);
    var r := Interleaved(lists);
    InterleavedCount(lists);
    assert Sizes(lists) == [1] && [1][..0] == [];
    InterleavedElements(lists);
    assert r[0] in r;
  }

  lemma SingleIsCounted(e: Entry, source: string)
    ensures CountBySource([e], source) == (if NameOf(e) == source then 1 else 0)
    ensures Sum(ReturnedCounts([e], [source])) == (if NameOf(e) == source then 1 else 0)
    ensures Sum(ReturnedCounts([e], [source, source])) == if NameOf(e) == source then 2 else 0
  {
    assert [e][..0] == [] && [source, source][..1] == [source] && [source][..0] == [];
    assert TimesAsked([source], source) == 1;
    ReturnedCountsAreTimesNamed([e], [source]);
    ReturnedCountsAreTimesNamed([e], [source, source]);
  }

  lemma SingleIsGathered(survey: Survey, source: string, e: Entry)
    requires e.usable && |e.keys| > 0
    requires |survey.sources| > 0 && survey.sources[0] == source && survey.outcomes[0] == Found([e])
    ensures var all := Gathered(survey, 1);
            all.marked == [e] && all.buckets == [SourceBucket(source, [e])] && |all.stats| == 1
  {
    SingleIsTaken(e);
    assert Gathered(survey, 1) == Gather(NOTHING, source, survey.strategies(source), Found([e]));
  }

  /** A source asked twice that finds one candidate both times, whatever the candidate: it is returned once and, under
      the name of the source, counted twice. The second line of the statistics has returned one candidate although it
      had accepted none. */
  lemma RepeatedSourceCountsTwice(survey: Survey, source: string, e: Entry, limit: nat)
    requires e.usable && |e.keys| > 0 && NameOf(e) == source && limit > 0
    requires survey.sources == [source, source] && survey.outcomes == [Found([e]), Found([e])]
    ensures var all := Gathered(survey, 2);
            var delivered := Delivered(all.buckets, limit);
            && delivered == [e] && Sum(ReturnedCounts(delivered, survey.sources)) == 2
            && |all.stats| == 2 && all.stats[1].acceptedCount == 0 && CountBySource(delivered, source) == 1
  {
    SingleIsGathered(survey, source, e);
    SingleIsTaken(e);
    assert Gathered(survey, 2) == Gather(Gathered(survey, 1), source, survey.strategies(source), Found([e]));
    SingleIsDelivered(source, e, limit);
    SingleIsCounted(e, source);
  }

  /** A candidate under another name than that of the only source asked is returned and not counted. */
  lemma ForeignNameIsNotCounted(survey: Survey, source: string, e: Entry, limit: nat)
    requires e.usable && |e.keys| > 0 && NameOf(e) != source && limit > 0
    requires survey.sources == [source] && survey.outcomes == [Found([e])]
    ensures var delivered := Delivered(Gathered(survey, 1).buckets, limit);
            delivered == [e] && Sum(ReturnedCounts(delivered, survey.sources)) == 0
  {
    SingleIsGathered(survey, source, e);
    SingleIsDelivered(source, e, limit);
    SingleIsCounted(e, source);
  }
}
