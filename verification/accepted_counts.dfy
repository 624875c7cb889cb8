/** Whether a source can return more candidates than it had accepted: candidates are counted by the names they carry,
    which need not be that of the source that found them. */
module AcceptedCounts {
  import Slices
  import Induction
  import Sorting
  import opened RoundRobin
  import SourceBalance
  import Candidates
  import opened SearchPipeline
  import opened SearchCounts

  // ----- All that is kept under a name is delivered in the end -----

  /** How many candidates of all buckets carry the name. */
  function KeptUnder(buckets: seq<SourceBucket>, name: string): nat {
    if |buckets| == 0 then 0
    else KeptUnder(buckets[..|buckets| - 1], name) + CountBySource(buckets[|buckets| - 1].entries, name)
  }

  /** How many candidates under the name bucket `b` has delivered when these cells were visited. */
  function ShareUnder(lists: seq<seq<Candidates.Entry>>, cells: seq<Cell>, name: string, b: nat): nat
    requires b < |lists|
  {
    CountBySource(Slices.First(lists[b], |Share(cells, b)|), name)
  }

  /** How many candidates under the name the first `m` buckets have delivered when these cells were visited. */
  function VisitedUnder(lists: seq<seq<Candidates.Entry>>, cells: seq<Cell>, name: string, m: nat): nat
    requires m <= |lists|
  {
    if m == 0 then 0 else VisitedUnder(lists, cells, name, m - 1) + ShareUnder(lists, cells, name, m - 1)
  }

  /** Visiting one more cell adds its entry to the share of its bucket. */
  lemma ShareGrows(lists: seq<seq<Candidates.Entry>>, n: nat, b: nat, name: string)
    requires n < |Cells(Sizes(lists))| && b < |lists|
    ensures var cells := Cells(Sizes(lists));
            ShareUnder(lists, cells[..n + 1], name, b) ==
            ShareUnder(lists, cells[..n], name, b) +
            if cells[n].bucket == b && NameOf(Interleaved(lists)[n]) == name then 1 else 0
  {
    var cells := Cells(Sizes(lists));
    SourceBalance.ShareSnoc(cells, n + 1, b);
    if cells[n].bucket == b {
      var k := |Share(cells[..n], b)|;
      ShareIsPrefix(Sizes(lists), n, b);
      NextOfBucket(Sizes(lists), n, b);
      SourceBalance.BucketSnoc(lists[b], k + 1, NameOf, name);
      assert Slices.First(lists[b], k) == lists[b][..k];
      assert Slices.First(lists[b], k + 1) == lists[b][..k + 1];
    }
  }

  /** If the share of one bucket grows by `more`, so does the total. */
  lemma {:induction false} TotalGrows(lists: seq<seq<Candidates.Entry>>, cells: seq<Cell>, next: seq<Cell>,
                                      name: string, b: nat, more: nat, m: nat)
    requires m <= |lists|
    requires forall c: nat :: c < |lists| ==>
               ShareUnder(lists, next, name, c) == ShareUnder(lists, cells, name, c) + if c == b then more else 0
    ensures VisitedUnder(lists, next, name, m) == VisitedUnder(lists, cells, name, m) + if b < m then more else 0
  {
    if m > 0 {
      TotalGrows(lists, cells, next, name, b, more, m - 1);
    }
  }

  lemma VisitedGrows(lists: seq<seq<Candidates.Entry>>, n: nat, name: string)
    requires n < |Interleaved(lists)|
    ensures var cells := Cells(Sizes(lists));
            VisitedUnder(lists, cells[..n + 1], name, |lists|) ==
            VisitedUnder(lists, cells[..n], name, |lists|) + if NameOf(Interleaved(lists)[n]) == name then 1 else 0
  {
    var cells := Cells(Sizes(lists));
    var more := if NameOf(Interleaved(lists)[n]) == name then 1 else 0;
    forall c: nat | c < |lists|
      ensures ShareUnder(lists, cells[..n + 1], name, c) ==
              ShareUnder(lists, cells[..n], name, c) + if c == cells[n].bucket then more else 0
    {
      ShareGrows(lists, n, c, name);
    }
    TotalGrows(lists, cells[..n], cells[..n + 1], name, cells[n].bucket, more, |lists|);
    CellsExist(lists);
  }

  lemma {:induction false} NothingVisited(lists: seq<seq<Candidates.Entry>>, name: string, m: nat)
    requires m <= |lists|
    ensures VisitedUnder(lists, [], name, m) == 0
  {
    if m > 0 {
      NothingVisited(lists, name, m - 1);
      assert Slices.First(lists[m - 1], 0) == [];
    }
  }

  /** The candidates under the name among the first `n` delivered are those that the visited shares hold. */
  ghost function CountsVisited(lists: seq<seq<Candidates.Entry>>, name: string): nat -> bool {
    var r, cells := Interleaved(lists), Cells(Sizes(lists));
    (n: nat) =>
      n <= |r| ==> CountBySource(r[..n], name) == VisitedUnder(lists, cells[..n], name, |lists|)
  }

  lemma CountsVisitedCarries(lists: seq<seq<Candidates.Entry>>, name: string, n: nat)
    ensures Induction.Carries(CountsVisited(lists, name), n)
  {
    if n < |Interleaved(lists)| {
      VisitedGrows(lists, n, name);
      SourceBalance.BucketSnoc(Interleaved(lists), n + 1, NameOf, name);
    }
  }

  lemma DeliveredIsVisited(lists: seq<seq<Candidates.Entry>>, n: nat, name: string)
    requires n <= |Interleaved(lists)|
    ensures CountBySource(Interleaved(lists)[..n], name) ==
            VisitedUnder(lists, Cells(Sizes(lists))[..n], name, |lists|)
  {
    assert Interleaved(lists)[..0] == [] && Cells(Sizes(lists))[..0] == [];
    NothingVisited(lists, name, |lists|);
    assert CountsVisited(lists, name)(0);
    forall k: nat ensures Induction.Carries(CountsVisited(lists, name), k) {
      CountsVisitedCarries(lists, name, k);
    }
    Induction.HoldsThroughout(CountsVisited(lists, name), n);
  }

  lemma WholeShare(buckets: seq<SourceBucket>, name: string, b: nat)
    requires b < |buckets|
    ensures var lists := Lists(buckets);
            ShareUnder(lists, Cells(Sizes(lists)), name, b) == CountBySource(buckets[b].entries, name)
  {
    ShareIsWhole(Sizes(Lists(buckets)), b);
  }

  lemma KeptNext(buckets: seq<SourceBucket>, name: string, m: nat)
    requires m < |buckets|
    ensures KeptUnder(buckets[..m + 1], name) ==
            KeptUnder(buckets[..m], name) + CountBySource(buckets[m].entries, name)
  {
    assert buckets[..m + 1][..m] == buckets[..m];
  }

  lemma {:induction false} VisitedIsKept(buckets: seq<SourceBucket>, name: string, m: nat)
    requires m <= |buckets|
    ensures VisitedUnder(Lists(buckets), Cells(Sizes(Lists(buckets))), name, m) == KeptUnder(buckets[..m], name)
  {
    if m > 0 {
      VisitedIsKept(buckets, name, m - 1);
      WholeShare(buckets, name, m - 1);
      KeptNext(buckets, name, m - 1);
    }
  }

  lemma AllKeptIsDelivered(buckets: seq<SourceBucket>, name: string)
    ensures CountBySource(Interleaved(Lists(buckets)), name) == KeptUnder(buckets, name)
  {
    var lists := Lists(buckets);
    var r, cells := Interleaved(lists), Cells(Sizes(lists));
    DeliveredIsVisited(lists, |r|, name);
    VisitedIsKept(buckets, name, |buckets|);
    assert r[..|r|] == r && cells[..|cells|] == cells && buckets[..|buckets|] == buckets;
  }

  // ----- Returned and accepted -----

  /** Whatever the limit is, no more than `bound` candidates under the name are delivered. */
  ghost predicate ReturnsAtMost(buckets: seq<SourceBucket>, name: string, bound: int) {
    forall limit: nat :: CountBySource(Delivered(buckets, limit), name) <= bound
  }

  lemma DeliveredAtMostKept(buckets: seq<SourceBucket>, name: string, limit: int)
    ensures CountBySource(Delivered(buckets, limit), name) <= KeptUnder(buckets, name)
  {
    var r := Interleaved(Lists(buckets));
    var n := DeliveredPrefix(buckets, limit);
    AllKeptIsDelivered(buckets, name);
    SourceBalance.BucketConcat(r[..n], r[n..], NameOf, name);
    assert r[..n] + r[n..] == r;
  }

  lemma ReturnsAtMostExactly(buckets: seq<SourceBucket>, name: string, bound: int)
    ensures ReturnsAtMost(buckets, name, bound) <==> KeptUnder(buckets, name) <= bound
  {
    var r := Interleaved(Lists(buckets));
    AllKeptIsDelivered(buckets, name);
    forall limit: nat ensures CountBySource(Delivered(buckets, limit), name) <= KeptUnder(buckets, name) {
      DeliveredAtMostKept(buckets, name, limit);
    }
    assert Delivered(buckets, |r|) == r;
  }

  /** A source never returns more candidates than it had accepted, whatever the limit is, if and only if the buckets of
      all sources together keep no more candidates under its name. */
  lemma ReturnedAtMostAcceptedExactly(survey: Survey, k: nat)
    requires k < |survey.sources|
    ensures var all := Gathered(survey, |survey.sources|);
            && k < |all.stats|
            && (ReturnsAtMost(all.buckets, survey.sources[k], all.stats[k].acceptedCount) <==>
                KeptUnder(all.buckets, survey.sources[k]) <= all.stats[k].acceptedCount)
  {
    var all := Gathered(survey, |survey.sources|);
    StatsNames(survey, |survey.sources|);
    ReturnsAtMostExactly(all.buckets, survey.sources[k], all.stats[k].acceptedCount);
  }

  // ----- Sources asked once -----

  /** How many candidates are kept that other sources have found under this name. */
  function KeptFromOthers(buckets: seq<SourceBucket>, source: string): nat {
    if |buckets| == 0 then 0 else
      var last := buckets[|buckets| - 1];
      KeptFromOthers(buckets[..|buckets| - 1], source) +
      if last.source != source then CountBySource(last.entries, source) else 0
  }

  /** How many candidates are kept that this source has found under another name. */
  function KeptUnderOtherNames(buckets: seq<SourceBucket>, source: string): nat {
    if |buckets| == 0 then 0 else
      var last := buckets[|buckets| - 1];
      KeptUnderOtherNames(buckets[..|buckets| - 1], source) +
      if last.source == source then |last.entries| - CountBySource(last.entries, source) else 0
  }

  /** How many candidates are kept that this source has found. */
  function KeptOf(buckets: seq<SourceBucket>, source: string): nat {
    if |buckets| == 0 then 0 else
      var last := buckets[|buckets| - 1];
      KeptOf(buckets[..|buckets| - 1], source) + if last.source == source then |last.entries| else 0
  }

  lemma {:induction false} KeptIsBalanced(buckets: seq<SourceBucket>, source: string)
    ensures KeptUnder(buckets, source) + KeptUnderOtherNames(buckets, source) ==
            KeptOf(buckets, source) + KeptFromOthers(buckets, source)
  {
    if |buckets| > 0 {
      KeptIsBalanced(buckets[..|buckets| - 1], source);
    }
  }

  /** What the lines of this source have accepted, all told. */
  function AcceptedBy(stats: seq<SourceStats>, source: string): nat {
    if |stats| == 0 then 0 else
      var last := stats[|stats| - 1];
      AcceptedBy(stats[..|stats| - 1], source) + if last.sourceName == source then last.acceptedCount else 0
  }

  lemma KeptSnoc(buckets: seq<SourceBucket>, bucket: SourceBucket, source: string)
    ensures KeptOf(buckets + [bucket], source) ==
            KeptOf(buckets, source) + if bucket.source == source then |bucket.entries| else 0
    ensures KeptFromOthers(buckets + [bucket], source) ==
            KeptFromOthers(buckets, source) +
            if bucket.source != source then CountBySource(bucket.entries, source) else 0
  {
    assert (buckets + [bucket])[..|buckets|] == buckets;
  }

  lemma AcceptedSnoc(stats: seq<SourceStats>, line: SourceStats, source: string)
    ensures AcceptedBy(stats + [line], source) ==
            AcceptedBy(stats, source) + if line.sourceName == source then line.acceptedCount else 0
  {
    assert (stats + [line])[..|stats|] == stats;
  }

  lemma ChosenAreSorted(intake: Intake)
    ensures |Sorting.StableSort(Chosen(intake), Above)| == |Chosen(intake)|
  {
    AboveIsOrder();
    Sorting.StableSortSorts(Chosen(intake), Above);
  }

  /** The buckets of the source hold what its lines of the statistics have accepted. */
  ghost predicate KeepsAccepted(all: Collection, source: string) {
    KeptOf(all.buckets, source) == AcceptedBy(all.stats, source)
  }

  /** What source `asked` adds to the buckets is what its line of the statistics has accepted. */
  lemma GatherKeeps(all: Collection, asked: string, strategy: string, outcome: Outcome, source: string)
    requires KeepsAccepted(all, source)
    ensures KeepsAccepted(Gather(all, asked, strategy, outcome), source)
  {
    match outcome
    case Failed(error) =>
      AcceptedSnoc(all.stats, SourceStats(asked, strategy, Broken, 0, 0, 0, 0, 0, error), source);
    case Found(entries) =>
      var intake := TakeAll(all.marked, entries);
      ChosenAreSorted(intake);
      KeptSnoc(all.buckets, SourceBucket(asked, Sorting.StableSort(Chosen(intake), Above)), source);
      AcceptedSnoc(all.stats, StatsOf(asked, strategy, |entries|, intake), source);
  }

  lemma KeepsAcceptedNext(survey: Survey, k: nat, source: string)
    requires k < |survey.sources| && KeepsAccepted(Gathered(survey, k), source)
    ensures KeepsAccepted(Gathered(survey, k + 1), source)
  {
    var asked := survey.sources[k];
    GatherKeeps(Gathered(survey, k), asked, survey.strategies(asked), survey.outcomes[k], source);
  }

  lemma {:induction false} AcceptedIsKept(survey: Survey, n: nat, source: string)
    requires n <= |survey.sources|
    ensures KeepsAccepted(Gathered(survey, n), source)
  {
    if n > 0 {
      AcceptedIsKept(survey, n - 1, source);
      KeepsAcceptedNext(survey, n - 1, source);
    }
  }

  lemma {:induction false} OnlyLine(stats: seq<SourceStats>, sources: seq<string>, k: nat, source: string)
    requires |stats| == |sources| && forall j :: 0 <= j < |sources| ==> stats[j].sourceName == sources[j]
    ensures TimesAsked(sources, source) == 0 ==> AcceptedBy(stats, source) == 0
    ensures k < |sources| && sources[k] == source ==> TimesAsked(sources, source) > 0
    ensures k < |sources| && sources[k] == source && TimesAsked(sources, source) == 1 ==>
              AcceptedBy(stats, source) == stats[k].acceptedCount
  {
    if |sources| > 0 {
      OnlyLine(stats[..|stats| - 1], sources[..|sources| - 1], k, source);
    }
  }

  /** A source asked once never returns more candidates than it had accepted, whatever the limit is, if and only if
      the candidates kept that others have found under its name are no more than those it has found under other
      names. */
  lemma AskedOnceReturnsAtMostAccepted(survey: Survey, k: nat)
    requires k < |survey.sources| && TimesAsked(survey.sources, survey.sources[k]) == 1
    ensures var all, source := Gathered(survey, |survey.sources|), survey.sources[k];
            && k < |all.stats|
            && (ReturnsAtMost(all.buckets, source, all.stats[k].acceptedCount) <==>
                KeptFromOthers(all.buckets, source) <= KeptUnderOtherNames(all.buckets, source))
  {
    var all, source := Gathered(survey, |survey.sources|), survey.sources[k];
    ReturnedAtMostAcceptedExactly(survey, k);
    StatsNames(survey, |survey.sources|);
    KeptIsBalanced(all.buckets, source);
    AcceptedIsKept(survey, |survey.sources|, source);
    OnlyLine(all.stats, survey.sources, k, source);
  }

  // ----- What the answers say -----

  /** No other source has found a usable candidate under the name of source number `k`. */
  ghost predicate NamedByNoOther(survey: Survey, k: nat)
    requires k < |survey.sources|
  {
    forall p :: IsPlace(survey, p) && p.source != k && EntryAt(survey, p).usable ==>
                  NameOf(EntryAt(survey, p)) != survey.sources[k]
  }

  lemma GatherFromOthers(all: Collection, asked: string, strategy: string, outcome: Outcome, source: string)
    requires KeptFromOthers(all.buckets, source) == 0
    requires asked != source ==> forall e :: e in EntriesFound(outcome) && e.usable ==> NameOf(e) != source
    ensures KeptFromOthers(Gather(all, asked, strategy, outcome).buckets, source) == 0
  {
    if outcome.Found? {
      var bucket := SourceBucket(asked, Sorting.StableSort(Chosen(TakeAll(all.marked, outcome.entries)), Above));
      BucketIsUsable(all.marked, outcome.entries);
      if asked != source {
        SourceBalance.EmptyBucket(bucket.entries, NameOf, source);
      }
      KeptSnoc(all.buckets, bucket, source);
    }
  }

  lemma {:induction false} NoneFromOthers(survey: Survey, k: nat, n: nat)
    requires k < |survey.sources| && n <= |survey.sources| && NamedByNoOther(survey, k)
    ensures KeptFromOthers(Gathered(survey, n).buckets, survey.sources[k]) == 0
  {
    if n > 0 {
      var source, asked, found := survey.sources[k], survey.sources[n - 1], EntriesFound(survey.outcomes[n - 1]);
      NoneFromOthers(survey, k, n - 1);
      forall e | asked != source && e in found && e.usable ensures NameOf(e) != source {
        var i: nat :| i < |found| && found[i] == e;
        assert EntryAt(survey, Place(n - 1, i)) == e;
      }
      GatherFromOthers(Gathered(survey, n - 1), asked, survey.strategies(asked), survey.outcomes[n - 1], source);
    }
  }

  /** A source asked once whose name no usable candidate of another source carries returns at most what it had
      accepted, whatever names its own candidates carry. */
  lemma ReturnedAtMostAccepted(survey: Survey, limit: nat, k: nat)
    requires k < |survey.sources| && TimesAsked(survey.sources, survey.sources[k]) == 1 && NamedByNoOther(survey, k)
    ensures var all := Gathered(survey, |survey.sources|);
            && k < |all.stats|
            && CountBySource(Delivered(all.buckets, limit), survey.sources[k]) <= all.stats[k].acceptedCount
  {
    AskedOnceReturnsAtMostAccepted(survey, k);
    NoneFromOthers(survey, k, |survey.sources|);
  }

  /** In particular when all sources are different and name their candidates after themselves. */
  lemma OwnNamesAreNamedByNoOther(survey: Survey, k: nat)
    requires OwnNames(survey) && k < |survey.sources|
    ensures TimesAsked(survey.sources, survey.sources[k]) == 1 && NamedByNoOther(survey, k)
  {
    AskedOnce(survey.sources, survey.sources[k]);
    forall p | IsPlace(survey, p) && p.source != k ensures NameOf(EntryAt(survey, p)) != survey.sources[k] {
      assert EntryAt(survey, p) in survey.outcomes[p.source].entries;
    }
  }
}
