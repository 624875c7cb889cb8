/**
 * The bookkeeping of a search over all selected sources: filtering, deduplication across sources, the fallback to
 * candidates without relevance, sorting, interleaving and the statistics.
 */
module SearchPipeline {
  import Contracts
  import Sorting
  import Slices
  import opened RoundRobin
  import SourceBalance
  import opened Candidates

  // ----- One source -----

  predicate Above(a: Entry, b: Entry) {
    if a.score != b.score then a.score > b.score else a.candidate.publishedAt > b.candidate.publishedAt
  }

  /** What has become of the candidates so far: `marked` are all candidates, of this and earlier sources, whose keys
      have been marked as seen; of this source, `relevant` and `irrelevant` were kept apart and `filtered` dropped. */
  datatype Intake = Intake(marked: seq<Entry>, relevant: seq<Entry>, irrelevant: seq<Entry>, filtered: nat)

  predicate SharesKey(a: Entry, b: Entry) {
    exists key :: key in a.keys && key in b.keys
  }

  predicate IsDuplicate(marked: seq<Entry>, e: Entry) {
    exists m :: m in marked && SharesKey(m, e)
  }

  function Take(intake: Intake, e: Entry): Intake {
    if !e.usable || IsDuplicate(intake.marked, e) then intake.(filtered := intake.filtered + 1)
    else if e.score <= 0 then intake.(marked := intake.marked + [e], irrelevant := intake.irrelevant + [e])
    else intake.(marked := intake.marked + [e], relevant := intake.relevant + [e])
  }

  function TakeAll(marked: seq<Entry>, found: seq<Entry>): Intake {
    if |found| == 0 then Intake(marked, [], [], 0) else Take(TakeAll(marked, found[..|found| - 1]), found[|found| - 1])
  }

  /** Candidates without any relevance are used only when the source has no others. */
  function Chosen(intake: Intake): seq<Entry> {
    if intake.relevant == [] then intake.irrelevant else intake.relevant
  }

  function FilteredCount(intake: Intake): nat {
    intake.filtered + if intake.relevant == [] then 0 else |intake.irrelevant|
  }

  // ----- All sources -----

  datatype Outcome = Found(entries: seq<Entry>) | Failed(error: string)

  datatype Status = OK | Empty | Broken

  datatype SourceStats = SourceStats(
    sourceName: string, strategy: string, status: Status,
    foundCount: nat, acceptedCount: nat, returnedCount: nat, publishedCount: nat, filteredCount: nat, error: string)

  datatype SourceBucket = SourceBucket(source: string, entries: seq<Entry>)

  datatype Collection = Collection(
    marked: seq<Entry>, buckets: seq<SourceBucket>, stats: seq<SourceStats>, lastError: Contracts.Option<string>)

  const NOTHING := Collection([], [], [], Contracts.None)

  function StatsOf(source: string, strategy: string, found: nat, intake: Intake): SourceStats {
    var accepted := |Chosen(intake)|;
    var status := if found == 0 || accepted == 0 then Empty else OK;
    SourceStats(source, strategy, status, found, accepted, 0, 0, FilteredCount(intake), "")
  }

  /** Adds the answer of one source to the collection. */
  function Gather(all: Collection, source: string, strategy: string, outcome: Outcome): Collection {
    match outcome
    case Failed(error) =>
      all.(stats := all.stats + [SourceStats(source, strategy, Broken, 0, 0, 0, 0, 0, error)],
           lastError := Contracts.Some(error))
    case Found(entries) =>
      var intake := TakeAll(all.marked, entries);
      var bucket := SourceBucket(source, Sorting.StableSort(Chosen(intake), Above));
      all.(marked := intake.marked,
           buckets := if bucket.entries == [] then all.buckets else all.buckets + [bucket],
           stats := all.stats + [StatsOf(source, strategy, |entries|, intake)])
  }

  datatype SurveyRecord = Survey(sources: seq<string>, strategies: string -> string, outcomes: seq<Outcome>)

  /** The sources asked, their strategies, and what each of them answered. */
  type Survey = survey: SurveyRecord | |survey.sources| == |survey.outcomes| witness Survey([], _ => "", [])

  /** What the first `n` sources give. */
  function Gathered(survey: Survey, n: nat): Collection
    requires n <= |survey.sources|
  {
    if n == 0 then NOTHING else
      var source := survey.sources[n - 1];
      Gather(Gathered(survey, n - 1), source, survey.strategies(source), survey.outcomes[n - 1])
  }

  function Lists(buckets: seq<SourceBucket>): (r: seq<seq<Entry>>)
    ensures |r| == |buckets|
  {
    seq(|buckets|, b requires 0 <= b < |buckets| => buckets[b].entries)
  }

  function Delivered(buckets: seq<SourceBucket>, limit: int): seq<Entry> {
    if limit <= 0 then [] else Slices.First(Interleaved(Lists(buckets)), limit)
  }

  // ----- Deduplication across sources -----

  /** No two of the entries share a key. */
  ghost predicate Unrelated(entries: seq<Entry>) {
    forall i, j :: 0 <= i < j < |entries| ==> !SharesKey(entries[i], entries[j])
  }

  lemma SharesKeyIsSymmetric(a: Entry, b: Entry)
    ensures SharesKey(a, b) ==> SharesKey(b, a)
  {
    if key :| key in a.keys && key in b.keys {
      assert key in b.keys && key in a.keys;
    }
  }

  lemma RelatedToItself(e: Entry)
    ensures |e.keys| > 0 ==> SharesKey(e, e)
  {
    if |e.keys| > 0 {
      assert e.keys[0] in e.keys;
    }
  }

  /** `part` selects distinct entries, all with keys, from the positions of `marked` from `from` on. */
  ghost predicate SelectedFrom(part: seq<Entry>, marked: seq<Entry>, from: nat) {
    && from <= |marked| && SourceBalance.Distinguished(part)
    && forall e :: e in part ==> |e.keys| > 0 && e in marked[from..]
  }

  /** Marked entries are pairwise unrelated, and the kept ones are among those marked since `from`. */
  ghost predicate IntakeSound(intake: Intake, from: nat) {
    && Unrelated(intake.marked)
    && SelectedFrom(intake.relevant, intake.marked, from)
    && SelectedFrom(intake.irrelevant, intake.marked, from)
  }

  lemma SelectedGrows(part: seq<Entry>, marked: seq<Entry>, e: Entry, from: nat)
    requires SelectedFrom(part, marked, from)
    ensures SelectedFrom(part, marked + [e], from)
  {
    assert (marked + [e])[from..] == marked[from..] + [e];
  }

  lemma SelectedSnoc(part: seq<Entry>, marked: seq<Entry>, e: Entry, from: nat)
    requires SelectedFrom(part, marked, from)
    requires |e.keys| > 0 && !IsDuplicate(marked, e)
    ensures SelectedFrom(part + [e], marked + [e], from)
  {
    assert (marked + [e])[from..] == marked[from..] + [e];
    RelatedToItself(e);
    assert e !in marked;
  }

  lemma UnrelatedSnoc(marked: seq<Entry>, e: Entry)
    requires Unrelated(marked) && !IsDuplicate(marked, e)
    ensures Unrelated(marked + [e])
  {
    forall i | 0 <= i < |marked| ensures !SharesKey(marked[i], e) {
      assert marked[i] in marked;
    }
  }

  lemma TakeIsSound(intake: Intake, e: Entry, from: nat)
    requires IntakeSound(intake, from) && (e.usable ==> |e.keys| > 0)
    ensures IntakeSound(Take(intake, e), from)
  {
    if e.usable && !IsDuplicate(intake.marked, e) {
      UnrelatedSnoc(intake.marked, e);
      SelectedGrows(intake.relevant, intake.marked, e, from);
      SelectedGrows(intake.irrelevant, intake.marked, e, from);
      SelectedSnoc(intake.relevant, intake.marked, e, from);
      SelectedSnoc(intake.irrelevant, intake.marked, e, from);
    }
  }

  ghost predicate Keyed(entries: seq<Entry>) {
    forall e :: e in entries && e.usable ==> |e.keys| > 0
  }

  lemma {:induction false} TakeAllIsSound(marked: seq<Entry>, found: seq<Entry>)
    requires Unrelated(marked) && Keyed(found)
    ensures IntakeSound(TakeAll(marked, found), |marked|)
    ensures marked <= TakeAll(marked, found).marked
  {
    if |found| > 0 {
      TakeAllIsSound(marked, found[..|found| - 1]);
      assert found[|found| - 1] in found;
      TakeIsSound(TakeAll(marked, found[..|found| - 1]), found[|found| - 1], |marked|);
    }
  }

  /** No entry is listed at two places. */
  ghost predicate PlacesDistinct(lists: seq<seq<Entry>>) {
    && (forall a :: 0 <= a < |lists| ==> SourceBalance.Distinguished(lists[a]))
    && (forall a, b :: 0 <= a < b < |lists| ==> Disjoint(lists[a], lists[b]))
  }

  ghost predicate Disjoint(xs: seq<Entry>, ys: seq<Entry>) {
    forall e :: e in xs ==> e !in ys
  }

  ghost predicate AllMarked(lists: seq<seq<Entry>>, marked: seq<Entry>) {
    forall a :: 0 <= a < |lists| ==> Within(lists[a], marked)
  }

  ghost predicate Within(xs: seq<Entry>, ys: seq<Entry>) {
    forall e :: e in xs ==> e in ys
  }

  ghost predicate Sound(all: Collection) {
    Unrelated(all.marked) && AllMarked(Lists(all.buckets), all.marked) && PlacesDistinct(Lists(all.buckets))
  }

  lemma AboveIsOrder()
    ensures Sorting.StrictWeak(Above)
  {
  }

  /** Sorting a bucket keeps its entries, at distinct places. */
  lemma SortedSelection(part: seq<Entry>, marked: seq<Entry>, from: nat)
    requires SelectedFrom(part, marked, from)
    ensures SelectedFrom(Sorting.StableSort(part, Above), marked, from)
  {
    AboveIsOrder();
    Sorting.StableSortSorts(part, Above);
    Sorting.StableSortKeepsDistinct(part, Above);
  }

  /** What is marked later is new. */
  lemma LaterIsNew(marked: seq<Entry>, from: nat, e: Entry)
    requires from <= |marked| && Unrelated(marked) && |e.keys| > 0 && e in marked[from..]
    ensures e !in marked[..from]
  {
    var p :| 0 <= p < |marked| - from && marked[from..][p] == e;
    RelatedToItself(e);
    forall q | 0 <= q < from ensures marked[q] != e {
      assert !SharesKey(marked[q], marked[from + p]);
    }
  }

  lemma AddBucket(all: Collection, marked: seq<Entry>, bucket: SourceBucket)
    requires Sound(all) && all.marked <= marked && Unrelated(marked)
    requires SelectedFrom(bucket.entries, marked, |all.marked|)
    ensures AllMarked(Lists(all.buckets + [bucket]), marked)
    ensures PlacesDistinct(Lists(all.buckets + [bucket]))
  {
    var before, lists := Lists(all.buckets), Lists(all.buckets + [bucket]);
    assert lists == before + [bucket.entries];
    forall e | e in bucket.entries ensures e in marked && e !in all.marked {
      LaterIsNew(marked, |all.marked|, e);
      assert marked[..|all.marked|] == all.marked;
    }
    assert Within(all.marked, marked);
    forall a | 0 <= a < |before| ensures Within(before[a], marked) && Disjoint(before[a], bucket.entries) {
      assert Within(before[a], all.marked);
    }
    assert Within(bucket.entries, marked);
  }

  lemma MarkedGrows(lists: seq<seq<Entry>>, marked: seq<Entry>, more: seq<Entry>)
    requires AllMarked(lists, marked) && marked <= more
    ensures AllMarked(lists, more)
  {
    assert Within(marked, more);
    forall a | 0 <= a < |lists| ensures Within(lists[a], more) {
      assert Within(lists[a], marked);
    }
  }

  lemma GatherIsSound(all: Collection, source: string, strategy: string, outcome: Outcome)
    requires Sound(all) && (outcome.Found? ==> Keyed(outcome.entries))
    ensures Sound(Gather(all, source, strategy, outcome))
    ensures all.marked <= Gather(all, source, strategy, outcome).marked
  {
    if outcome.Found? {
      var intake := TakeAll(all.marked, outcome.entries);
      TakeAllIsSound(all.marked, outcome.entries);
      SortedSelection(Chosen(intake), intake.marked, |all.marked|);
      AddBucket(all, intake.marked, SourceBucket(source, Sorting.StableSort(Chosen(intake), Above)));
      MarkedGrows(Lists(all.buckets), all.marked, intake.marked);
    }
  }

  /** Every usable entry of the survey has keys. */
  ghost predicate AllKeyed(survey: Survey)
  {
    forall k :: 0 <= k < |survey.sources| && survey.outcomes[k].Found? ==> Keyed(survey.outcomes[k].entries)
  }

  lemma {:induction false} GatheredIsSound(survey: Survey, n: nat)
    requires n <= |survey.sources| && AllKeyed(survey)
    ensures Sound(Gathered(survey, n))
  {
    if n > 0 {
      var source := survey.sources[n - 1];
      GatheredIsSound(survey, n - 1);
      GatherIsSound(Gathered(survey, n - 1), source, survey.strategies(source), survey.outcomes[n - 1]);
    }
  }

  /** Where a delivered entry comes from. */
  lemma DeliveredFrom(buckets: seq<SourceBucket>, limit: int, i: nat) returns (c: Cell)
    requires i < |Delivered(buckets, limit)|
    ensures i < |Cells(Sizes(Lists(buckets)))| && c == Cells(Sizes(Lists(buckets)))[i]
    ensures c.bucket < |buckets| && c.index < |buckets[c.bucket].entries|
    ensures Delivered(buckets, limit)[i] == buckets[c.bucket].entries[c.index]
  {
    c := Cells(Sizes(Lists(buckets)))[i];
    CellsExist(Lists(buckets));
  }

  lemma DeliveredPrefix(buckets: seq<SourceBucket>, limit: int) returns (n: nat)
    ensures n <= |Interleaved(Lists(buckets))|
    ensures Delivered(buckets, limit) == Interleaved(Lists(buckets))[..n]
  {
    var r := Interleaved(Lists(buckets));
    n := if limit <= 0 then 0 else if limit <= |r| then limit else |r|;
  }

  /** The delivered entries, over all sources, share no keys with each other. */
  lemma DeliveredAreUnrelated(all: Collection, limit: int)
    requires Sound(all)
    ensures Unrelated(Delivered(all.buckets, limit))
  {
    var lists, r := Lists(all.buckets), Delivered(all.buckets, limit);
    CellsAreAll(Sizes(lists));
    forall i, j | 0 <= i < j < |r| ensures !SharesKey(r[i], r[j]) {
      var c := DeliveredFrom(all.buckets, limit, i);
      var d := DeliveredFrom(all.buckets, limit, j);
      assert Earlier(c, d);
      DifferentPlaces(all, c, d);
      UnrelatedElements(all.marked, r[i], r[j]);
    }
  }

  lemma DeliveredAreMarked(all: Collection, limit: int, i: nat)
    requires Sound(all) && i < |Delivered(all.buckets, limit)|
    ensures Delivered(all.buckets, limit)[i] in all.marked
  {
    var lists := Lists(all.buckets);
    var c := DeliveredFrom(all.buckets, limit, i);
    assert Within(lists[c.bucket], all.marked);
    assert lists[c.bucket][c.index] in lists[c.bucket];
  }

  lemma DifferentPlaces(all: Collection, c: Cell, d: Cell)
    requires Sound(all) && c != d
    requires c.bucket < |all.buckets| && c.index < |all.buckets[c.bucket].entries|
    requires d.bucket < |all.buckets| && d.index < |all.buckets[d.bucket].entries|
    ensures var x, y := all.buckets[c.bucket].entries[c.index], all.buckets[d.bucket].entries[d.index];
            x != y && x in all.marked && y in all.marked
  {
    var lists := Lists(all.buckets);
    var x, y := lists[c.bucket][c.index], lists[d.bucket][d.index];
    assert Within(lists[c.bucket], all.marked) && Within(lists[d.bucket], all.marked);
    assert x in lists[c.bucket] && y in lists[d.bucket];
    if c.bucket < d.bucket {
      assert Disjoint(lists[c.bucket], lists[d.bucket]);
    } else if d.bucket < c.bucket {
      assert Disjoint(lists[d.bucket], lists[c.bucket]);
    } else {
      assert SourceBalance.Distinguished(lists[c.bucket]);
    }
  }

  lemma UnrelatedElements(marked: seq<Entry>, x: Entry, y: Entry)
    requires Unrelated(marked) && x in marked && y in marked && x != y
    ensures !SharesKey(x, y)
  {
    var p :| 0 <= p < |marked| && marked[p] == x;
    var q :| 0 <= q < |marked| && marked[q] == y;
    SharesKeyIsSymmetric(x, y);
  }

  // ----- What is dropped as a duplicate -----

  /** A candidate found: number `index` of source number `source`. */
  datatype Place = Place(source: nat, index: nat)

  function EntriesFound(outcome: Outcome): seq<Entry> {
    if outcome.Found? then outcome.entries else []
  }

  ghost predicate IsPlace(survey: Survey, p: Place)
  {
    p.source < |survey.sources| && p.index < |EntriesFound(survey.outcomes[p.source])|
  }

  function EntryAt(survey: Survey, p: Place): Entry
    requires IsPlace(survey, p)
  {
    EntriesFound(survey.outcomes[p.source])[p.index]
  }

  /** The order in which candidates are looked at: source by source. */
  ghost predicate LookedAtBefore(p: Place, q: Place) {
    p.source < q.source || (p.source == q.source && p.index < q.index)
  }

  /** What has been marked when the first `i` candidates of source number `k` have been looked at. */
  function MarkedUpTo(survey: Survey, k: nat, i: nat): seq<Entry>
    requires k < |survey.sources| && i <= |EntriesFound(survey.outcomes[k])|
  {
    TakeAll(Gathered(survey, k).marked, EntriesFound(survey.outcomes[k])[..i]).marked
  }

  /** The candidate was marked when it was looked at. */
  ghost predicate Marked(survey: Survey, p: Place)
    requires IsPlace(survey, p)
  {
    EntryAt(survey, p).usable && !IsDuplicate(MarkedUpTo(survey, p.source, p.index), EntryAt(survey, p))
  }

  lemma MarkedNext(survey: Survey, p: Place)
    requires IsPlace(survey, p)
    ensures MarkedUpTo(survey, p.source, p.index + 1) ==
            MarkedUpTo(survey, p.source, p.index) + if Marked(survey, p) then [EntryAt(survey, p)] else []
  {
    var found := EntriesFound(survey.outcomes[p.source]);
    assert found[..p.index + 1][..p.index] == found[..p.index];
  }

  /** A source starts with what the sources before it have marked. */
  lemma MarkedCarriesOver(survey: Survey, k: nat)
    requires k < |survey.sources|
    ensures MarkedUpTo(survey, k, 0) == Gathered(survey, k).marked
    ensures MarkedUpTo(survey, k, |EntriesFound(survey.outcomes[k])|) == Gathered(survey, k + 1).marked
  {
    var found := EntriesFound(survey.outcomes[k]);
    assert found[..|found|] == found && found[..0] == [];
  }

  lemma NextSource(survey: Survey, k: nat)
    requires k < |survey.sources|
    ensures MarkedUpTo(survey, k, 0) ==
            if k == 0 then [] else MarkedUpTo(survey, k - 1, |EntriesFound(survey.outcomes[k - 1])|)
  {
    MarkedCarriesOver(survey, k);
    if k > 0 {
      MarkedCarriesOver(survey, k - 1);
    }
  }

  /** The candidate at `p` was marked, as the entry `m`. */
  ghost predicate MarkedAs(survey: Survey, p: Place, m: Entry)
  {
    IsPlace(survey, p) && Marked(survey, p) && EntryAt(survey, p) == m
  }

  /** The last candidate looked at either was marked as `m`, or `m` was marked before it. */
  lemma LastLookedAt(survey: Survey, p: Place, m: Entry)
    requires IsPlace(survey, p)
    ensures m in MarkedUpTo(survey, p.source, p.index + 1) <==>
            m in MarkedUpTo(survey, p.source, p.index) || MarkedAs(survey, p, m)
  {
    MarkedNext(survey, p);
  }

  /** Whatever is marked was marked at some place before. */
  lemma {:induction false} PlaceOf(survey: Survey, k: nat, i: nat, m: Entry) returns (p: Place)
    requires k < |survey.sources| && i <= |EntriesFound(survey.outcomes[k])|
    requires m in MarkedUpTo(survey, k, i)
    ensures LookedAtBefore(p, Place(k, i)) && MarkedAs(survey, p, m)
    decreases k, i + 1
  {
    if i > 0 {
      p := Place(k, i - 1);
      LastLookedAt(survey, p, m);
      if !MarkedAs(survey, p, m) {
        p := PlaceOf(survey, k, i - 1, m);
      }
    } else {
      p := PlaceInEarlierSource(survey, k, m);
    }
  }

  lemma {:induction false} PlaceInEarlierSource(survey: Survey, k: nat, m: Entry) returns (p: Place)
    requires k < |survey.sources| && m in MarkedUpTo(survey, k, 0)
    ensures p.source < k && MarkedAs(survey, p, m)
    decreases k, 0
  {
    NextSource(survey, k);
    p := PlaceOf(survey, k - 1, |EntriesFound(survey.outcomes[k - 1])|, m);
  }

  /** What was marked at a place stays marked. */
  lemma {:induction false} StaysMarked(survey: Survey, p: Place, m: Entry, k: nat, i: nat)
    requires k < |survey.sources| && i <= |EntriesFound(survey.outcomes[k])|
    requires LookedAtBefore(p, Place(k, i)) && MarkedAs(survey, p, m)
    ensures m in MarkedUpTo(survey, k, i)
    decreases k, i + 1
  {
    if i > 0 {
      LastLookedAt(survey, Place(k, i - 1), m);
      if p != Place(k, i - 1) {
        StaysMarked(survey, p, m, k, i - 1);
      }
    } else {
      StaysMarkedLater(survey, p, m, k);
    }
  }

  lemma {:induction false} StaysMarkedLater(survey: Survey, p: Place, m: Entry, k: nat)
    requires p.source < k < |survey.sources| && MarkedAs(survey, p, m)
    ensures m in MarkedUpTo(survey, k, 0)
    decreases k, 0
  {
    NextSource(survey, k);
    StaysMarked(survey, p, m, k - 1, |EntriesFound(survey.outcomes[k - 1])|);
  }

  /** A candidate marked before `q`, in an earlier source or earlier in the same one, shares a key with it. */
  ghost predicate HasEarlierTwin(survey: Survey, q: Place)
    requires IsPlace(survey, q)
  {
    exists p, m :: LookedAtBefore(p, q) && MarkedAs(survey, p, m) && SharesKey(m, EntryAt(survey, q))
  }

  /** A usable candidate is marked if and only if no candidate marked before it shares a key with it. */
  lemma MarkedUnlessEarlierTwin(survey: Survey, q: Place)
    requires IsPlace(survey, q) && EntryAt(survey, q).usable
    ensures Marked(survey, q) <==> !HasEarlierTwin(survey, q)
  {
    var before := MarkedUpTo(survey, q.source, q.index);
    if !Marked(survey, q) {
      var m :| m in before && SharesKey(m, EntryAt(survey, q));
      var p := PlaceOf(survey, q.source, q.index, m);
    }
    if HasEarlierTwin(survey, q) {
      var p, m :| LookedAtBefore(p, q) && MarkedAs(survey, p, m) && SharesKey(m, EntryAt(survey, q));
      StaysMarked(survey, p, m, q.source, q.index);
    }
  }

  lemma MarkedWithTheLast(survey: Survey, k: nat, m: Entry)
    requires k + 1 == |survey.sources|
    ensures m in Gathered(survey, k + 1).marked <==> exists p :: MarkedAs(survey, p, m)
  {
    var last := |EntriesFound(survey.outcomes[k])|;
    MarkedCarriesOver(survey, k);
    if m in MarkedUpTo(survey, k, last) {
      var p := PlaceOf(survey, k, last, m);
    }
    if p :| MarkedAs(survey, p, m) {
      StaysMarked(survey, p, m, k, last);
    }
  }

  /** In the end exactly the candidates marked at some place are marked. */
  lemma MarkedInTheEnd(survey: Survey, m: Entry)
    ensures m in Gathered(survey, |survey.sources|).marked <==> exists p :: MarkedAs(survey, p, m)
  {
    if |survey.sources| > 0 {
      MarkedWithTheLast(survey, |survey.sources| - 1, m);
    }
  }

  // ----- Fairness -----

  /** As many candidates as wanted and available are delivered, and a smaller limit delivers a prefix. */
  lemma DeliveredCount(buckets: seq<SourceBucket>, limit: nat, larger: nat)
    requires limit <= larger
    ensures var total := Sum(Sizes(Lists(buckets)));
            |Delivered(buckets, limit)| == if limit < total then limit else total
    ensures Delivered(buckets, limit) <= Delivered(buckets, larger)
  {
    InterleavedCount(Lists(buckets));
  }

  /** Every bucket delivers its best entries, and no bucket is more than one ahead of another one that has more. */
  lemma DeliveredSharesAreFair(buckets: seq<SourceBucket>, limit: nat, a: nat, b: nat)
    requires a < |buckets| && b < |buckets|
    ensures var delivered := Delivered(buckets, limit);
            var cells := Cells(Sizes(Lists(buckets)))[..|delivered|];
            var ours, theirs := Share(cells, a), Share(cells, b);
            && AllExist(Lists(buckets), cells) && delivered == Pick(Lists(buckets), cells)
            && (forall k :: 0 <= k < |ours| ==> ours[k] == k)
            && (|ours| == |buckets[a].entries| || |ours| >= |theirs| - 1)
  {
    var n := DeliveredPrefix(buckets, limit);
    ShareIsPrefix(Sizes(Lists(buckets)), n, a);
    SharesAreFair(Sizes(Lists(buckets)), n, a, b);
    CellsExist(Lists(buckets));
  }

  ghost predicate BucketsSorted(buckets: seq<SourceBucket>) {
    forall b :: 0 <= b < |buckets| ==> Sorting.Sorted(buckets[b].entries, Above)
  }

  /** Every bucket is sorted: by relevance, then by date. */
  lemma {:induction false} BucketsAreSorted(survey: Survey, n: nat)
    requires n <= |survey.sources|
    ensures BucketsSorted(Gathered(survey, n).buckets)
  {
    if n > 0 {
      var before, outcome := Gathered(survey, n - 1), survey.outcomes[n - 1];
      BucketsAreSorted(survey, n - 1);
      if outcome.Found? {
        AboveIsOrder();
        Sorting.StableSortSorts(Chosen(TakeAll(before.marked, outcome.entries)), Above);
      }
    }
  }
}
