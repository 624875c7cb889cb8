/** Scoring and ranking of feed items (`Ranker`). */
module Ranking {
  import opened Contracts
  import opened Text
  import Reasons
  import Sorting
  import opened Diversify
  import Signals

  const DIVERSITY := "source_diversity"
  const HABR := "habr"

  // ----- Scores -----

  function QueryTerms(queryText: string): seq<string> {
    Fields(ToLower(queryText))
  }

  function SearchText(item: FeedItem): string {
    ToLower(item.title + " " + item.summary + " " + Join(item.tags, " "))
  }

  /** The terms found in the item's text, repeated terms included. */
  function Matched(text: string, terms: seq<string>): (r: seq<string>)
    ensures |r| <= |terms|
  {
    if |terms| == 0 then [] else
      var front, last := Matched(text, terms[..|terms| - 1]), terms[|terms| - 1];
      if Contains(text, last) then front + [last] else front
  }

  function MatchReasons(matched: seq<string>): (r: seq<string>)
    ensures |r| == |matched|
  {
    seq(|matched|, i requires 0 <= i < |matched| => "query_match:" + matched[i])
  }

  /** Twenty points when published this instant or later, halved at the age of a day. */
  function Freshness(now: Time, publishedAt: Time): (r: real)
    ensures 0.0 < r <= 20.0
  {
    var age := Sub(now, publishedAt) as real / NANOS_PER_HOUR as real;
    20.0 / (1.0 + (if age < 0.0 then 0.0 else age) / 24.0)
  }

  /** The later of two items is never scored less fresh; a day-old one gets half of what one published now gets. */
  lemma FreshnessFades(now: Time, newer: Time, older: Time)
    requires older <= newer
    ensures Freshness(now, older) <= Freshness(now, newer)
    ensures newer >= now ==> Freshness(now, newer) == 20.0
    ensures now - older == 24 * NANOS_PER_HOUR ==> Freshness(now, older) == 10.0
  {
    QuotientGrows(Sub(now, newer), Sub(now, older));
    var a, b := Sub(now, newer) as real / NANOS_PER_HOUR as real, Sub(now, older) as real / NANOS_PER_HOUR as real;
    QuotientFalls(1.0 + (if a < 0.0 then 0.0 else a) / 24.0, 1.0 + (if b < 0.0 then 0.0 else b) / 24.0);
  }

  lemma QuotientGrows(a: int, b: int)
    ensures a <= b ==> a as real / NANOS_PER_HOUR as real <= b as real / NANOS_PER_HOUR as real
  {
  }

  lemma QuotientFalls(a: real, b: real)
    requires 0.0 < a <= b
    ensures 20.0 / b <= 20.0 / a
  {
    assert 20.0 / b * a <= 20.0 / b * b == 20.0 == 20.0 / a * a;
  }

  function BaseScore(terms: seq<string>, now: Time, item: FeedItem): real {
    10.0 * |Matched(SearchText(item), terms)| as real +
    (if item.sourceName == HABR then 3.0 else 0.0) +
    (if item.publishedAt == ZERO_TIME then 0.0 else Freshness(now, item.publishedAt))
  }

  function ScoreOf(signals: Option<Signals.Memory>, terms: seq<string>, now: Time, item: FeedItem): real {
    match signals
    case None => BaseScore(terms, now, item)
    case Some(m) => Signals.Applied(m, BaseScore(terms, now, item), Signals.TraitsOf(item))
  }

  /** The reasons before compaction. */
  function RawReasons(signals: Option<Signals.Memory>, terms: seq<string>, now: Time, item: FeedItem): seq<string> {
    MatchReasons(Matched(SearchText(item), terms)) +
    (if item.sourceName == HABR then ["source_boost:habr"] else []) +
    (if item.publishedAt == ZERO_TIME then [] else ["freshness"]) +
    (if ScoreOf(signals, terms, now, item) != BaseScore(terms, now, item) then ["reaction_signals"] else [])
  }

  function Scored(signals: Option<Signals.Memory>, terms: seq<string>, now: Time, item: FeedItem): FeedItem {
    item.(score := ScoreOf(signals, terms, now, item),
          scoreReasons := Reasons.Compacted(RawReasons(signals, terms, now, item)))
  }

  // ----- Diversification of items -----

  predicate HigherScore(a: FeedItem, b: FeedItem) {
    a.score > b.score
  }

  function SlotsOf(items: seq<FeedItem>): (slots: seq<Slot>)
    ensures |slots| == |items|
    ensures Fresh(slots)
  {
    seq(|items|, i requires 0 <= i < |items| => Slot(NormalizedSource(items[i].sourceName), items[i].score, i, false))
  }

  function WithReason(item: FeedItem): FeedItem {
    item.(scoreReasons := Reasons.Compacted(item.scoreReasons + [DIVERSITY]))
  }

  function Emit(items: seq<FeedItem>, slot: Slot): FeedItem
    requires slot.rank < |items|
  {
    if slot.promoted then WithReason(items[slot.rank]) else items[slot.rank]
  }

  function EmitAll(items: seq<FeedItem>, slots: seq<Slot>): (r: seq<FeedItem>)
    requires forall i :: 0 <= i < |slots| ==> slots[i].rank < |items|
    ensures |r| == |slots|
  {
    seq(|slots|, i requires 0 <= i < |slots| => Emit(items, slots[i]))
  }

  /** Where the items of a list go. */
  function Plan(items: seq<FeedItem>): (slots: seq<Slot>)
    ensures |slots| == |items|
    ensures forall i :: 0 <= i < |slots| ==> slots[i].rank < |items|
  {
    IsPermutation(SlotsOf(items));
    DiversifyFrom(SlotsOf(items), 1)
  }

  function Diversified(items: seq<FeedItem>): (r: seq<FeedItem>)
    ensures |r| == |items|
  {
    EmitAll(items, Plan(items))
  }

  /** Lists of fewer than three items are no special case. */
  lemma ShortListsUnchanged(items: seq<FeedItem>)
    requires |items| < 3
    ensures Diversified(items) == items
  {
    var slots := SlotsOf(items);
    forall i: nat | i < |slots| ensures Settled(slots, i) {
    }
    SettledIsFixed(slots, 1);
  }

  lemma PlanHolds(items: seq<FeedItem>, i: nat)
    requires i < |items|
    ensures var slot := Plan(items)[i];
            && slot.source == NormalizedSource(items[slot.rank].sourceName)
            && slot.score == items[slot.rank].score
            && Diversified(items)[i].sourceName == items[slot.rank].sourceName
            && Diversified(items)[i].score == slot.score
  {
    IsPermutation(SlotsOf(items));
    assert HoldsAt(Plan(items)[i], SlotsOf(items));
  }

  /** Diversifying a list a second time changes nothing, reasons included, whatever the list. */
  lemma DiversifyIsIdempotent(items: seq<FeedItem>)
    ensures Diversified(Diversified(items)) == Diversified(items)
  {
    var once := Diversified(items);
    var plan, slots := Plan(items), SlotsOf(once);
    forall i: nat | i < |once| ensures slots[i].source == plan[i].source && slots[i].score == plan[i].score {
      PlanHolds(items, i);
    }
    forall i: nat | i < |slots| ensures Settled(slots, i) {
      forall j | 0 < i < j < |slots| && Clash(slots[i - 1], slots[i]) ensures !Eligible(slots[j], slots[i]) {
        IsMaximal(SlotsOf(items), i, j);
      }
    }
    SettledIsFixed(slots, 1);
  }

  /** The array shows the slots: at every position the item, source and score that the slot stands for. */
  ghost predicate Shows(a: seq<FeedItem>, slots: seq<Slot>, items: seq<FeedItem>) {
    && |a| == |slots|
    && forall i :: 0 <= i < |a| ==> ShowsAt(a[i], slots[i], items)
  }

  ghost predicate ShowsAt(item: FeedItem, slot: Slot, items: seq<FeedItem>) {
    && slot.rank < |items| && item == Emit(items, slot)
    && slot.source == NormalizedSource(item.sourceName) && slot.score == item.score
  }

  /** `item` comes from another known source than `blocked` and scores at most five points less. */
  predicate MayOvertake(item: FeedItem, blocked: FeedItem) {
    && NormalizedSource(item.sourceName) != ""
    && NormalizedSource(item.sourceName) != NormalizedSource(blocked.sourceName)
    && item.score + 5.0 >= blocked.score
  }

  /** The first position from `index + 1` on whose item may be moved up to `index`, or the length. */
  method FindReplacement(a: array<FeedItem>, index: nat) returns (c: nat)
    requires index < a.Length
    ensures index < c <= a.Length
    ensures c < a.Length ==> MayOvertake(a[c], a[index])
    ensures forall k :: index < k < c ==> !MayOvertake(a[k], a[index])
  {
    var previousSource := NormalizedSource(a[index].sourceName);
    for candidateIndex := index + 1 to a.Length
      invariant forall k :: index < k < candidateIndex ==> !MayOvertake(a[k], a[index])
    {
      var candidateSource := NormalizedSource(a[candidateIndex].sourceName);
      if candidateSource == "" || candidateSource == previousSource {
        continue;
      }
      if a[candidateIndex].score + 5.0 < a[index].score {
        continue;
      }
      return candidateIndex;
    }
    return a.Length;
  }

  /** So the slot found is the one that the rule promotes. */
  lemma ReplacementFound(a: seq<FeedItem>, slots: seq<Slot>, items: seq<FeedItem>, index: nat, c: nat)
    requires Shows(a, slots, items) && index < c <= |a|
    requires c < |a| ==> MayOvertake(a[c], a[index])
    requires forall k :: index < k < c ==> !MayOvertake(a[k], a[index])
    ensures c == Replacement(slots, slots[index], index + 1)
  {
    assert ShowsAt(a[index], slots[index], items);
    forall k | index <= k < |a| ensures MayOvertake(a[k], a[index]) == Eligible(slots[k], slots[index]) {
      assert ShowsAt(a[k], slots[k], items);
    }
    var r := Replacement(slots, slots[index], index + 1);
    assert r < |a| ==> MayOvertake(a[r], a[index]);
    assert c < |a| ==> Eligible(slots[c], slots[index]);
  }

  /** The item at `c` moves up to `index` and gets its reason; the items between move down by one. */
  method MoveUp(a: array<FeedItem>, index: nat, c: nat, ghost slots: seq<Slot>, ghost items: seq<FeedItem>)
    requires index < c < a.Length && Shows(a[..], slots, items) && !slots[c].promoted
    modifies a
    ensures Shows(a[..], Promote(slots, index, c), items)
  {
    ghost var before := a[..];
    assert ShowsAt(before[c], slots[c], items);
    var replacement := a[c];
    var reasons := Reasons.CompactReasons(replacement.scoreReasons + [DIVERSITY]);
    forall k | index < k <= c {
      a[k] := a[k - 1];
    }
    a[index] := replacement.(scoreReasons := reasons);
    forall i: nat | i < a.Length ensures ShowsAt(a[..][i], Promote(slots, index, c)[i], items) {
      PromoteOrigin(slots, index, c, i);
      assert ShowsAt(before[Origin(index, c, i)], slots[Origin(index, c, i)], items);
    }
  }

  /** One iteration of the outer loop. */
  method SettlePosition(a: array<FeedItem>, index: nat, ghost slots: seq<Slot>, ghost items: seq<FeedItem>)
    requires 1 <= index < a.Length && Shows(a[..], slots, items) && TailInOrder(slots, index)
    modifies a
    ensures Shows(a[..], Step(slots, index), items)
  {
    assert ShowsAt(a[..][index - 1], slots[index - 1], items) && ShowsAt(a[..][index], slots[index], items);
    var previousSource := NormalizedSource(a[index - 1].sourceName);
    var currentSource := NormalizedSource(a[index].sourceName);
    if previousSource == "" || currentSource == "" || previousSource != currentSource {
      return;
    }
    var replacementIndex := FindReplacement(a, index);
    ReplacementFound(a[..], slots, items, index, replacementIndex);
    if replacementIndex < a.Length {
      MoveUp(a, index, replacementIndex, slots, items);
    }
  }

  /** The outer loop. */
  method SettlePositions(a: array<FeedItem>, ghost items: seq<FeedItem>)
    requires a.Length == |items| && Shows(a[..], SlotsOf(items), items)
    modifies a
    ensures Shows(a[..], Plan(items), items)
  {
    ghost var original, out, slots := SlotsOf(items), Plan(items), SlotsOf(items);
    StartsOut(original);
    if a.Length == 0 {
      Arrives(original, out, slots, 1);
      return;
    }
    for index := 1 to a.Length
      invariant Shows(a[..], slots, items) && |slots| == a.Length
      invariant OnTheWay(original, out)(slots, index)
    {
      GoesOn(original, out, slots, index);
      SettlePosition(a, index, slots, items);
      slots := Step(slots, index);
    }
    Arrives(original, out, slots, a.Length);
  }

  method DiversifyRankedItems(items: seq<FeedItem>) returns (diversified: seq<FeedItem>)
    ensures diversified == Diversified(items)
  {
    if |items| < 3 {
      ShortListsUnchanged(items);
      return items;
    }
    var a := new FeedItem[|items|](i requires 0 <= i < |items| => items[i]);
    assert a[..] == items;
    SettlePositions(a, items);
    ShownIsEmitted(a[..], Plan(items), items);
    return a[..];
  }

  lemma ShownIsEmitted(a: seq<FeedItem>, slots: seq<Slot>, items: seq<FeedItem>)
    requires Shows(a, slots, items) && slots == Plan(items)
    ensures a == Diversified(items)
  {
    forall i | 0 <= i < |a| ensures a[i] == Diversified(items)[i] {
      assert ShowsAt(a[i], slots[i], items);
    }
  }

  // ----- Ranking -----

  /** Every item scored, in input order; `memories[i]` is what the signal store holds, if there is one, and `clock[i]`
      what the clock says when item `i` is scored. */
  function ScoredAll(memories: seq<Option<Signals.Memory>>, terms: seq<string>, clock: seq<Time>,
                     items: seq<FeedItem>): (r: seq<FeedItem>)
    requires |memories| == |clock| == |items|
    ensures |r| == |items|
  {
    seq(|items|, i requires 0 <= i < |items| => Scored(memories[i], terms, clock[i], items[i]))
  }

  function ByScore(scored: seq<FeedItem>): (r: seq<FeedItem>)
    ensures |r| == |scored|
  {
    Sorting.StableSort(scored, HigherScore)
  }

  function Ranked(memories: seq<Option<Signals.Memory>>, terms: seq<string>, clock: seq<Time>,
                  items: seq<FeedItem>): (r: seq<FeedItem>)
    requires |memories| == |clock| == |items|
    ensures |r| == |items|
  {
    Diversified(ByScore(ScoredAll(memories, terms, clock, items)))
  }

  function After(memory: Option<Signals.Memory>, events: seq<Signals.Event>): Option<Signals.Memory> {
    match memory
    case None => None
    case Some(m) => Some(Signals.ApplyAll(m, events))
  }

  /** What the store holds after the first `n` rounds of events. */
  function MemoryAfter(memory: Option<Signals.Memory>, rounds: seq<seq<Signals.Event>>, n: nat): Option<Signals.Memory>
    requires n <= |rounds|
  {
    if n == 0 then memory else After(MemoryAfter(memory, rounds, n - 1), rounds[n - 1])
  }

  function Memories(memory: Option<Signals.Memory>, rounds: seq<seq<Signals.Event>>): (r: seq<Option<Signals.Memory>>)
    ensures |r| == |rounds|
  {
    seq(|rounds|, i requires 0 <= i < |rounds| => MemoryAfter(memory, rounds, i + 1))
  }

  /** The loop over the query terms. */
  method MatchTerms(text: string, terms: seq<string>) returns (score: real, reasons: seq<string>)
    ensures score == 10.0 * |Matched(text, terms)| as real
    ensures reasons == MatchReasons(Matched(text, terms))
  {
    var sum, collected: seq<string> := 0.0, [];
    for i := 0 to |terms|
      invariant sum == 10.0 * |Matched(text, terms[..i])| as real
      invariant collected == MatchReasons(Matched(text, terms[..i]))
    {
      assert terms[..i + 1][..i] == terms[..i];
      if Contains(text, terms[i]) {
        sum := sum + 10.0;
        collected := collected + ["query_match:" + terms[i]];
      }
    }
    assert terms[..|terms|] == terms;
    return sum, collected;
  }

  /** The first `n` items have been scored, the others not. */
  ghost predicate ScoredUpTo(ranked: seq<FeedItem>, memory: Option<Signals.Memory>, others: seq<seq<Signals.Event>>,
                             terms: seq<string>, clock: seq<Time>, items: seq<FeedItem>, n: nat)
    requires |clock| == |others| == |items|
  {
    && |ranked| == |items|
    && (forall k :: 0 <= k < |items| && k < n ==>
          ranked[k] == Scored(MemoryAfter(memory, others, k + 1), terms, clock[k], items[k]))
    && (forall k :: n <= k < |items| ==> ranked[k] == items[k])
  }

  lemma ScoredNext(ranked: seq<FeedItem>, memory: Option<Signals.Memory>, others: seq<seq<Signals.Event>>,
                   terms: seq<string>, clock: seq<Time>, items: seq<FeedItem>, n: nat)
    requires |clock| == |others| == |items| && n < |items|
    requires ScoredUpTo(ranked, memory, others, terms, clock, items, n)
    ensures |ranked| == |items| && ranked[n] == items[n]
    ensures var after := After(MemoryAfter(memory, others, n), others[n]);
            var item := Scored(after, terms, clock[n], items[n]);
            after == MemoryAfter(memory, others, n + 1) &&
            ScoredUpTo(ranked[n := item], memory, others, terms, clock, items, n + 1)
  {
  }

  lemma ScoredUpToTheEnd(ranked: seq<FeedItem>, memory: Option<Signals.Memory>, others: seq<seq<Signals.Event>>,
                         terms: seq<string>, clock: seq<Time>, items: seq<FeedItem>)
    requires |clock| == |others| == |items|
    requires ScoredUpTo(ranked, memory, others, terms, clock, items, |items|)
    ensures ranked == ScoredAll(Memories(memory, others), terms, clock, items)
  {
  }

  class Ranker {
    const signals: Signals.SignalStore?

    constructor (signals: Signals.SignalStore?)
      ensures this.signals == signals
    {
      this.signals := signals;
    }

    /** What the ranker knows about reactions, if it has a signal store at all. */
    function Known(): Option<Signals.Memory>
      reads this, signals
    {
      if signals == null then None else Some(signals.Contents())
    }

    method ScoreWithReasons(terms: seq<string>, now: Time, item: FeedItem) returns (score: real, reasons: seq<string>)
      ensures score == ScoreOf(Known(), terms, now, item)
      ensures reasons == Reasons.Compacted(RawReasons(Known(), terms, now, item))
    {
      var sum, collected := MatchTerms(SearchText(item), terms);
      if item.sourceName == HABR {
        sum := sum + 3.0;
        collected := collected + ["source_boost:habr"];
      }
      if item.publishedAt != ZERO_TIME {
        sum := sum + Freshness(now, item.publishedAt);
        collected := collected + ["freshness"];
      }
      if signals != null {
        var beforeSignals := sum;
        sum := signals.ApplyToScore(sum, item);
        if sum != beforeSignals {
          collected := collected + ["reaction_signals"];
        }
      }
      assert collected == RawReasons(Known(), terms, now, item);
      reasons := Reasons.CompactReasons(collected);
      return sum, reasons;
    }

    /** One item, after these events of other requests. */
    method ScoreItem(terms: seq<string>, now: Time, others: seq<Signals.Event>, item: FeedItem)
      returns (scored: FeedItem)
      modifies if signals == null then {} else {signals}
      ensures Known() == After(old(Known()), others) && scored == Scored(Known(), terms, now, item)
    {
      if signals != null {
        signals.HandleAll(others);
      }
      var score, reasons := ScoreWithReasons(terms, now, item);
      scored := item.(score := score, scoreReasons := reasons);
    }

    /** One iteration of the loop over the items. */
    method ScoreNext(scored: seq<FeedItem>, ghost memory: Option<Signals.Memory>, others: seq<seq<Signals.Event>>,
                     terms: seq<string>, clock: seq<Time>, items: seq<FeedItem>, i: nat)
      returns (next: seq<FeedItem>)
      requires |clock| == |others| == |items| && i < |items|
      requires Known() == MemoryAfter(memory, others, i) && ScoredUpTo(scored, memory, others, terms, clock, items, i)
      modifies if signals == null then {} else {signals}
      ensures Known() == MemoryAfter(memory, others, i + 1)
      ensures ScoredUpTo(next, memory, others, terms, clock, items, i + 1)
    {
      ScoredNext(scored, memory, others, terms, clock, items, i);
      var item := ScoreItem(terms, clock[i], others[i], scored[i]);
      next := scored[i := item];
    }

    /** The loop over the items. Other requests get at the store between any two of them: `others[i]` are their events
        since item `i - 1`. */
    method ScoreItems(terms: seq<string>, clock: seq<Time>, others: seq<seq<Signals.Event>>, items: seq<FeedItem>)
      returns (ranked: seq<FeedItem>)
      requires |clock| == |others| == |items|
      modifies if signals == null then {} else {signals}
      ensures ScoredUpTo(ranked, old(Known()), others, terms, clock, items, |items|)
    {
      var scored := items;
      ghost var memory := Known();
      for i := 0 to |items|
        invariant Known() == MemoryAfter(memory, others, i)
        invariant ScoredUpTo(scored, memory, others, terms, clock, items, i)
      {
        scored := ScoreNext(scored, memory, others, terms, clock, items, i);
      }
      return scored;
    }

    method Rank(queryText: string, clock: seq<Time>, others: seq<seq<Signals.Event>>, items: seq<FeedItem>)
      returns (ranked: seq<FeedItem>)
      requires |clock| == |others| == |items|
      modifies if signals == null then {} else {signals}
      ensures ranked == Ranked(Memories(old(Known()), others), QueryTerms(queryText), clock, items)
    {
      ghost var memory := Known();
      ranked := ScoreItems(QueryTerms(queryText), clock, others, items);
      ScoredUpToTheEnd(ranked, memory, others, QueryTerms(queryText), clock, items);
      ranked := ByScore(ranked);
      ranked := DiversifyRankedItems(ranked);
    }
  }

  // ----- What ranking guarantees -----

  lemma HigherScoreIsOrder()
    ensures Sorting.StrictWeak(HigherScore)
  {
  }

  /** The position in `scored` of the item that ends up at position `i`. */
  function InputPosition(scored: seq<FeedItem>, i: nat): (p: nat)
    requires i < |scored|
    ensures p < |scored|
  {
    Sorting.Order(scored, HigherScore)[Plan(ByScore(scored))[i].rank]
  }

  /** No item is lost, duplicated or altered, but for the reason added to promoted ones. */
  lemma RankIsPermutation(scored: seq<FeedItem>)
    ensures var out := Diversified(ByScore(scored));
            && (forall i, j :: 0 <= i < j < |out| ==> InputPosition(scored, i) != InputPosition(scored, j))
            && (forall i :: 0 <= i < |out| ==>
                 out[i] == scored[InputPosition(scored, i)] || out[i] == WithReason(scored[InputPosition(scored, i)]))
  {
    var sorted := ByScore(scored);
    IsPermutation(SlotsOf(sorted));
    HigherScoreIsOrder();
    Sorting.OrderIsInjective(scored, HigherScore);
    var plan := Plan(sorted);
    forall i: nat, j: nat | i < j < |sorted| ensures InputPosition(scored, i) != InputPosition(scored, j) {
      assert plan[i].rank != plan[j].rank;
    }
  }

  /** The position of an output item in the list as sorted by score. */
  function SortedRank(scored: seq<FeedItem>, i: nat): (p: nat)
    requires i < |scored|
    ensures p < |scored|
  {
    Plan(ByScore(scored))[i].rank
  }

  lemma SortedDescends(scored: seq<FeedItem>)
    ensures Descending(SlotsOf(ByScore(scored)), 0)
  {
    HigherScoreIsOrder();
    Sorting.StableSortSorts(scored, HigherScore);
    var sorted := ByScore(scored);
    forall i, j | 0 <= i < j < |sorted| ensures sorted[i].score >= sorted[j].score {
      assert !HigherScore(sorted[j], sorted[i]);
    }
  }

  /** An item overtakes better ones only within five points. */
  lemma RankBoundsInversions(scored: seq<FeedItem>, i: nat, j: nat)
    requires i < j < |scored|
    ensures var out := Diversified(ByScore(scored)); out[j].score <= out[i].score + 5.0
  {
    var sorted := ByScore(scored);
    SortedDescends(scored);
    RespectsScores(SlotsOf(sorted));
    PlanHolds(sorted, i);
    PlanHolds(sorted, j);
  }

  /** Items of one source, blank included, come by score, and in input order where scores are equal. */
  lemma RankKeepsSourceOrder(scored: seq<FeedItem>, i: nat, j: nat)
    requires i < j < |scored|
    ensures var out := Diversified(ByScore(scored));
            NormalizedSource(out[i].sourceName) == NormalizedSource(out[j].sourceName) ==>
            Sorting.Ahead(scored, HigherScore, InputPosition(scored, i), InputPosition(scored, j))
  {
    var sorted := ByScore(scored);
    SortedDescends(scored);
    RespectsScores(SlotsOf(sorted));
    PlanHolds(sorted, i);
    PlanHolds(sorted, j);
    HigherScoreIsOrder();
    Sorting.OrderIsStable(scored, HigherScore);
  }

  /** No item falls from sorted rank p beyond position 2p. */
  lemma RankBoundsDisplacement(scored: seq<FeedItem>, i: nat)
    requires i < |scored|
    ensures i <= 2 * SortedRank(scored, i)
  {
    DisplacementIsBounded(SlotsOf(ByScore(scored)), i);
  }

  /** Ranking leaves nothing for diversification to do. */
  lemma RankIsSettled(scored: seq<FeedItem>)
    ensures var out := Diversified(ByScore(scored)); Diversified(out) == out
  {
    DiversifyIsIdempotent(ByScore(scored));
  }

  lemma ScoringReasonDiffers(reason: string)
    requires "query_match:" <= reason || reason == "source_boost:habr" || reason == "freshness" ||
             reason == "reaction_signals"
    ensures TrimSpace(reason) != DIVERSITY
  {
    var prefix := if "query_match:" <= reason then "query_match:" else reason;
    var k := if prefix == "source_boost:habr" then 7 else 0;
    TrimKeepsStart(reason, prefix);
    assert TrimSpace(reason)[k] == prefix[k] != DIVERSITY[k];
  }

  /** Scoring gives no reason that reads "source_diversity". */
  lemma ScoringReasons(signals: Option<Signals.Memory>, terms: seq<string>, now: Time, item: FeedItem)
    ensures DIVERSITY !in Scored(signals, terms, now, item).scoreReasons
  {
    var raw := RawReasons(signals, terms, now, item);
    Reasons.CompactedReasons(raw);
    forall i | 0 <= i < |raw| ensures TrimSpace(raw[i]) != DIVERSITY {
      RawReasonShape(signals, terms, now, item, i);
      ScoringReasonDiffers(raw[i]);
    }
  }

  lemma RawReasonShape(signals: Option<Signals.Memory>, terms: seq<string>, now: Time, item: FeedItem, i: nat)
    requires i < |RawReasons(signals, terms, now, item)|
    ensures var raw := RawReasons(signals, terms, now, item);
            "query_match:" <= raw[i] || raw[i] == "source_boost:habr" || raw[i] == "freshness" ||
            raw[i] == "reaction_signals"
  {
  }

  lemma TaggedReasons(reasons: seq<string>)
    ensures DIVERSITY in Reasons.Compacted(reasons + [DIVERSITY])
  {
    Reasons.CompactedReasons(reasons + [DIVERSITY]);
    TrimFixed(DIVERSITY);
    assert TrimSpace((reasons + [DIVERSITY])[|reasons|]) == DIVERSITY;
  }

  /** The reason "source_diversity" marks exactly the items placed ahead of one that sorted before them. */
  lemma RankMarksPromotions(memories: seq<Option<Signals.Memory>>, terms: seq<string>, clock: seq<Time>,
                            items: seq<FeedItem>, i: nat)
    requires |memories| == |clock| == |items| && i < |items|
    ensures var scored := ScoredAll(memories, terms, clock, items);
            DIVERSITY in Ranked(memories, terms, clock, items)[i].scoreReasons <==>
            exists j :: i < j < |items| && SortedRank(scored, j) < SortedRank(scored, i)
  {
    var scored := ScoredAll(memories, terms, clock, items);
    var plan, p := Plan(ByScore(scored)), InputPosition(scored, i);
    IsPermutation(SlotsOf(ByScore(scored)));
    ScoringReasons(memories[p], terms, clock[p], items[p]);
    TaggedReasons(scored[p].scoreReasons);
    if plan[i].promoted {
      var j :| i < j < |plan| && plan[j].rank < plan[i].rank;
      assert SortedRank(scored, j) < SortedRank(scored, i);
    }
  }
}
