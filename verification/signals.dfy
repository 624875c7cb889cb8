/** Reaction signals: what the ranking service learns from reactions (`SignalStore`). */
module Signals {
  import opened Contracts
  import opened Text
  import FirstSeen

  /** The distinct tags of an item, lower-cased and trimmed. */
  function NormalizedTags(tags: seq<string>): (r: seq<string>)
    ensures |r| <= |tags|
  {
    FirstSeen.Distinct(CleanTags(tags))
  }

  function CleanTags(tags: seq<string>): (r: seq<string>)
    ensures |r| == |tags|
  {
    seq(|tags|, i requires 0 <= i < |tags| => TrimSpace(ToLower(tags[i])))
  }

  method NormalizeTags(rawTags: seq<string>) returns (tags: seq<string>)
    ensures tags == NormalizedTags(rawTags)
  {
    ghost var clean := CleanTags(rawTags);
    var seen: set<string> := {};
    tags := [];
    for i := 0 to |rawTags|
      invariant tags == FirstSeen.DistinctTo(clean, i)
      invariant forall x :: x in seen <==> x in tags
    {
      var normalized := TrimSpace(ToLower(rawTags[i]));
      if normalized == "" || normalized in seen {
        continue;
      }
      seen := seen + {normalized};
      tags := tags + [normalized];
    }
  }

  datatype ReactionEvent = ReactionEvent(userID: string, articleID: string, kind: string, createdAt: Time)

  function Validate(event: ReactionEvent): Result<()> {
    if IsBlank(event.userID) then Err("user id is required")
    else if IsBlank(event.articleID) then Err("article id is required")
    else if IsBlank(event.kind) then Err("reaction type is required")
    else if event.createdAt == ZERO_TIME then Err("created at is required")
    else Ok(())
  }

  function ReactionWeight(kind: string): Result<real> {
    if kind == LIKE then Ok(4.0)
    else if kind == SAVE then Ok(8.0)
    else if kind == OPEN then Ok(1.0)
    else if kind == SKIP then Ok(-3.0)
    else if kind == DISLIKE then Ok(-8.0)
    else Err("unsupported reaction type: " + kind)
  }

  /** The weight of an event that is recorded, or why it is not. */
  function WeightOf(event: ReactionEvent): Result<real> {
    match Validate(event)
    case Err(error) => Err(error)
    case Ok(_) => ReactionWeight(event.kind)
  }

  /** The contents of the store. */
  datatype Memory = Memory(
    articleTags: map<string, seq<string>>,
    articleSources: map<string, string>,
    tagWeights: map<string, real>,
    sourceWeights: map<string, real>)

  const EMPTY := Memory(map[], map[], map[], map[])

  function Weight(weights: map<string, real>, key: string): real {
    if key in weights then weights[key] else 0.0
  }

  /** Every listed key gains `weight`. */
  function AddEach(weights: map<string, real>, keys: seq<string>, weight: real): map<string, real> {
    if |keys| == 0 then weights else
      var front := AddEach(weights, keys[..|keys| - 1], weight);
      var key := keys[|keys| - 1];
      front[key := Weight(front, key) + weight]
  }

  function Remember(m: Memory, item: FeedItem): Memory {
    if IsBlank(item.articleID) then m else
      var tags, source := NormalizedTags(item.tags), NormalizedSource(item.sourceName);
      m.(articleTags := if tags == [] then m.articleTags else m.articleTags[item.articleID := tags],
         articleSources := if source == "" then m.articleSources else m.articleSources[item.articleID := source])
  }

  function TagsOf(m: Memory, articleID: string): seq<string> {
    if articleID in m.articleTags then m.articleTags[articleID] else []
  }

  function SourceOf(m: Memory, articleID: string): string {
    if articleID in m.articleSources then m.articleSources[articleID] else ""
  }

  function Record(m: Memory, event: ReactionEvent): Memory {
    match WeightOf(event)
    case Err(_) => m
    case Ok(weight) => AddSignal(m, TagsOf(m, event.articleID), SourceOf(m, event.articleID), weight)
  }

  function AddSignal(m: Memory, tags: seq<string>, source: string, weight: real): Memory {
    m.(tagWeights := AddEach(m.tagWeights, tags, weight),
       sourceWeights := if source == "" then m.sourceWeights
                        else m.sourceWeights[source := Weight(m.sourceWeights, source) + weight / 2.0])
  }

  function WeightSum(weights: map<string, real>, keys: seq<string>): real {
    if |keys| == 0 then 0.0
    else WeightSum(weights, keys[..|keys| - 1]) + Weight(weights, keys[|keys| - 1])
  }

  /** The tags and the source by which an item meets the signals. */
  datatype Traits = Traits(tags: seq<string>, source: string)

  function TraitsOf(item: FeedItem): Traits {
    Traits(NormalizedTags(item.tags), NormalizedSource(item.sourceName))
  }

  /** The score with all signals added, before it is cut off at zero. */
  function Unclamped(m: Memory, base: real, traits: Traits): real {
    base + WeightSum(m.tagWeights, traits.tags) + SourceTerm(m, traits)
  }

  function SourceTerm(m: Memory, traits: Traits): real {
    if traits.source == "" then 0.0 else Weight(m.sourceWeights, traits.source)
  }

  function Applied(m: Memory, base: real, traits: Traits): real {
    if traits.tags == [] && traits.source == "" then base
    else if Unclamped(m, base, traits) < 0.0 then 0.0
    else Unclamped(m, base, traits)
  }

  datatype Event = Remembered(item: FeedItem) | Reacted(event: ReactionEvent)

  function Apply(m: Memory, e: Event): Memory {
    match e
    case Remembered(item) => Remember(m, item)
    case Reacted(event) => Record(m, event)
  }

  function ApplyAll(m: Memory, events: seq<Event>): Memory {
    if |events| == 0 then m else Apply(ApplyAll(m, events[..|events| - 1]), events[|events| - 1])
  }

  class SignalStore {
    var articleTags: map<string, seq<string>>
    var articleSources: map<string, string>
    var tagWeights: map<string, real>
    var sourceWeights: map<string, real>

    function Contents(): Memory
      reads this
    {
      Memory(articleTags, articleSources, tagWeights, sourceWeights)
    }

    constructor ()
      ensures Contents() == EMPTY
    {
      articleTags, articleSources, tagWeights, sourceWeights := map[], map[], map[], map[];
    }

    method RememberArticle(item: FeedItem)
      modifies this
      ensures Contents() == Remember(old(Contents()), item)
    {
      if TrimSpace(item.articleID) == "" {
        return;
      }
      var tags := NormalizeTags(item.tags);
      if |tags| > 0 {
        articleTags := articleTags[item.articleID := tags];
      }
      var source := NormalizedSource(item.sourceName);
      if source != "" {
        articleSources := articleSources[item.articleID := source];
      }
    }

    method RecordReaction(event: ReactionEvent) returns (r: Result<()>)
      modifies this
      ensures r.Ok? <==> WeightOf(event).Ok?
      ensures r.Err? ==> r.error == WeightOf(event).error
      ensures Contents() == Record(old(Contents()), event)
    {
      var valid := Validate(event);
      if valid.Err? {
        return valid;
      }
      var weight := ReactionWeight(event.kind);
      if weight.Err? {
        return Err(weight.error);
      }
      AddWeights(event.articleID, weight.value);
      return Ok(());
    }

    method AddWeights(articleID: string, weight: real)
      modifies this
      ensures Contents() ==
              AddSignal(old(Contents()), old(TagsOf(Contents(), articleID)), old(SourceOf(Contents(), articleID)),
                        weight)
    {
      var tags := if articleID in articleTags then articleTags[articleID] else [];
      AddToTags(tags, weight);
      var source := if articleID in articleSources then articleSources[articleID] else "";
      if source != "" {
        sourceWeights := sourceWeights[source := Weight(sourceWeights, source) + weight / 2.0];
      }
    }

    method AddToTags(tags: seq<string>, weight: real)
      modifies this`tagWeights
      ensures tagWeights == AddEach(old(tagWeights), tags, weight)
    {
      for i := 0 to |tags|
        invariant tagWeights == AddEach(old(tagWeights), tags[..i], weight)
      {
        assert tags[..i + 1][..i] == tags[..i];
        tagWeights := tagWeights[tags[i] := Weight(tagWeights, tags[i]) + weight];
      }
      assert tags[..|tags|] == tags;
    }

    /** What other requests bring to the store, one by one. */
    method HandleAll(events: seq<Event>)
      modifies this
      ensures Contents() == ApplyAll(old(Contents()), events)
    {
      for i := 0 to |events|
        invariant Contents() == ApplyAll(old(Contents()), events[..i])
      {
        assert events[..i + 1][..i] == events[..i];
        match events[i]
        case Remembered(item) => RememberArticle(item);
        case Reacted(event) =>
          var ignored := RecordReaction(event);
      }
      assert events[..|events|] == events;
    }

    method ApplyToScore(base: real, item: FeedItem) returns (score: real)
      ensures score == Applied(Contents(), base, TraitsOf(item))
    {
      var tags := NormalizeTags(item.tags);
      var source := NormalizedSource(item.sourceName);
      if |tags| == 0 && source == "" {
        return base;
      }
      score := base;
      for i := 0 to |tags|
        invariant score == base + WeightSum(tagWeights, tags[..i])
      {
        assert tags[..i + 1][..i] == tags[..i];
        score := score + Weight(tagWeights, tags[i]);
      }
      assert tags[..|tags|] == tags;
      if source != "" {
        score := score + Weight(sourceWeights, source);
      }
      if score < 0.0 {
        return 0.0;
      }
    }
  }

  // ----- Histories -----

  function Run(history: seq<Event>): Memory {
    ApplyAll(EMPTY, history)
  }

  /** The tags with which an article was last remembered; an item without tags does not forget earlier ones. */
  function RememberedTags(history: seq<Event>, articleID: string): seq<string> {
    if |history| == 0 || IsBlank(articleID) then [] else
      var last := history[|history| - 1];
      if last.Remembered? && last.item.articleID == articleID && NormalizedTags(last.item.tags) != []
      then NormalizedTags(last.item.tags)
      else RememberedTags(history[..|history| - 1], articleID)
  }

  function RememberedSource(history: seq<Event>, articleID: string): string {
    if |history| == 0 || IsBlank(articleID) then "" else
      var last := history[|history| - 1];
      if last.Remembered? && last.item.articleID == articleID && NormalizedSource(last.item.sourceName) != ""
      then NormalizedSource(last.item.sourceName)
      else RememberedSource(history[..|history| - 1], articleID)
  }

  /** The accepted reactions to articles remembered, at the time, with `tag`: the sum of their weights. */
  function TagTotal(history: seq<Event>, tag: string): real {
    if |history| == 0 then 0.0 else
      var front, last := history[..|history| - 1], history[|history| - 1];
      TagTotal(front, tag) +
      if last.Reacted? && WeightOf(last.event).Ok? && tag in RememberedTags(front, last.event.articleID)
      then WeightOf(last.event).value
      else 0.0
  }

  /** The accepted reactions to articles remembered, at the time, with `source`: half the sum of their weights. */
  function SourceTotal(history: seq<Event>, source: string): real {
    if |history| == 0 then 0.0 else
      var front, last := history[..|history| - 1], history[|history| - 1];
      SourceTotal(front, source) +
      if last.Reacted? && WeightOf(last.event).Ok? && source != "" &&
         source == RememberedSource(front, last.event.articleID)
      then WeightOf(last.event).value / 2.0
      else 0.0
  }

  lemma {:induction false} AddEachOnce(weights: map<string, real>, keys: seq<string>, weight: real, key: string)
    requires FirstSeen.NoRepeats(keys)
    ensures Weight(AddEach(weights, keys, weight), key) == Weight(weights, key) + if key in keys then weight else 0.0
  {
    if |keys| > 0 {
      var front := keys[..|keys| - 1];
      assert keys == front + [keys[|keys| - 1]];
      AddEachOnce(weights, front, weight, key);
    }
  }

  /** The store remembers what the history says was remembered. */
  lemma {:induction false} StoreRemembers(history: seq<Event>, articleID: string)
    ensures TagsOf(Run(history), articleID) == RememberedTags(history, articleID)
    ensures SourceOf(Run(history), articleID) == RememberedSource(history, articleID)
    ensures FirstSeen.NoRepeats(RememberedTags(history, articleID))
  {
    if |history| > 0 {
      var front, last := history[..|history| - 1], history[|history| - 1];
      StoreRemembers(front, articleID);
      if last.Remembered? {
        FirstSeen.DistinctElements(CleanTags(last.item.tags));
      }
    }
  }

  /** After any history each weight is exactly the sum of the accepted reactions that concern it. */
  lemma {:induction false} WeightsAreTotals(history: seq<Event>, key: string)
    ensures Weight(Run(history).tagWeights, key) == TagTotal(history, key)
    ensures key != "" ==> Weight(Run(history).sourceWeights, key) == SourceTotal(history, key)
  {
    if |history| > 0 {
      var front, last := history[..|history| - 1], history[|history| - 1];
      WeightsAreTotals(front, key);
      if last.Reacted? && WeightOf(last.event).Ok? {
        StoreRemembers(front, last.event.articleID);
        AddEachOnce(Run(front).tagWeights, TagsOf(Run(front), last.event.articleID), WeightOf(last.event).value, key);
      }
    }
  }

  /** How many of `keys` are also in `others`. */
  function SharedCount(keys: seq<string>, others: seq<string>): nat {
    if |keys| == 0 then 0
    else SharedCount(keys[..|keys| - 1], others) + if keys[|keys| - 1] in others then 1 else 0
  }

  /** The weight once for every key that is also in `others`. */
  function SharedWeight(weight: real, keys: seq<string>, others: seq<string>): real {
    if |keys| == 0 then 0.0
    else SharedWeight(weight, keys[..|keys| - 1], others) + if keys[|keys| - 1] in others then weight else 0.0
  }

  lemma {:induction false} SharedWeightIsMultiple(weight: real, keys: seq<string>, others: seq<string>)
    ensures SharedWeight(weight, keys, others) == weight * SharedCount(keys, others) as real
  {
    if |keys| > 0 {
      SharedWeightIsMultiple(weight, keys[..|keys| - 1], others);
      Distribute(weight, SharedCount(keys[..|keys| - 1], others));
    }
  }

  lemma Distribute(weight: real, n: nat)
    ensures weight * (n + 1) as real == weight * n as real + weight
  {
  }

  lemma {:induction false} SumShift(weights: map<string, real>, added: seq<string>, weight: real, keys: seq<string>)
    requires FirstSeen.NoRepeats(added)
    ensures WeightSum(AddEach(weights, added, weight), keys) ==
            WeightSum(weights, keys) + SharedWeight(weight, keys, added)
  {
    if |keys| > 0 {
      SumShift(weights, added, weight, keys[..|keys| - 1]);
      AddEachOnce(weights, added, weight, keys[|keys| - 1]);
    }
  }

  /** What a reaction of weight `weight` to an article with these tags and source adds to an item's score. */
  function Shift(weight: real, traits: Traits, tags: seq<string>, source: string): real {
    weight * SharedCount(traits.tags, tags) as real + SourceShare(weight, traits, source)
  }

  function SourceShare(weight: real, traits: Traits, source: string): real {
    if source != "" && traits.source == source then weight / 2.0 else 0.0
  }

  lemma SourceShift(m: Memory, tags: seq<string>, source: string, weight: real, traits: Traits)
    ensures SourceTerm(AddSignal(m, tags, source, weight), traits) ==
            SourceTerm(m, traits) + SourceShare(weight, traits, source)
  {
  }

  lemma AddSignalShift(m: Memory, tags: seq<string>, source: string, weight: real, base: real, traits: Traits)
    requires FirstSeen.NoRepeats(tags)
    ensures Unclamped(AddSignal(m, tags, source, weight), base, traits) ==
            Unclamped(m, base, traits) + Shift(weight, traits, tags, source)
  {
    SumShift(m.tagWeights, tags, weight, traits.tags);
    SharedWeightIsMultiple(weight, traits.tags, tags);
    SourceShift(m, tags, source, weight, traits);
  }

  lemma RunSnoc(history: seq<Event>, e: Event)
    ensures Run(history + [e]) == Apply(Run(history), e)
  {
    assert (history + [e])[..|history|] == history;
  }

  /** One accepted reaction of weight w shifts an item's score, before the cut-off, by w for every tag it shares
      with the article and by w/2 for a shared source. */
  lemma ReactionShift(history: seq<Event>, event: ReactionEvent, base: real, traits: Traits)
    requires WeightOf(event).Ok?
    ensures Unclamped(Run(history + [Reacted(event)]), base, traits) ==
            Unclamped(Run(history), base, traits) +
            Shift(WeightOf(event).value, traits,
                  RememberedTags(history, event.articleID), RememberedSource(history, event.articleID))
  {
    var m := Run(history);
    StoreRemembers(history, event.articleID);
    RunSnoc(history, Reacted(event));
    AddSignalShift(m, TagsOf(m, event.articleID), SourceOf(m, event.articleID), WeightOf(event).value, base, traits);
  }

  lemma ShiftSign(weight: real, traits: Traits, tags: seq<string>, source: string)
    ensures weight > 0.0 ==> Shift(weight, traits, tags, source) >= 0.0
    ensures weight < 0.0 ==> Shift(weight, traits, tags, source) <= 0.0
  {
    var shared := SharedCount(traits.tags, tags) as real;
    assert weight > 0.0 ==> weight * shared >= 0.0;
    assert weight < 0.0 ==> weight * shared <= 0.0;
  }

  /** Positive reactions never lower a score, negative ones never raise one. */
  lemma ReactionIsMonotone(history: seq<Event>, event: ReactionEvent, base: real, traits: Traits)
    requires WeightOf(event).Ok?
    ensures var before, after := Run(history), Run(history + [Reacted(event)]);
            var weight := WeightOf(event).value;
            && (weight > 0.0 ==> Applied(after, base, traits) >= Applied(before, base, traits))
            && (weight < 0.0 ==> Applied(after, base, traits) <= Applied(before, base, traits))
  {
    ReactionShift(history, event, base, traits);
    ShiftSign(WeightOf(event).value, traits, RememberedTags(history, event.articleID),
              RememberedSource(history, event.articleID));
  }

  /** A reaction is rejected for a blank field, a zero time or an unknown kind; it then changes nothing. */
  lemma RejectedReaction(history: seq<Event>, event: ReactionEvent)
    ensures WeightOf(event).Err? <==>
            || IsBlank(event.userID) || IsBlank(event.articleID) || IsBlank(event.kind) || event.createdAt == ZERO_TIME
            || event.kind !in {LIKE, SAVE, OPEN, SKIP, DISLIKE}
    ensures WeightOf(event).Err? ==> Run(history + [Reacted(event)]) == Run(history)
  {
    RunSnoc(history, Reacted(event));
  }

  // ----- The score of an item after a history -----

  /** The totals of the tags, added up. */
  function TagTotals(history: seq<Event>, tags: seq<string>): real {
    if |tags| == 0 then 0.0 else TagTotals(history, tags[..|tags| - 1]) + TagTotal(history, tags[|tags| - 1])
  }

  lemma {:induction false} WeightSumIsTotals(history: seq<Event>, tags: seq<string>)
    ensures WeightSum(Run(history).tagWeights, tags) == TagTotals(history, tags)
  {
    if |tags| > 0 {
      WeightSumIsTotals(history, tags[..|tags| - 1]);
      WeightsAreTotals(history, tags[|tags| - 1]);
    }
  }

  /** An item without tags and source keeps its base score. Any other scores its base and the totals of its tags and
      of its source, but no less than zero. */
  lemma ScoreIsTotals(history: seq<Event>, base: real, item: FeedItem)
    ensures var tags, source := NormalizedTags(item.tags), NormalizedSource(item.sourceName);
            var sum := base + TagTotals(history, tags) + if source == "" then 0.0 else SourceTotal(history, source);
            Applied(Run(history), base, TraitsOf(item)) ==
            if tags == [] && source == "" then base else if sum > 0.0 then sum else 0.0
  {
    var source := NormalizedSource(item.sourceName);
    WeightSumIsTotals(history, NormalizedTags(item.tags));
    WeightsAreTotals(history, source);
  }

  /** Event number `k` is an accepted reaction to an article that was remembered, at that time, with one of the tags of
      the item or with its source. */
  ghost predicate Concerns(history: seq<Event>, k: nat, item: FeedItem)
    requires k < |history|
  {
    var e, source := history[k], NormalizedSource(item.sourceName);
    && e.Reacted? && WeightOf(e.event).Ok?
    && ((exists tag :: tag in NormalizedTags(item.tags) && tag in RememberedTags(history[..k], e.event.articleID)) ||
        (source != "" && source == RememberedSource(history[..k], e.event.articleID)))
  }

  lemma {:induction false} NoTotals(history: seq<Event>, item: FeedItem, tag: string)
    requires forall k: nat :: k < |history| ==> !Concerns(history, k, item)
    ensures tag in NormalizedTags(item.tags) ==> TagTotal(history, tag) == 0.0
    ensures SourceTotal(history, NormalizedSource(item.sourceName)) == 0.0
  {
    if |history| > 0 {
      var front := history[..|history| - 1];
      forall k: nat | k < |front| ensures !Concerns(front, k, item) {
        assert front[..k] == history[..k];
        assert !Concerns(history, k, item);
      }
      NoTotals(front, item, tag);
      assert !Concerns(history, |front|, item);
    }
  }

  lemma {:induction false} TotalsAreZero(history: seq<Event>, tags: seq<string>)
    requires forall tag :: tag in tags ==> TagTotal(history, tag) == 0.0
    ensures TagTotals(history, tags) == 0.0
  {
    if |tags| > 0 {
      TotalsAreZero(history, tags[..|tags| - 1]);
    }
  }

  /** As long as no accepted reaction concerns an item, its score is its base, unless that is negative. */
  lemma UnconcernedScore(history: seq<Event>, base: real, item: FeedItem)
    requires forall k: nat :: k < |history| ==> !Concerns(history, k, item)
    ensures base >= 0.0 ==> Applied(Run(history), base, TraitsOf(item)) == base
  {
    forall tag | tag in NormalizedTags(item.tags) ensures TagTotal(history, tag) == 0.0 {
      NoTotals(history, item, tag);
    }
    NoTotals(history, item, "");
    TotalsAreZero(history, NormalizedTags(item.tags));
    ScoreIsTotals(history, base, item);
  }

  /** What one reaction to an item weighs. */
  lemma OneReactionTotals(history: seq<Event>, item: FeedItem, event: ReactionEvent, key: string)
    requires !IsBlank(item.articleID) && event.articleID == item.articleID && WeightOf(event).Ok?
    requires history == [Remembered(item), Reacted(event)]
    ensures && TagTotal(history, key) == (if key in NormalizedTags(item.tags) then WeightOf(event).value else 0.0)
            && SourceTotal(history, key) ==
               if key != "" && key == NormalizedSource(item.sourceName) then WeightOf(event).value / 2.0 else 0.0
  {
    var first := [Remembered(item)];
    assert history[..1] == first && first[..0] == [];
    assert TagTotal(first, key) == 0.0 && SourceTotal(first, key) == 0.0;
    assert RememberedTags(first, item.articleID) == NormalizedTags(item.tags);
    assert RememberedSource(first, item.articleID) == NormalizedSource(item.sourceName);
  }

  /** The score of an item if each of its tags weighs `weight` and its source half of that. */
  function ScoreWith(item: FeedItem, base: real, weight: real): real {
    var tags, source := NormalizedTags(item.tags), NormalizedSource(item.sourceName);
    var sum := base + weight * |tags| as real + if source == "" then 0.0 else weight / 2.0;
    if tags == [] && source == "" then base else if sum > 0.0 then sum else 0.0
  }

  /** Each of the item's tags counts the weight once. */
  lemma {:induction false} OneAcceptedTotals(history: seq<Event>, item: FeedItem, event: ReactionEvent, n: nat)
    requires !IsBlank(item.articleID) && event.articleID == item.articleID && WeightOf(event).Ok?
    requires history == [Remembered(item), Reacted(event)] && n <= |NormalizedTags(item.tags)|
    ensures TagTotals(history, NormalizedTags(item.tags)[..n]) == WeightOf(event).value * n as real
  {
    if n > 0 {
      var tags := NormalizedTags(item.tags);
      OneAcceptedTotals(history, item, event, n - 1);
      assert tags[..n][..n - 1] == tags[..n - 1] && tags[n - 1] in tags;
      OneReactionTotals(history, item, event, tags[n - 1]);
      Distribute(WeightOf(event).value, n - 1);
    }
  }

  lemma OneAcceptedScore(item: FeedItem, event: ReactionEvent, base: real)
    requires !IsBlank(item.articleID) && event.articleID == item.articleID && WeightOf(event).Ok?
    ensures Applied(Run([Remembered(item), Reacted(event)]), base, TraitsOf(item)) ==
            ScoreWith(item, base, WeightOf(event).value)
  {
    var history := [Remembered(item), Reacted(event)];
    OneReactionTotals(history, item, event, NormalizedSource(item.sourceName));
    OneAcceptedTotals(history, item, event, |NormalizedTags(item.tags)|);
    assert NormalizedTags(item.tags)[..|NormalizedTags(item.tags)|] == NormalizedTags(item.tags);
    ScoreIsTotals(history, base, item);
  }

  /** What a kind of reaction weighs; other kinds are rejected. */
  function Weighs(kind: string): real {
    if kind == LIKE then 4.0 else if kind == SAVE then 8.0 else if kind == OPEN then 1.0
    else if kind == SKIP then -3.0 else -8.0
  }

  lemma AcceptedWeight(event: ReactionEvent)
    requires !IsBlank(event.userID) && !IsBlank(event.articleID) && event.createdAt != ZERO_TIME
    requires event.kind in {LIKE, SAVE, OPEN, SKIP, DISLIKE}
    ensures WeightOf(event) == Ok(Weighs(event.kind))
  {
    KindsAreNotBlank();
  }

  /** After one reaction to a remembered item: a like counts four for each of its tags, a save eight, opening it one,
      skipping it minus three and a dislike minus eight, and half of that for its source. */
  lemma OneReactionScore(item: FeedItem, event: ReactionEvent, base: real)
    requires !IsBlank(item.articleID) && event.articleID == item.articleID
    requires !IsBlank(event.userID) && event.createdAt != ZERO_TIME
    requires event.kind in {LIKE, SAVE, OPEN, SKIP, DISLIKE}
    ensures Applied(Run([Remembered(item), Reacted(event)]), base, TraitsOf(item)) ==
            ScoreWith(item, base, Weighs(event.kind))
  {
    AcceptedWeight(event);
    OneAcceptedScore(item, event, base);
  }

  lemma KindsAreNotBlank()
    ensures forall kind :: kind in {LIKE, SAVE, OPEN, SKIP, DISLIKE} ==> !IsBlank(kind)
  {
    TrimFixed(LIKE);
    TrimFixed(SAVE);
    TrimFixed(OPEN);
    TrimFixed(SKIP);
    TrimFixed(DISLIKE);
  }

  /** The tags of an item: what is left of its tags in lower case without white space around them, each once, in the
      order in which they first occur. */
  lemma NormalizedTagsAre(tags: seq<string>, tag: string)
    ensures tag in NormalizedTags(tags) <==>
            tag != "" && exists i :: 0 <= i < |tags| && TrimSpace(ToLower(tags[i])) == tag
    ensures FirstSeen.NoRepeats(NormalizedTags(tags))
  {
    FirstSeen.DistinctElements(CleanTags(tags));
    assert forall i :: 0 <= i < |tags| ==> CleanTags(tags)[i] == TrimSpace(ToLower(tags[i]));
  }
}
