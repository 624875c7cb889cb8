/** The search-and-publish use case as the parser service runs it (`Usecase.SearchAndPublish`). */
module SearchUsecase {
  import opened Contracts
  import opened Text
  import Sorting
  import opened RoundRobin
  import opened Candidates
  import opened SearchPipeline
  import opened SearchCounts
  import FirstSeen

  datatype Message =
    | DiscoveredMessage(event: DiscoveredEvent)
    | FailedMessage(jobID: string, sourceName: string, query: string, error: string)

  /** A producer that may refuse any attempt: `refuses(k)` says what happens to attempt number `k`. */
  class Producer {
    const refuses: nat -> bool
    var attempts: nat
    var sent: seq<Message>

    constructor (refuses: nat -> bool)
      ensures sent == []
    {
      this.refuses, attempts, sent := refuses, 0, [];
    }

    method Publish(message: Message) returns (r: Result<()>)
      modifies this
      ensures sent == if r.Ok? then old(sent) + [message] else old(sent)
      ensures r.Err? <==> refuses(old(attempts))
      ensures attempts == old(attempts) + 1
    {
      attempts := attempts + 1;
      if refuses(attempts - 1) {
        return Err("publish failed");
      }
      sent := sent + [message];
      return Ok(());
    }
  }

  // ----- Seen keys -----

  /** `seen` holds exactly the keys of the marked candidates. */
  ghost predicate Tracks(seen: set<string>, marked: seq<Entry>) {
    forall key :: key in seen <==> exists m :: m in marked && key in m.keys
  }

  method HasSeenCandidate(seen: set<string>, keys: seq<string>) returns (found: bool)
    ensures found <==> exists key :: key in keys && key in seen
  {
    for i := 0 to |keys|
      invariant forall k :: 0 <= k < i ==> keys[k] !in seen
    {
      if keys[i] in seen {
        return true;
      }
    }
    return false;
  }

  method MarkSeenCandidate(seen: set<string>, keys: seq<string>) returns (marked: set<string>)
    ensures forall key :: key in marked <==> key in seen || key in keys
  {
    marked := seen;
    for i := 0 to |keys|
      invariant forall key :: key in marked <==> key in seen || key in keys[..i]
    {
      marked := marked + {keys[i]};
    }
  }

  lemma TrackedDuplicate(seen: set<string>, marked: seq<Entry>, e: Entry)
    requires Tracks(seen, marked)
    ensures IsDuplicate(marked, e) <==> exists key :: key in e.keys && key in seen
  {
    if IsDuplicate(marked, e) {
      var m :| m in marked && SharesKey(m, e);
      var key :| key in m.keys && key in e.keys;
      assert key in seen;
    }
    if key :| key in e.keys && key in seen {
      var m :| m in marked && key in m.keys;
      assert SharesKey(m, e);
    }
  }

  lemma TrackedMark(seen: set<string>, marked: seq<Entry>, e: Entry, updated: set<string>)
    requires Tracks(seen, marked)
    requires forall key :: key in updated <==> key in seen || key in e.keys
    ensures Tracks(updated, marked + [e])
  {
    forall key ensures key in updated <==> exists m :: m in marked + [e] && key in m.keys {
      if key in seen {
        var m :| m in marked && key in m.keys;
        assert m in marked + [e];
      }
      if key in e.keys {
        assert e in marked + [e];
      }
    }
  }

  /** The loop over the candidates of one source. */
  method TakeCandidates(found: seq<Candidate>, source: string, query: SearchQuery, alreadySeen: set<string>,
                        ghost marked: seq<Entry>)
    returns (seen: set<string>, relevant: seq<Entry>, irrelevant: seq<Entry>, filtered: nat)
    requires Tracks(alreadySeen, marked)
    ensures var intake := TakeAll(marked, EntriesOf(found, source, query));
            Tracks(seen, intake.marked) &&
            relevant == intake.relevant && irrelevant == intake.irrelevant && filtered == intake.filtered
  {
    seen, relevant, irrelevant, filtered := alreadySeen, [], [], 0;
    ghost var entries := EntriesOf(found, source, query);
    ghost var intake := Intake(marked, [], [], 0);
    for i := 0 to |found|
      invariant intake == TakeAll(marked, entries[..i])
      invariant Tracks(seen, intake.marked)
      invariant relevant == intake.relevant && irrelevant == intake.irrelevant && filtered == intake.filtered
    {
      assert entries[..i + 1][..i] == entries[..i];
      ghost var before := intake;
      intake := Take(intake, entries[i]);
      seen, relevant, irrelevant, filtered := TakeOne(EntryOf(found[i], source, query), seen, relevant, irrelevant,
                                                      filtered, before);
    }
    assert entries[..|found|] == entries;
  }

  method TakeOne(entry: Entry, seen: set<string>, relevant: seq<Entry>, irrelevant: seq<Entry>, filtered: nat,
                 ghost before: Intake)
    returns (seen': set<string>, relevant': seq<Entry>, irrelevant': seq<Entry>, filtered': nat)
    requires Tracks(seen, before.marked)
    requires relevant == before.relevant && irrelevant == before.irrelevant && filtered == before.filtered
    ensures var after := Take(before, entry);
            Tracks(seen', after.marked) &&
            relevant' == after.relevant && irrelevant' == after.irrelevant && filtered' == after.filtered
  {
    seen', relevant', irrelevant', filtered' := seen, relevant, irrelevant, filtered;
    if !entry.usable {
      filtered' := filtered + 1;
      return;
    }
    var duplicate := HasSeenCandidate(seen, entry.keys);
    TrackedDuplicate(seen, before.marked, entry);
    if duplicate {
      filtered' := filtered + 1;
      return;
    }
    seen' := MarkSeenCandidate(seen, entry.keys);
    TrackedMark(seen, before.marked, entry, seen');
    if entry.score <= 0 {
      irrelevant' := irrelevant + [entry];
      return;
    }
    relevant' := relevant + [entry];
  }

  // ----- Interleaving -----

  lemma PickedPrefix<T>(lists: seq<seq<T>>, cells: seq<Cell>)
    requires cells <= Cells(Sizes(lists))
    ensures AllExist(lists, cells) && Pick(lists, cells) <= Interleaved(lists)
  {
    CellsExist(lists);
  }

  /** `round` holds the elements of round `index`, or as many of them as there is room for. */
  ghost predicate IsRound<T>(lists: seq<seq<T>>, index: nat, room: nat, round: seq<T>) {
    && AllExist(lists, Row(Sizes(lists), index, |lists|))
    && var row := Pick(lists, Row(Sizes(lists), index, |lists|)); round == if |row| <= room then row else row[..room]
  }

  /** The entries of the first `k` buckets in this round, fewer than `room`. */
  ghost predicate PartOfRound<T>(lists: seq<seq<T>>, index: nat, k: nat, room: nat, round: seq<T>)
    requires k <= |lists|
  {
    && |round| < room && AllExist(lists, Row(Sizes(lists), index, k))
    && round == Pick(lists, Row(Sizes(lists), index, k))
  }

  lemma PartGrows<T>(lists: seq<seq<T>>, index: nat, k: nat, room: nat, round: seq<T>)
    requires k < |lists| && PartOfRound(lists, index, k, room, round)
    ensures index >= |lists[k]| ==> PartOfRound(lists, index, k + 1, room, round)
    ensures index < |lists[k]| && |round| + 1 < room ==>
              PartOfRound(lists, index, k + 1, room, round + [lists[k][index]])
    ensures index < |lists[k]| && |round| + 1 >= room ==> IsRound(lists, index, room, round + [lists[k][index]])
  {
    SourceBalance.RowExists(lists, index, |lists|);
    SourceBalance.RowGrowsBy(lists, index, k);
    RowGrows(Sizes(lists), index, k + 1, |lists|);
  }

  /** One round of at most `room` entries. */
  method TakeRound(buckets: seq<SourceBucket>, index: nat, room: nat) returns (round: seq<Entry>)
    requires room > 0
    ensures IsRound(Lists(buckets), index, room, round)
  {
    ghost var lists := Lists(buckets);
    round := [];
    for k := 0 to |buckets|
      invariant PartOfRound(lists, index, k, room, round)
    {
      PartGrows(lists, index, k, room, round);
      if index >= |buckets[k].entries| {
        continue;
      }
      round := round + [buckets[k].entries[index]];
      if |round| >= room {
        return;
      }
    }
  }

  lemma PickedTwice<T>(lists: seq<seq<T>>, a: seq<Cell>, b: seq<Cell>)
    requires AllExist(lists, a) && AllExist(lists, b)
    ensures AllExist(lists, a + b) && Pick(lists, a + b) == Pick(lists, a) + Pick(lists, b)
  {
  }

  lemma RoundFits<T>(lists: seq<seq<T>>, index: nat)
    ensures AllExist(lists, Rounds(Sizes(lists), index)) && AllExist(lists, Row(Sizes(lists), index, |lists|))
    ensures Pick(lists, Rounds(Sizes(lists), index)) + Pick(lists, Row(Sizes(lists), index, |lists|)) <=
            Interleaved(lists)
  {
    var rounds, row := Rounds(Sizes(lists), index), Row(Sizes(lists), index, |lists|);
    PartialIsPrefix(Sizes(lists), index, |lists|);
    PickedPrefix(lists, rounds + row);
    PickedPrefix(lists, rounds);
    SourceBalance.RowExists(lists, index, |lists|);
    PickedTwice(lists, rounds, row);
  }

  /** `result` holds the first `index` rounds. */
  ghost function RoundsTaken<T>(lists: seq<seq<T>>): (seq<T>, nat) -> bool {
    (result: seq<T>, index: nat) =>
      AllExist(lists, Rounds(Sizes(lists), index)) && result == Pick(lists, Rounds(Sizes(lists), index))
  }

  lemma NoRoundTaken<T>(lists: seq<seq<T>>)
    ensures RoundsTaken(lists)([], 0)
  {
  }

  lemma OneMoreRound<T>(lists: seq<seq<T>>, result: seq<T>, index: nat, room: nat, round: seq<T>)
    requires room > 0 && RoundsTaken(lists)(result, index) && IsRound(lists, index, room, round)
    ensures result + round <= Interleaved(lists) && |round| <= room
    ensures |round| < room ==> RoundsTaken(lists)(result + round, index + 1)
    ensures round == [] ==> result == Interleaved(lists)
  {
    RoundFits(lists, index);
    RoundFits(lists, index + 1);
    PickedTwice(lists, Rounds(Sizes(lists), index), Row(Sizes(lists), index, |lists|));
    if round == [] {
      SourceBalance.ExhaustedAfterEmptyRow(Sizes(lists), index);
    }
  }

  lemma NoBuckets(buckets: seq<SourceBucket>)
    requires |buckets| == 0
    ensures Interleaved(Lists(buckets)) == []
  {
    assert Cells(Sizes(Lists(buckets))) == [];
  }

  method InterleaveCandidateBuckets(buckets: seq<SourceBucket>, limit: int) returns (result: seq<Entry>)
    ensures result == Delivered(buckets, limit)
  {
    ghost var lists := Lists(buckets);
    if |buckets| == 0 || limit <= 0 {
      if |buckets| == 0 {
        NoBuckets(buckets);
      }
      return [];
    }
    var delivered: seq<Entry>, index := [], 0;
    NoRoundTaken(lists);
    while |delivered| < limit
      invariant |delivered| <= limit && delivered <= Interleaved(lists)
      invariant |delivered| < limit ==> RoundsTaken(lists)(delivered, index)
      decreases limit - |delivered|
    {
      var round := TakeRound(buckets, index, limit - |delivered|);
      OneMoreRound(lists, delivered, index, limit - |delivered|, round);
      if |round| == 0 {
        break;
      }
      delivered := delivered + round;
      index := index + 1;
    }
    return delivered;
  }

  // ----- Publishing -----

  function EventOf(c: Candidate, now: Time): DiscoveredEvent {
    DiscoveredEvent(c.sourceName, c.externalID, c.url, c.title, c.summary, c.content, c.author, c.tags, c.language,
                    c.publishedAt, now)
  }

  /** The events of the candidates; `clock(i)` is what the clock says when that of candidate `i` is made. */
  function EventsOf(candidates: seq<Candidate>, clock: nat -> Time): (events: seq<DiscoveredEvent>)
    ensures |events| == |candidates|
  {
    seq(|candidates|, i requires 0 <= i < |candidates| => EventOf(candidates[i], clock(i)))
  }

  /** `messages` announce the first events, one by one and in order. */
  ghost predicate Announces(messages: seq<Message>, events: seq<DiscoveredEvent>) {
    |messages| <= |events| && forall i :: 0 <= i < |messages| ==> messages[i] == DiscoveredMessage(events[i])
  }

  /** Event `k` cannot be published, when `first` attempts have been made before that of event 0. */
  ghost predicate FailsAt(events: seq<DiscoveredEvent>, refuses: nat -> bool, first: nat, k: nat) {
    k < |events| && (ValidateDiscovered(events[k]).Err? || refuses(first + k))
  }

  method PublishCandidate(producer: Producer, candidate: Candidate, now: Time) returns (r: Result<()>)
    modifies producer
    ensures producer.sent ==
            old(producer.sent) + if r.Ok? then [DiscoveredMessage(EventOf(candidate, now))] else []
    ensures r.Ok? <==> ValidateDiscovered(EventOf(candidate, now)).Ok? && !producer.refuses(old(producer.attempts))
    ensures r.Ok? ==> producer.attempts == old(producer.attempts) + 1
  {
    var event := EventOf(candidate, now);
    var valid := ValidateDiscovered(event);
    if valid.Err? {
      return valid;
    }
    r := producer.Publish(DiscoveredMessage(event));
  }

  datatype SearchResult = SearchResult(candidates: seq<Candidate>, sourceStats: seq<SourceStats>)

  /** What a parser answers to a search. */
  datatype Answer = Candidates(found: seq<Candidate>) | Error(message: string)

  function OutcomeOf(answer: Answer, source: string, query: SearchQuery): Outcome {
    match answer
    case Candidates(found) => Found(EntriesOf(found, source, query))
    case Error(message) => Failed(message)
  }

  function OutcomesOf(answers: seq<Answer>, sources: seq<string>, query: SearchQuery): (r: seq<Outcome>)
    requires |answers| == |sources|
    ensures |r| == |answers|
  {
    seq(|answers|, k requires 0 <= k < |answers| => OutcomeOf(answers[k], sources[k], query))
  }

  function CandidatesOf(entries: seq<Entry>): (r: seq<Candidate>)
    ensures |r| == |entries|
  {
    seq(|entries|, i requires 0 <= i < |entries| => entries[i].candidate)
  }

  function FailureOf(source: string, query: SearchQuery, error: string): Message {
    FailedMessage(source + ":" + query.text, source, query.text, error)
  }

  /** How many of the first `n` answers are failures. */
  function FailedAmong(answers: seq<Answer>, n: nat): nat
    requires n <= |answers|
  {
    if n == 0 then 0 else FailedAmong(answers, n - 1) + if answers[n - 1].Error? then 1 else 0
  }

  /** The number of attempts to publish when all sources have answered, `first` of which were made before. */
  function AttemptsAfter(first: nat, answers: seq<Answer>): nat {
    first + FailedAmong(answers, |answers|)
  }

  /** What is sent about the failures among the first `n` answers, when `first` attempts to publish have been made
      before: every failure is one attempt, which may be refused. */
  function FailuresTold(sources: seq<string>, query: SearchQuery, answers: seq<Answer>, refuses: nat -> bool,
                        first: nat, n: nat): seq<Message>
    requires n <= |answers| == |sources|
  {
    if n == 0 then [] else
      FailuresTold(sources, query, answers, refuses, first, n - 1) +
      if answers[n - 1].Error? && !refuses(first + FailedAmong(answers, n - 1))
      then [FailureOf(sources[n - 1], query, answers[n - 1].message)]
      else []
  }

  /** From `before` to `sent`, and from attempt `first` to `attempts`, the failures among the first `n` answers have
      been announced. */
  ghost predicate Told(before: seq<Message>, first: nat, sources: seq<string>, query: SearchQuery, answers: seq<Answer>,
                       refuses: nat -> bool, n: nat, sent: seq<Message>, attempts: nat)
    requires n <= |answers| == |sources|
  {
    && sent == before + FailuresTold(sources, query, answers, refuses, first, n)
    && attempts == first + FailedAmong(answers, n)
  }

  lemma ToldAll(before: seq<Message>, first: nat, sources: seq<string>, query: SearchQuery, answers: seq<Answer>,
                refuses: nat -> bool, sent: seq<Message>, attempts: nat)
    requires |answers| == |sources| && Told(before, first, sources, query, answers, refuses, |answers|, sent, attempts)
    ensures sent == before + FailuresTold(sources, query, answers, refuses, first, |answers|)
    ensures attempts == AttemptsAfter(first, answers)
  {
  }

  lemma ToldNext(before: seq<Message>, first: nat, sources: seq<string>, query: SearchQuery, answers: seq<Answer>,
                 refuses: nat -> bool, k: nat, sent: seq<Message>, attempts: nat)
    requires k < |answers| == |sources| && Told(before, first, sources, query, answers, refuses, k, sent, attempts)
    ensures var told :=
              if answers[k].Error? && !refuses(attempts)
              then [FailureOf(sources[k], query, answers[k].message)]
              else [];
            Told(before, first, sources, query, answers, refuses, k + 1, sent + told,
                 attempts + if answers[k].Error? then 1 else 0)
  {
  }

  // ----- Counting -----

  function CountIn(counts: map<string, nat>, source: string): nat {
    if source in counts then counts[source] else 0
  }

  method CountCandidatesBySource(delivered: seq<Entry>) returns (counts: map<string, nat>)
    ensures forall source :: CountIn(counts, source) == CountBySource(delivered, source)
  {
    counts := map[];
    for i := 0 to |delivered|
      invariant forall source :: CountIn(counts, source) == CountBySource(delivered[..i], source)
    {
      ghost var before := counts;
      var name := NameOf(delivered[i]);
      counts := counts[name := CountIn(counts, name) + 1];
      forall source ensures CountIn(counts, source) == CountBySource(delivered[..i + 1], source) {
        SourceBalance.BucketSnoc(delivered, i + 1, NameOf, source);
        assert CountIn(before, source) == CountBySource(delivered[..i], source);
      }
    }
    assert delivered[..|delivered|] == delivered;
  }

  method CountReturned(stats: seq<SourceStats>, delivered: seq<Entry>) returns (counted: seq<SourceStats>)
    ensures counted == WithReturned(stats, delivered)
  {
    var returnedBySource := CountCandidatesBySource(delivered);
    counted := stats;
    for k := 0 to |stats|
      invariant |counted| == |stats| && counted[k..] == stats[k..]
      invariant counted[..k] == WithReturned(stats, delivered)[..k]
    {
      counted := counted[k := counted[k].(returnedCount := CountIn(returnedBySource, counted[k].sourceName))];
    }
  }

  method CountPublished(stats: seq<SourceStats>, delivered: seq<Entry>) returns (counted: seq<SourceStats>)
    ensures counted == WithPublished(stats, delivered)
  {
    var publishedBySource := CountCandidatesBySource(delivered);
    counted := stats;
    for k := 0 to |stats|
      invariant |counted| == |stats| && counted[k..] == stats[k..]
      invariant counted[..k] == WithPublished(stats, delivered)[..k]
    {
      counted := counted[k := counted[k].(publishedCount := CountIn(publishedBySource, counted[k].sourceName))];
    }
  }

  /** Until publishing has succeeded, no line of the statistics counts published candidates. */
  ghost predicate NothingPublished(stats: seq<SourceStats>) {
    forall k :: 0 <= k < |stats| ==> stats[k].publishedCount == 0
  }

  lemma NothingPublishedYet(survey: Survey, n: nat, delivered: seq<Entry>)
    requires n <= |survey.sources|
    ensures NothingPublished(WithReturned(Gathered(survey, n).stats, delivered))
  {
    var stats := Gathered(survey, n).stats;
    CountsAreConserved(survey, n);
    forall k | 0 <= k < n ensures stats[k].publishedCount == 0 {
      assert AccountedAt(stats[k], survey, k);
    }
  }

  // ----- The use case -----

  /** The names that are left when white space around them is dropped. */
  function NamesOf(names: seq<string>): seq<string> {
    if |names| == 0 then [] else
      var front, last := NamesOf(names[..|names| - 1]), TrimSpace(names[|names| - 1]);
      if last == "" then front else front + [last]
  }

  lemma {:induction false} NamesElements(names: seq<string>, name: string)
    ensures name in NamesOf(names) <==> name != "" && exists i :: 0 <= i < |names| && TrimSpace(names[i]) == name
  {
    if |names| > 0 {
      var front := names[..|names| - 1];
      NamesElements(front, name);
      if i :| 0 <= i < |front| && TrimSpace(front[i]) == name {
        assert names[i] == front[i];
      }
      if i :| 0 <= i < |names| && TrimSpace(names[i]) == name {
        assert i < |front| ==> front[i] == names[i];
      }
    }
  }

  class Usecase {
    const producer: Producer
    const sourceOrder: seq<string>
    const strategies: string -> string
    const enabled: string -> bool

    /** The sources in the order in which their parsers are given; parsers without a name are left out. */
    constructor (producer: Producer, names: seq<string>, strategies: string -> string, enabled: string -> bool)
      ensures this.producer == producer && this.strategies == strategies && this.enabled == enabled
      ensures sourceOrder == NamesOf(names)
    {
      var order: seq<string> := [];
      for i := 0 to |names|
        invariant order == NamesOf(names[..i])
      {
        assert names[..i + 1][..i] == names[..i];
        var name := TrimSpace(names[i]);
        if name != "" {
          order := order + [name];
        }
      }
      assert names[..|names|] == names;
      this.producer, sourceOrder, this.strategies, this.enabled := producer, order, strategies, enabled;
    }

    function Enabled(names: seq<string>): seq<string> {
      if |names| == 0 then [] else
        var front, last := Enabled(names[..|names| - 1]), names[|names| - 1];
        if enabled(last) then front + [last] else front
    }

    function Wanted(names: seq<string>): seq<string> {
      if |names| == 0 then [] else
        var front, last := Wanted(names[..|names| - 1]), TrimSpace(names[|names| - 1]);
        if last == "" || last !in sourceOrder || !enabled(last) then front else front + [last]
    }

    /** The sources to ask: those of the query that are known and enabled, or all enabled ones. */
    function SelectedSources(query: SearchQuery): seq<string> {
      if |query.sources| > 0 then Wanted(query.sources) else Enabled(sourceOrder)
    }

    /** The selected sources and their answers: `answers[k]` is that of source number `k`. */
    function SurveyOf(query: SearchQuery, answers: seq<Answer>): (survey: Survey)
      requires |answers| == |SelectedSources(query)|
    {
      Survey(SelectedSources(query), strategies, OutcomesOf(answers, SelectedSources(query), query))
    }

    lemma GatheredStep(query: SearchQuery, answers: seq<Answer>, k: nat)
      requires |answers| == |SelectedSources(query)| && k < |answers|
      ensures var source := SelectedSources(query)[k];
              Gathered(SurveyOf(query, answers), k + 1) ==
              Gather(Gathered(SurveyOf(query, answers), k), source, strategies(source),
                     OutcomeOf(answers[k], source, query))
    {
    }

    /** What is sent about the sources that failed. */
    function FailuresOf(query: SearchQuery, answers: seq<Answer>, first: nat): seq<Message>
      requires |answers| == |SelectedSources(query)|
    {
      FailuresTold(SelectedSources(query), query, answers, producer.refuses, first, |answers|)
    }

    /** Asks all sources. Failures are announced, as far as the producer lets them through. */
    method Collect(query: SearchQuery, answers: seq<Answer>)
      returns (buckets: seq<SourceBucket>, stats: seq<SourceStats>, lastError: Option<string>,
               ghost failures: seq<Message>)
      requires |answers| == |SelectedSources(query)|
      modifies producer
      ensures var all := Gathered(SurveyOf(query, answers), |answers|);
              buckets == all.buckets && stats == all.stats && lastError == all.lastError
      ensures failures == FailuresOf(query, answers, old(producer.attempts))
      ensures producer.sent == old(producer.sent) + failures
      ensures producer.attempts == AttemptsAfter(old(producer.attempts), answers)
    {
      ghost var before, first := producer.sent, producer.attempts;
      var seen;
      buckets, stats, lastError, seen := AskAll(query, answers);
      failures := FailuresOf(query, answers, first);
      ToldAll(before, first, SelectedSources(query), query, answers, producer.refuses, producer.sent,
              producer.attempts);
    }

    /** The loop over the sources. */
    method AskAll(query: SearchQuery, answers: seq<Answer>)
      returns (buckets': seq<SourceBucket>, stats': seq<SourceStats>, lastError': Option<string>, seen': set<string>)
      requires |answers| == |SelectedSources(query)|
      modifies producer
      ensures HasCollected(query, answers, |answers|, buckets', stats', lastError', seen')
      ensures HasTold(old(producer.sent), old(producer.attempts), query, answers, |answers|)
    {
      ghost var before, first := producer.sent, producer.attempts;
      var buckets: seq<SourceBucket>, stats: seq<SourceStats>, lastError: Option<string> := [], [], None;
      var seen: set<string> := {};
      NothingCollected(query, answers);
      for k := 0 to |answers|
        invariant HasCollected(query, answers, k, buckets, stats, lastError, seen)
        invariant HasTold(before, first, query, answers, k)
      {
        buckets, stats, lastError, seen := AskNext(query, answers, k, buckets, stats, lastError, seen, before, first);
      }
      return buckets, stats, lastError, seen;
    }

    /** One iteration of the loop over the sources. */
    method AskNext(query: SearchQuery, answers: seq<Answer>, k: nat,
                   buckets: seq<SourceBucket>, stats: seq<SourceStats>, lastError: Option<string>, seen: set<string>,
                   ghost before: seq<Message>, ghost first: nat)
      returns (buckets': seq<SourceBucket>, stats': seq<SourceStats>, lastError': Option<string>, seen': set<string>)
      requires k < |answers| == |SelectedSources(query)|
      requires HasCollected(query, answers, k, buckets, stats, lastError, seen)
      requires HasTold(before, first, query, answers, k)
      modifies producer
      ensures HasCollected(query, answers, k + 1, buckets', stats', lastError', seen')
      ensures HasTold(before, first, query, answers, k + 1)
    {
      var sources := SelectedSources(query);
      ToldNext(before, first, sources, query, answers, producer.refuses, k, producer.sent, producer.attempts);
      buckets', stats', lastError', seen' :=
        Ask(sources[k], query, answers[k], buckets, stats, lastError, seen, Gathered(SurveyOf(query, answers), k));
      CollectedNext(query, answers, k, buckets', stats', lastError', seen');
    }

    /** The first `n` answers have been collected. */
    ghost predicate HasCollected(query: SearchQuery, answers: seq<Answer>, n: nat, buckets: seq<SourceBucket>,
                                 stats: seq<SourceStats>, lastError: Option<string>, seen: set<string>)
      requires n <= |answers| == |SelectedSources(query)|
    {
      Shows(buckets, stats, lastError, seen, Gathered(SurveyOf(query, answers), n))
    }

    /** Since `before` and `first`, the failures among the first `n` answers have been announced. */
    ghost predicate HasTold(before: seq<Message>, first: nat, query: SearchQuery, answers: seq<Answer>, n: nat)
      requires n <= |answers| == |SelectedSources(query)|
      reads producer
    {
      Told(before, first, SelectedSources(query), query, answers, producer.refuses, n, producer.sent, producer.attempts)
    }

    lemma NothingCollected(query: SearchQuery, answers: seq<Answer>)
      requires |answers| == |SelectedSources(query)|
      ensures HasCollected(query, answers, 0, [], [], None, {})
      ensures HasTold(producer.sent, producer.attempts, query, answers, 0)
    {
    }

    lemma CollectedNext(query: SearchQuery, answers: seq<Answer>, k: nat, buckets: seq<SourceBucket>,
                        stats: seq<SourceStats>, lastError: Option<string>, seen: set<string>)
      requires k < |answers| == |SelectedSources(query)|
      requires var source := SelectedSources(query)[k];
               Shows(buckets, stats, lastError, seen,
                     Gather(Gathered(SurveyOf(query, answers), k), source, strategies(source),
                            OutcomeOf(answers[k], source, query)))
      ensures HasCollected(query, answers, k + 1, buckets, stats, lastError, seen)
    {
      GatheredStep(query, answers, k);
    }

    ghost predicate Shows(buckets: seq<SourceBucket>, stats: seq<SourceStats>, lastError: Option<string>,
                          seen: set<string>, all: Collection) {
      buckets == all.buckets && stats == all.stats && lastError == all.lastError && Tracks(seen, all.marked)
    }

    /** What the answer of one source adds. */
    method Ask(source: string, query: SearchQuery, answer: Answer,
               buckets: seq<SourceBucket>, stats: seq<SourceStats>, lastError: Option<string>, seen: set<string>,
               ghost all: Collection)
      returns (buckets': seq<SourceBucket>, stats': seq<SourceStats>, lastError': Option<string>, seen': set<string>)
      requires Shows(buckets, stats, lastError, seen, all)
      modifies producer
      ensures Shows(buckets', stats', lastError', seen',
                    Gather(all, source, strategies(source), OutcomeOf(answer, source, query)))
      ensures producer.sent == old(producer.sent) +
              if answer.Error? && !producer.refuses(old(producer.attempts))
              then [FailureOf(source, query, answer.message)]
              else []
      ensures producer.attempts == old(producer.attempts) + if answer.Error? then 1 else 0
    {
      buckets', stats', lastError', seen' := buckets, stats, lastError, seen;
      match answer
      case Error(error) =>
        stats' := stats + [SourceStats(source, strategies(source), Broken, 0, 0, 0, 0, 0, error)];
        PublishFailure(source, query, error);
        lastError' := Some(error);
      case Candidates(found) =>
        var bucket, line;
        bucket, line, seen' := CollectFrom(source, found, query, seen, all.marked);
        if |bucket.entries| > 0 {
          buckets' := buckets + [bucket];
        }
        stats' := stats + [line];
    }

    /** Announces the failure of a source; an error of the producer is ignored. */
    method PublishFailure(source: string, query: SearchQuery, error: string)
      modifies producer
      ensures producer.sent == old(producer.sent) +
              if producer.refuses(old(producer.attempts)) then [] else [FailureOf(source, query, error)]
      ensures producer.attempts == old(producer.attempts) + 1
    {
      var message := FailureOf(source, query, error);
      var ignored := producer.Publish(message);
    }

    /** The answer of one source: its sorted bucket and its line of statistics. */
    method CollectFrom(source: string, found: seq<Candidate>, query: SearchQuery, alreadySeen: set<string>,
                       ghost marked: seq<Entry>)
      returns (bucket: SourceBucket, line: SourceStats, seen: set<string>)
      requires Tracks(alreadySeen, marked)
      ensures var intake := TakeAll(marked, EntriesOf(found, source, query));
              && Tracks(seen, intake.marked)
              && bucket == SourceBucket(source, Sorting.StableSort(Chosen(intake), Above))
              && line == StatsOf(source, strategies(source), |found|, intake)
    {
      var relevant, irrelevant, filtered;
      seen, relevant, irrelevant, filtered := TakeCandidates(found, source, query, alreadySeen, marked);
      var accepted := relevant;
      if |relevant| == 0 && |irrelevant| > 0 {
        accepted := irrelevant;
      } else {
        filtered := filtered + |irrelevant|;
      }
      bucket := SourceBucket(source, Sorting.StableSort(accepted, Above));
      var status := if |found| == 0 || |bucket.entries| == 0 then Empty else OK;
      line := SourceStats(source, strategies(source), status, |found|, |bucket.entries|, 0, 0, filtered, "");
    }

    /** Publishes the candidates in order, up to the first one that fails. */
    method PublishAll(candidates: seq<Candidate>, clock: nat -> Time)
      returns (error: Option<string>, ghost published: seq<Message>)
      modifies producer
      ensures producer.sent == old(producer.sent) + published
      ensures Announces(published, EventsOf(candidates, clock))
      ensures error.None? <==> |published| == |candidates|
      ensures error.Some? ==>
                FailsAt(EventsOf(candidates, clock), producer.refuses, old(producer.attempts), |published|)
    {
      published := [];
      for k := 0 to |candidates|
        invariant producer.sent == old(producer.sent) + published
        invariant |published| == k && Announces(published, EventsOf(candidates, clock))
        invariant producer.attempts == old(producer.attempts) + k
      {
        var r := PublishCandidate(producer, candidates[k], clock(k));
        if r.Err? {
          return Some(r.error), published;
        }
        published := published + [DiscoveredMessage(EventOf(candidates[k], clock(k)))];
      }
      return None, published;
    }

    /** The result of a valid search. Without candidates the last failure of a source, if any, is reported; otherwise an
        error means that publishing stopped at the first candidate that was not published, because its event is invalid
        or the attempt was refused; `first` attempts were made before those for candidates. Only a search without error
        counts candidates as published, and then all of them have been. */
    ghost predicate Reported(query: SearchQuery, answers: seq<Answer>, clock: nat -> Time, first: nat,
                             result: SearchResult, error: Option<string>, published: seq<Message>)
      requires |answers| == |SelectedSources(query)|
    {
      var all := Gathered(SurveyOf(query, answers), |answers|);
      var delivered := Delivered(all.buckets, query.limit);
      var counted := WithReturned(all.stats, delivered);
      var events := EventsOf(result.candidates, clock);
      && result.candidates == CandidatesOf(delivered)
      && Announces(published, events)
      && (delivered == [] ==> error == all.lastError)
      && (delivered != [] ==> (error.None? <==> |published| == |delivered|))
      && (delivered != [] && error.Some? ==> FailsAt(events, producer.refuses, first, |published|))
      && result.sourceStats == (if error.None? then WithPublished(counted, delivered) else counted)
      && (error.Some? ==> NothingPublished(result.sourceStats))
    }

    /** Counts, publishes and counts again. */
    method Report(query: SearchQuery, ghost answers: seq<Answer>, delivered: seq<Entry>, rawStats: seq<SourceStats>,
                  lastError: Option<string>, clock: nat -> Time)
      returns (result: SearchResult, error: Option<string>, ghost published: seq<Message>)
      requires |answers| == |SelectedSources(query)|
      requires var all := Gathered(SurveyOf(query, answers), |answers|);
               delivered == Delivered(all.buckets, query.limit) && rawStats == all.stats && lastError == all.lastError
      modifies producer
      ensures producer.sent == old(producer.sent) + published
      ensures Reported(query, answers, clock, old(producer.attempts), result, error, published)
    {
      NothingPublishedYet(SurveyOf(query, answers), |answers|, delivered);
      var stats := CountReturned(rawStats, delivered);
      result := SearchResult(CandidatesOf(delivered), stats);
      if |delivered| == 0 && lastError.Some? {
        return result, lastError, [];
      }
      error, published := PublishAll(result.candidates, clock);
      if error.Some? {
        return;
      }
      stats := CountPublished(stats, delivered);
      result := result.(sourceStats := stats);
    }

    method SearchAndPublish(rawQuery: SearchQuery, answers: seq<Answer>, clock: nat -> Time)
      returns (result: SearchResult, error: Option<string>, ghost published: seq<Message>)
      requires |answers| == |SelectedSources(Normalize(rawQuery))|
      modifies producer
      ensures var query := Normalize(rawQuery);
              query.text == "" ==>
                result == SearchResult([], []) && error.Some? && producer.sent == old(producer.sent)
      ensures var query, first := Normalize(rawQuery), old(producer.attempts);
              query.text != "" ==>
                && producer.sent == old(producer.sent) + FailuresOf(query, answers, first) + published
                && Reported(query, answers, clock, AttemptsAfter(first, answers), result, error, published)
    {
      var query := Normalize(rawQuery);
      if query.text == "" {
        return SearchResult([], []), Some("search query text is required"), [];
      }
      result, error, published := SearchNormalized(query, answers, clock);
    }

    method SearchNormalized(query: SearchQuery, answers: seq<Answer>, clock: nat -> Time)
      returns (result: SearchResult, error: Option<string>, ghost published: seq<Message>)
      requires |answers| == |SelectedSources(query)|
      modifies producer
      ensures producer.sent == old(producer.sent) + FailuresOf(query, answers, old(producer.attempts)) + published
      ensures Reported(query, answers, clock, AttemptsAfter(old(producer.attempts), answers), result, error, published)
    {
      var buckets, stats, lastError;
      ghost var failures;
      buckets, stats, lastError, failures := Collect(query, answers);
      var delivered := InterleaveCandidateBuckets(buckets, query.limit);
      result, error, published := Report(query, answers, delivered, stats, lastError, clock);
    }
  }

  // ----- Returned candidates are different -----

  ghost predicate AllGenuine(entries: seq<Entry>, query: SearchQuery) {
    forall e :: e in entries ==> Genuine(e, query)
  }

  lemma {:induction false} TakeAllGenuine(marked: seq<Entry>, found: seq<Entry>, query: SearchQuery)
    requires AllGenuine(marked, query) && AllGenuine(found, query)
    ensures AllGenuine(TakeAll(marked, found).marked, query)
  {
    if |found| > 0 {
      assert found == found[..|found| - 1] + [found[|found| - 1]];
      TakeAllGenuine(marked, found[..|found| - 1], query);
    }
  }

  lemma OutcomeIsGenuine(answer: Answer, source: string, query: SearchQuery)
    ensures var outcome := OutcomeOf(answer, source, query);
            outcome.Found? ==> AllGenuine(outcome.entries, query) && Keyed(outcome.entries)
  {
    if answer.Candidates? {
      EntriesAreGenuine(answer.found, source, query);
    }
  }

  lemma GatherGenuine(all: Collection, source: string, strategy: string, outcome: Outcome, query: SearchQuery)
    requires AllGenuine(all.marked, query) && (outcome.Found? ==> AllGenuine(outcome.entries, query))
    ensures AllGenuine(Gather(all, source, strategy, outcome).marked, query)
  {
    if outcome.Found? {
      TakeAllGenuine(all.marked, outcome.entries, query);
    }
  }

  lemma {:induction false} GatheredGenuine(survey: Survey, n: nat, query: SearchQuery)
    requires n <= |survey.sources|
    requires forall k :: 0 <= k < n && survey.outcomes[k].Found? ==> AllGenuine(survey.outcomes[k].entries, query)
    ensures AllGenuine(Gathered(survey, n).marked, query)
  {
    if n > 0 {
      var source, before, outcome := survey.sources[n - 1], Gathered(survey, n - 1), survey.outcomes[n - 1];
      GatheredGenuine(survey, n - 1, query);
      GatherGenuine(before, source, survey.strategies(source), outcome, query);
      assert Gathered(survey, n) == Gather(before, source, survey.strategies(source), outcome);
    }
  }

  /** The candidates are pairwise different in URL, in identifier within the source, and in title, up to letter case. */
  ghost predicate AllDifferent(candidates: seq<Candidate>) {
    forall i, j :: 0 <= i < j < |candidates| ==> !HaveCommonKey(candidates[i], candidates[j])
  }

  lemma UnrelatedAreDifferent(delivered: seq<Entry>, query: SearchQuery)
    requires Unrelated(delivered) && AllGenuine(delivered, query)
    ensures AllDifferent(CandidatesOf(delivered))
  {
    forall i, j | 0 <= i < j < |delivered| ensures !HaveCommonKey(delivered[i].candidate, delivered[j].candidate) {
      assert delivered[i] in delivered && delivered[j] in delivered;
      assert !SharesKey(delivered[i], delivered[j]);
    }
  }

  lemma DeliveredAreGenuine(all: Collection, limit: int, query: SearchQuery)
    requires Sound(all) && AllGenuine(all.marked, query)
    ensures AllGenuine(Delivered(all.buckets, limit), query)
  {
    var delivered := Delivered(all.buckets, limit);
    forall e | e in delivered ensures Genuine(e, query) {
      var i: nat :| i < |delivered| && delivered[i] == e;
      DeliveredAreMarked(all, limit, i);
    }
  }

  /** The survey of a search is keyed, and what it returns is genuine. */
  lemma SearchIsGenuine(usecase: Usecase, query: SearchQuery, answers: seq<Answer>)
    requires |answers| == |usecase.SelectedSources(query)|
    ensures var survey := usecase.SurveyOf(query, answers);
            var all := Gathered(survey, |answers|);
            AllKeyed(survey) && Sound(all) && AllGenuine(Delivered(all.buckets, query.limit), query)
  {
    var sources, survey := usecase.SelectedSources(query), usecase.SurveyOf(query, answers);
    forall k | 0 <= k < |answers| && survey.outcomes[k].Found?
      ensures AllGenuine(survey.outcomes[k].entries, query) && Keyed(survey.outcomes[k].entries)
    {
      OutcomeIsGenuine(answers[k], sources[k], query);
    }
    GatheredIsSound(survey, |answers|);
    GatheredGenuine(survey, |answers|, query);
    DeliveredAreGenuine(Gathered(survey, |answers|), query.limit, query);
  }

  /** Whatever the parsers answer, any two returned candidates, of the same source or of different ones, have no
      deduplication key in common. */
  lemma ReturnedCandidatesDiffer(usecase: Usecase, query: SearchQuery, answers: seq<Answer>)
    requires |answers| == |usecase.SelectedSources(query)|
    ensures AllDifferent(CandidatesOf(Delivered(Gathered(usecase.SurveyOf(query, answers), |answers|).buckets,
                                                query.limit)))
  {
    var all := Gathered(usecase.SurveyOf(query, answers), |answers|);
    SearchIsGenuine(usecase, query, answers);
    DeliveredAreUnrelated(all, query.limit);
    UnrelatedAreDifferent(Delivered(all.buckets, query.limit), query);
  }

  // ----- Counts of a search -----

  /** The name under which a candidate is returned. */
  function GivenName(c: Candidate, source: string): string {
    OrElse(TrimSpace(c.sourceName), TrimSpace(source))
  }

  /** Every candidate found comes under the name of a source that is asked exactly once. */
  ghost predicate CandidatesNamedOnce(answers: seq<Answer>, sources: seq<string>)
    requires |answers| == |sources|
  {
    forall k, i :: 0 <= k < |answers| && answers[k].Candidates? && 0 <= i < |answers[k].found| ==>
                     TimesAsked(sources, GivenName(answers[k].found[i], sources[k])) == 1
  }

  /** Different sources, and candidates without a name or with that of a selected source, meet the condition. */
  lemma SelectedNamesAreNamedOnce(answers: seq<Answer>, sources: seq<string>)
    requires |answers| == |sources| && FirstSeen.NoRepeats(sources)
    requires forall k :: 0 <= k < |sources| ==> TrimSpace(sources[k]) == sources[k]
    requires forall k, i :: 0 <= k < |answers| && answers[k].Candidates? && 0 <= i < |answers[k].found| ==>
                              IsBlank(answers[k].found[i].sourceName) ||
                              TrimSpace(answers[k].found[i].sourceName) in sources
    ensures CandidatesNamedOnce(answers, sources)
  {
    forall k, i | 0 <= k < |answers| && answers[k].Candidates? && 0 <= i < |answers[k].found|
      ensures TimesAsked(sources, GivenName(answers[k].found[i], sources[k])) == 1
    {
      AskedOnce(sources, GivenName(answers[k].found[i], sources[k]));
    }
  }

  lemma AnswersAreNamedOnce(usecase: Usecase, query: SearchQuery, answers: seq<Answer>)
    requires |answers| == |usecase.SelectedSources(query)| &&
             CandidatesNamedOnce(answers, usecase.SelectedSources(query))
    ensures AnswersNamedOnce(usecase.SurveyOf(query, answers))
  {
    var sources, survey := usecase.SelectedSources(query), usecase.SurveyOf(query, answers);
    forall p | IsPlace(survey, p) ensures TimesAsked(sources, NameOf(EntryAt(survey, p))) == 1 {
      var c := answers[p.source].found[p.index];
      assert EntryAt(survey, p) == EntryOf(c, sources[p.source], query);
      assert NameOf(EntryAt(survey, p)) == GivenName(c, sources[p.source]);
    }
  }

  /** Whatever the parsers answer: if all candidates come under the name of a source asked exactly once, the returned
      counts of the statistics add up to the number of candidates returned. */
  lemma ReturnedCountsOfSearch(usecase: Usecase, query: SearchQuery, answers: seq<Answer>)
    requires |answers| == |usecase.SelectedSources(query)| &&
             CandidatesNamedOnce(answers, usecase.SelectedSources(query))
    requires query.limit >= 0
    ensures var all := Gathered(usecase.SurveyOf(query, answers), |answers|);
            var delivered := Delivered(all.buckets, query.limit);
            Sum(ReturnedColumn(WithReturned(all.stats, delivered))) == |CandidatesOf(delivered)|
  {
    var survey := usecase.SurveyOf(query, answers);
    AnswersAreNamedOnce(usecase, query, answers);
    ReturnedCountsAddUp(survey, query.limit);
    ReturnedColumnIsCounts(survey, Delivered(Gathered(survey, |answers|).buckets, query.limit));
  }

  /** What the statistics of a search say it has returned. */
  lemma ReportedColumn(usecase: Usecase, query: SearchQuery, answers: seq<Answer>, clock: nat -> Time, first: nat,
                       result: SearchResult, error: Option<string>, published: seq<Message>)
    requires |answers| == |usecase.SelectedSources(query)|
    requires usecase.Reported(query, answers, clock, first, result, error, published)
    ensures var delivered := Delivered(Gathered(usecase.SurveyOf(query, answers), |answers|).buckets, query.limit);
            && result.candidates == CandidatesOf(delivered)
            && ReturnedColumn(result.sourceStats) == ReturnedCounts(delivered, usecase.SelectedSources(query))
  {
    var survey := usecase.SurveyOf(query, answers);
    var all := Gathered(survey, |answers|);
    var delivered := Delivered(all.buckets, query.limit);
    ReturnedColumnIsCounts(survey, delivered);
    PublishedColumnIsApart(WithReturned(all.stats, delivered), delivered);
  }

  /** A source named twice in the query is asked twice. */
  lemma RepeatedSourcesAreAskedTwice(usecase: Usecase, query: SearchQuery, source: string)
    requires TrimSpace(source) == source != "" && source in usecase.sourceOrder && usecase.enabled(source)
    ensures usecase.SelectedSources(query.(sources := [source])) == [source]
    ensures usecase.SelectedSources(query.(sources := [source, source])) == [source, source]
  {
    assert [source, source][..1] == [source] && [source][..0] == [];
    assert usecase.Wanted([source]) == [source];
  }

  /** The survey in which the same source answers each time with the same candidate. */
  lemma SurveyOfOneCandidate(usecase: Usecase, query: SearchQuery, answers: seq<Answer>, source: string, c: Candidate)
    requires |answers| == |usecase.SelectedSources(query)|
    requires forall k :: 0 <= k < |answers| ==> usecase.SelectedSources(query)[k] == source
    requires forall k :: 0 <= k < |answers| ==> answers[k] == Candidates([c])
    ensures var survey, e := usecase.SurveyOf(query, answers), EntryOf(c, source, query);
            && |survey.outcomes| == |answers| && (forall k :: 0 <= k < |answers| ==> survey.outcomes[k] == Found([e]))
            && NameOf(e) == GivenName(c, source) && (e.usable ==> |e.keys| > 0)
  {
    EntriesAreGenuine([c], source, query);
    assert EntryOf(c, source, query) == EntriesOf([c], source, query)[0];
    assert EntriesOf([c], source, query) == [EntryOf(c, source, query)];
  }

  lemma RepeatedSourceSurvey(usecase: Usecase, query: SearchQuery, source: string, c: Candidate, answers: seq<Answer>)
    requires TrimSpace(source) == source != "" && source in usecase.sourceOrder && usecase.enabled(source)
    requires query.sources == [source, source] && query.limit > 0
    requires EntryOf(c, source, query).usable && GivenName(c, source) == source
    requires answers == [Candidates([c]), Candidates([c])] && |answers| == |usecase.SelectedSources(query)|
    ensures var all, e := Gathered(usecase.SurveyOf(query, answers), 2), EntryOf(c, source, query);
            && Delivered(all.buckets, query.limit) == [e] && Sum(ReturnedCounts([e], [source, source])) == 2
            && |all.stats| == 2 && all.stats[1].acceptedCount == 0 && CountBySource([e], source) == 1
  {
    RepeatedSourcesAreAskedTwice(usecase, query, source);
    var survey, e := usecase.SurveyOf(query, answers), EntryOf(c, source, query);
    SurveyOfOneCandidate(usecase, query, answers, source, c);
    assert survey.outcomes == [Found([e]), Found([e])];
    RepeatedSourceCountsTwice(survey, source, e, query.limit);
  }

  /** The query names a source twice, and the source finds one usable candidate of its own both times: the search
      returns the candidate once, and its statistics say that two have been returned, one by a line that had accepted
      none. */
  lemma RepeatedSourceReturnsTwice(usecase: Usecase, query: SearchQuery, source: string, c: Candidate,
                                   answers: seq<Answer>, clock: nat -> Time, first: nat, result: SearchResult,
                                   error: Option<string>, published: seq<Message>)
    requires TrimSpace(source) == source != "" && source in usecase.sourceOrder && usecase.enabled(source)
    requires query.sources == [source, source] && query.limit > 0
    requires EntryOf(c, source, query).usable && GivenName(c, source) == source
    requires answers == [Candidates([c]), Candidates([c])] && |answers| == |usecase.SelectedSources(query)|
    requires usecase.Reported(query, answers, clock, first, result, error, published)
    ensures |result.candidates| == 1 && |result.sourceStats| == 2 && Sum(ReturnedColumn(result.sourceStats)) == 2
    ensures result.sourceStats[1].acceptedCount == 0 && result.sourceStats[1].returnedCount == 1
  {
    RepeatedSourceSurvey(usecase, query, source, c, answers);
    RepeatedSourcesAreAskedTwice(usecase, query, source);
    ReportedColumn(usecase, query, answers, clock, first, result, error, published);
    assert ReturnedColumn(result.sourceStats)[1] == CountBySource([EntryOf(c, source, query)], source);
  }

  /** The source finds one usable candidate that carries another name: the search returns it, and its statistics say
      that none has been returned. */
  lemma ForeignNameReturnsNothing(usecase: Usecase, query: SearchQuery, source: string, c: Candidate,
                                  answers: seq<Answer>, clock: nat -> Time, first: nat, result: SearchResult,
                                  error: Option<string>, published: seq<Message>)
    requires TrimSpace(source) == source != "" && source in usecase.sourceOrder && usecase.enabled(source)
    requires query.sources == [source] && query.limit > 0
    requires EntryOf(c, source, query).usable && GivenName(c, source) != source
    requires answers == [Candidates([c])] && |answers| == |usecase.SelectedSources(query)|
    requires usecase.Reported(query, answers, clock, first, result, error, published)
    ensures |result.candidates| == 1 && Sum(ReturnedColumn(result.sourceStats)) == 0
  {
    RepeatedSourcesAreAskedTwice(usecase, query, source);
    var survey, e := usecase.SurveyOf(query, answers), EntryOf(c, source, query);
    SurveyOfOneCandidate(usecase, query, answers, source, c);
    assert survey.outcomes == [Found([e])];
    ForeignNameIsNotCounted(survey, source, e, query.limit);
    ReportedColumn(usecase, query, answers, clock, first, result, error, published);
  }
}
