/**
 * The consume, handle, commit loop of the article service (`ConsumerLoop.Run`) under crashes and redelivery.
 *
 * A session is a state of one consumer group reading one log of events into one store. A crash, an error of the
 * handler or of a commit, and a clean stop all end a run of the loop; the next run starts at the committed offset.
 */
module ConsumerLoop {
  import opened Contracts
  import opened ArticleStore

  /** What a clean pass over the events leaves in the store, the times of parsing set aside. */
  function CleanPass(events: seq<DiscoveredEvent>): Store {
    if |events| == 0 then EMPTY
    else Saved(CleanPass(events[..|events| - 1]), ArticleOf(events[|events| - 1], ZERO_TIME))
  }

  function Undated(article: Article): Article {
    article.(parsedAt := ZERO_TIME)
  }

  function UndatedMap(articles: map<string, Article>): map<string, Article> {
    map key | key in articles :: Undated(articles[key])
  }

  /** The store without the times of parsing. */
  function UndatedStore(store: Store): Store {
    Store(UndatedMap(store.byURL), UndatedMap(store.byID))
  }

  lemma UndatedSaved(store: Store, event: DiscoveredEvent, now: Time)
    ensures UndatedStore(Saved(store, ArticleOf(event, now))) == Saved(UndatedStore(store), ArticleOf(event, ZERO_TIME))
  {
    var article, undated := ArticleOf(event, now), ArticleOf(event, ZERO_TIME);
    if article.url !in store.byURL {
      assert UndatedMap(store.byURL[article.url := article]) == UndatedMap(store.byURL)[article.url := undated];
      assert UndatedMap(store.byID[article.id := article]) == UndatedMap(store.byID)[article.id := undated];
    }
  }

  /** A clean pass knows the URL of every event it has seen. */
  lemma {:induction false} CleanPassKnows(events: seq<DiscoveredEvent>, i: nat)
    requires i < |events|
    ensures events[i].url in CleanPass(events).byURL
  {
    if i < |events| - 1 {
      CleanPassKnows(events[..|events| - 1], i);
    }
  }

  // ----- Sessions -----

  datatype Phase = Waiting | Fetched | Handled

  /** `committed` is the offset of the consumer group, `position` that of the next or current message of this run. */
  datatype Session = Session(committed: nat, position: nat, phase: Phase, store: Store)

  /** One step: the clock reading `now` is the one taken while an event is handled. */
  datatype Action = Fetch | Handle(now: Time) | Commit | Restart

  const INITIAL := Session(0, 0, Waiting, EMPTY)

  /** `commits` says whether the consumer can commit at all; if not, the loop goes on without. */
  predicate CanDo(log: seq<DiscoveredEvent>, s: Session, a: Action) {
    match a
    case Fetch => s.phase == Waiting && s.position < |log|
    case Handle(_) => s.phase == Fetched && s.position < |log| && ValidateDiscovered(log[s.position]).Ok?
    case Commit => s.phase == Handled
    case Restart => true
  }

  function Do(log: seq<DiscoveredEvent>, commits: bool, s: Session, a: Action): Session
    requires CanDo(log, s, a)
  {
    match a
    case Fetch => s.(phase := Fetched)
    case Handle(now) => s.(store := Saved(s.store, ArticleOf(log[s.position], now)), phase := Handled)
    case Commit =>
      var committed := if commits then s.position + 1 else s.committed;
      s.(position := s.position + 1, phase := Waiting, committed := committed)
    case Restart => s.(position := s.committed, phase := Waiting)
  }

  /** The message at the current position has been handled. */
  function HandledUpTo(s: Session): nat {
    if s.phase == Handled then s.position + 1 else s.position
  }

  /** The first `n` events of the log are valid. */
  ghost predicate AllValid(log: seq<DiscoveredEvent>, n: nat)
    requires n <= |log|
  {
    n == 0 || (AllValid(log, n - 1) && ValidateDiscovered(log[n - 1]).Ok?)
  }

  lemma {:induction false} ValidAt(log: seq<DiscoveredEvent>, n: nat, i: nat)
    requires i < n <= |log| && AllValid(log, n)
    ensures ValidateDiscovered(log[i]).Ok?
  {
    if i < n - 1 {
      ValidAt(log, n - 1, i);
    }
  }

  /** `high` messages have been handled so far, some of them perhaps more than once. */
  ghost predicate Invariant(log: seq<DiscoveredEvent>, commits: bool, s: Session, high: nat) {
    && s.committed <= s.position && HandledUpTo(s) <= high <= |log|
    && (commits ==> s.position == s.committed && high <= s.committed + 1)
    && (s.phase == Fetched ==> s.position < |log|)
    && AllValid(log, high)
    && UndatedStore(s.store) == CleanPass(log[..high])
    && Consistent(s.store)
  }

  /** Handling an event a second time changes nothing. */
  lemma RedeliveryIsHarmless(log: seq<DiscoveredEvent>, store: Store, high: nat, i: nat, now: Time)
    requires i < high <= |log| && UndatedStore(store) == CleanPass(log[..high])
    ensures Saved(store, ArticleOf(log[i], now)) == store
  {
    CleanPassKnows(log[..high], i);
    assert log[i].url in UndatedStore(store).byURL;
  }

  function NextHigh(s: Session, a: Action, high: nat): nat {
    if a.Handle? && s.position == high then high + 1 else high
  }

  lemma CleanPassGrows(log: seq<DiscoveredEvent>, store: Store, high: nat, now: Time)
    requires high < |log| && UndatedStore(store) == CleanPass(log[..high])
    ensures UndatedStore(Saved(store, ArticleOf(log[high], now))) == CleanPass(log[..high + 1])
  {
    UndatedSaved(store, log[high], now);
    assert log[..high + 1][..high] == log[..high];
  }

  lemma HandleKeepsInvariant(log: seq<DiscoveredEvent>, commits: bool, s: Session, now: Time, high: nat)
    requires Invariant(log, commits, s, high) && s.phase == Fetched && ValidateDiscovered(log[s.position]).Ok?
    ensures Invariant(log, commits, s.(store := Saved(s.store, ArticleOf(log[s.position], now)), phase := Handled),
                      if s.position == high then high + 1 else high)
  {
    var store := Saved(s.store, ArticleOf(log[s.position], now));
    var next := if s.position == high then high + 1 else high;
    assert Consistent(store) by {
      SavedIsConsistent(s.store, ArticleOf(log[s.position], now));
    }
    assert UndatedStore(store) == CleanPass(log[..next]) by {
      if s.position < high {
        RedeliveryIsHarmless(log, s.store, high, s.position, now);
      } else {
        CleanPassGrows(log, s.store, high, now);
      }
    }
  }

  lemma StepKeepsInvariant(log: seq<DiscoveredEvent>, commits: bool, s: Session, a: Action, high: nat)
    requires Invariant(log, commits, s, high) && CanDo(log, s, a)
    ensures Invariant(log, commits, Do(log, commits, s, a), NextHigh(s, a, high))
  {
    if a.Handle? {
      HandleKeepsInvariant(log, commits, s, a.now, high);
    }
  }

  // ----- Runs -----

  ghost predicate IsRun(log: seq<DiscoveredEvent>, commits: bool, s: Session, actions: seq<Action>)
    decreases actions
  {
    |actions| == 0 || (CanDo(log, s, actions[0]) && IsRun(log, commits, Do(log, commits, s, actions[0]), actions[1..]))
  }

  ghost function After(log: seq<DiscoveredEvent>, commits: bool, s: Session, actions: seq<Action>): Session
    requires IsRun(log, commits, s, actions)
    decreases actions
  {
    if |actions| == 0 then s else After(log, commits, Do(log, commits, s, actions[0]), actions[1..])
  }

  /** In every run, with any number of restarts anywhere, the store equals one clean pass over the messages handled
      so far. */
  lemma {:induction false} RunKeepsInvariant(log: seq<DiscoveredEvent>, commits: bool, s: Session, actions: seq<Action>,
                                             high: nat)
    returns (last: nat)
    requires Invariant(log, commits, s, high) && IsRun(log, commits, s, actions)
    ensures last >= high && Invariant(log, commits, After(log, commits, s, actions), last)
    decreases actions
  {
    last := high;
    if |actions| > 0 {
      StepKeepsInvariant(log, commits, s, actions[0], high);
      last := RunKeepsInvariant(log, commits, Do(log, commits, s, actions[0]), actions[1..],
                                NextHigh(s, actions[0], high));
    }
  }

  lemma InitialInvariant(log: seq<DiscoveredEvent>, commits: bool)
    ensures Invariant(log, commits, INITIAL, 0)
  {
    assert UndatedMap(map[]) == map[];
  }

  /** Commits lag behind handled messages by at most one; the store equals one clean pass over the handled ones, and
      its index by identifier is part of its index by URL. */
  lemma StoreIsCleanPass(log: seq<DiscoveredEvent>, actions: seq<Action>) returns (handled: nat)
    requires IsRun(log, true, INITIAL, actions)
    ensures var s := After(log, true, INITIAL, actions);
            && s.committed <= handled <= |log| && handled <= s.committed + 1
            && UndatedStore(s.store) == CleanPass(log[..handled])
            && Consistent(s.store)
  {
    InitialInvariant(log, true);
    handled := RunKeepsInvariant(log, true, INITIAL, actions, 0);
  }

  /** The loop never gets past an invalid event. */
  lemma StuckAtInvalid(log: seq<DiscoveredEvent>, commits: bool, actions: seq<Action>, i: nat)
    requires IsRun(log, commits, INITIAL, actions)
    requires i < |log| && ValidateDiscovered(log[i]).Err?
    ensures After(log, commits, INITIAL, actions).committed <= i && After(log, commits, INITIAL, actions).position <= i
  {
    InitialInvariant(log, commits);
    var high := RunKeepsInvariant(log, commits, INITIAL, actions, 0);
    if i < high {
      ValidAt(log, high, i);
    }
  }

  /** Reading the log from offset `from` on without interruption. */
  function Straight(log: seq<DiscoveredEvent>, from: nat, now: Time): seq<Action>
    requires from <= |log|
    decreases |log| - from
  {
    if from == |log| then [] else [Fetch, Handle(now), Commit] + Straight(log, from + 1, now)
  }

  ghost predicate CommitsAll(log: seq<DiscoveredEvent>, s: Session, actions: seq<Action>) {
    IsRun(log, true, s, actions) && After(log, true, s, actions).committed == |log|
  }

  lemma OneMessage(log: seq<DiscoveredEvent>, s: Session, now: Time, rest: seq<Action>)
    requires s.phase == Waiting && s.position < |log| && ValidateDiscovered(log[s.position]).Ok?
    requires var store := Saved(s.store, ArticleOf(log[s.position], now));
             CommitsAll(log, Session(s.position + 1, s.position + 1, Waiting, store), rest)
    ensures CommitsAll(log, s, [Fetch, Handle(now), Commit] + rest)
  {
    var all := [Fetch, Handle(now), Commit] + rest;
    var fetched := Do(log, true, s, Fetch);
    var handled := Do(log, true, fetched, Handle(now));
    assert all[1..][1..][1..] == rest;
    assert CommitsAll(log, handled, all[1..][1..]);
    assert CommitsAll(log, fetched, all[1..]);
  }

  lemma {:induction false} StraightCommitsAll(log: seq<DiscoveredEvent>, s: Session, now: Time)
    requires s.phase == Waiting && s.position == s.committed <= |log|
    requires AllValid(log, |log|)
    ensures CommitsAll(log, s, Straight(log, s.position, now))
    decreases |log| - s.position
  {
    if s.position < |log| {
      var next := Session(s.position + 1, s.position + 1, Waiting, Saved(s.store, ArticleOf(log[s.position], now)));
      StraightCommitsAll(log, next, now);
      ValidAt(log, |log|, s.position);
      OneMessage(log, s, now, Straight(log, s.position + 1, now));
    }
  }

  lemma CommittedIsValid(log: seq<DiscoveredEvent>, s: Session, high: nat)
    requires Invariant(log, true, s, high) && s.committed == |log|
    ensures AllValid(log, |log|)
  {
  }

  lemma CommittingNeedsValidity(log: seq<DiscoveredEvent>, s: Session, high: nat, rest: seq<Action>)
    requires Invariant(log, true, s, high) && CommitsAll(log, s, rest)
    ensures AllValid(log, |log|)
  {
    var last := RunKeepsInvariant(log, true, s, rest, high);
    CommittedIsValid(log, After(log, true, s, rest), last);
  }

  ghost predicate CanCommitAll(log: seq<DiscoveredEvent>, s: Session) {
    exists rest :: CommitsAll(log, s, rest)
  }

  /** Whatever has happened, a restarted loop can still commit the whole log if and only if every event is valid. */
  lemma LogCanBeCommitted(log: seq<DiscoveredEvent>, actions: seq<Action>)
    requires IsRun(log, true, INITIAL, actions)
    ensures CanCommitAll(log, Do(log, true, After(log, true, INITIAL, actions), Restart)) <==> AllValid(log, |log|)
  {
    InitialInvariant(log, true);
    var high := RunKeepsInvariant(log, true, INITIAL, actions, 0);
    var before := After(log, true, INITIAL, actions);
    var s := Do(log, true, before, Restart);
    StepKeepsInvariant(log, true, before, Restart, high);
    if AllValid(log, |log|) {
      StraightCommitsAll(log, s, ZERO_TIME);
    }
    if CanCommitAll(log, s) {
      var rest :| CommitsAll(log, s, rest);
      CommittingNeedsValidity(log, s, high, rest);
    }
  }

  const UNTITLED := DiscoveredEvent("habr", "1", "https://habr.com/1", "", "", "", "", [], "ru", ZERO_TIME, 1)

  /** A log that consists of an event without a title is never committed, whatever happens. */
  lemma UntitledEventIsNeverCommitted(actions: seq<Action>)
    requires IsRun([UNTITLED], true, INITIAL, actions)
    ensures !CanCommitAll([UNTITLED], Do([UNTITLED], true, After([UNTITLED], true, INITIAL, actions), Restart))
  {
    LogCanBeCommitted([UNTITLED], actions);
    assert ValidateDiscovered(UNTITLED).Err?;
    assert !AllValid([UNTITLED], 1);
  }

  // ----- The loop -----

  /** What goes wrong at the message number `handled` of a run: fetching stops or fails, the message cannot be read,
      the context is cancelled before the event is stored, or committing fails. */
  datatype Fault = NoFault | FetchStops | FetchFails | HandleFails | Cancelled | CommitFails

  /** A consumer of the log that holds the offset of its group. */
  class MessageConsumer {
    const log: seq<DiscoveredEvent>
    const commits: bool
    var committed: nat
    var position: nat
    var closed: bool

    constructor (log: seq<DiscoveredEvent>, commits: bool, committed: nat)
      ensures this.log == log && this.commits == commits && this.committed == committed
      ensures position == committed && !closed
    {
      this.log, this.commits, this.committed, position, closed := log, commits, committed, committed, false;
    }
  }

  ghost function SessionOf(consumer: MessageConsumer, store: MemoryArticleStore): Session
    reads consumer, store
  {
    Session(consumer.committed, consumer.position, Waiting, store.Contents())
  }

  /** Handles the message at the current position; if the handler fails, nothing has changed. */
  method HandleMessage(consumer: MessageConsumer, store: MemoryArticleStore, cancelled: bool, now: Time,
                       ghost high: nat)
    returns (created: Result<CreatedEvent>, ghost last: nat)
    requires Invariant(consumer.log, consumer.commits, SessionOf(consumer, store), high)
    requires consumer.position < |consumer.log|
    modifies store
    ensures created.Ok? <==> ValidateDiscovered(consumer.log[consumer.position]).Ok? && !cancelled
    ensures created.Err? ==> last == high && Invariant(consumer.log, consumer.commits, SessionOf(consumer, store), high)
    ensures created.Ok? ==> last >= high
    ensures created.Ok? ==>
              Invariant(consumer.log, consumer.commits, SessionOf(consumer, store).(phase := Handled), last)
  {
    ghost var s := SessionOf(consumer, store).(phase := Fetched);
    last := high;
    created := IngestDiscovered(store, consumer.log[consumer.position], cancelled, now);
    if created.Ok? {
      StepKeepsInvariant(consumer.log, consumer.commits, s, Handle(now), high);
      last := NextHigh(s, Handle(now), high);
    }
  }

  /** One run of the loop, with arbitrary faults and clock readings, ends with the consumer closed. It keeps the
      invariant of sessions, has handled and committed `handled` messages, and had a reason to stop or to fail. */
  method Run(consumer: MessageConsumer, store: MemoryArticleStore, maxMessages: int, faults: nat -> Fault,
             clock: nat -> Time, ghost high: nat)
    returns (r: Result<()>, ghost handled: nat, ghost last: nat)
    requires Invariant(consumer.log, consumer.commits, SessionOf(consumer, store), high)
    modifies consumer, store
    ensures consumer.closed
    ensures last >= high && Invariant(consumer.log, consumer.commits, SessionOf(consumer, store), last)
    ensures Advanced(consumer, old(consumer.position), old(consumer.committed), maxMessages, handled)
    ensures if r.Ok? then Stopped(consumer, maxMessages, faults, handled) else Failed(consumer, faults, handled)
  {
    r, handled, last := Consume(consumer, store, maxMessages, faults, clock, high);
    consumer.closed := true;
  }

  method Consume(consumer: MessageConsumer, store: MemoryArticleStore, maxMessages: int, faults: nat -> Fault,
                 clock: nat -> Time, ghost high: nat)
    returns (r: Result<()>, ghost handledCount: nat, ghost last: nat)
    requires Invariant(consumer.log, consumer.commits, SessionOf(consumer, store), high)
    modifies consumer`committed, consumer`position, store
    ensures last >= high && Invariant(consumer.log, consumer.commits, SessionOf(consumer, store), last)
    ensures Advanced(consumer, old(consumer.position), old(consumer.committed), maxMessages, handledCount)
    ensures if r.Ok? then Stopped(consumer, maxMessages, faults, handledCount)
            else Failed(consumer, faults, handledCount)
  {
    var handled := 0;
    last := high;
    while !(maxMessages > 0 && handled >= maxMessages)
      invariant last >= high && Invariant(consumer.log, consumer.commits, SessionOf(consumer, store), last)
      invariant Advanced(consumer, old(consumer.position), old(consumer.committed), maxMessages, handled)
      decreases |consumer.log| - consumer.position
    {
      var fault := faults(handled);
      if fault == FetchFails {
        return Err("fetch failed"), handled, last;
      }
      if fault == FetchStops || consumer.position >= |consumer.log| {
        return Ok(()), handled, last;
      }
      if fault == HandleFails {
        return Err("handler failed"), handled, last;
      }
      var created;
      created, last := HandleMessage(consumer, store, fault == Cancelled, clock(handled), last);
      if created.Err? {
        return Err(created.error), handled, last;
      }
      if consumer.commits && fault == CommitFails {
        return Err("commit failed"), handled, last;
      }
      Advance(consumer, store, last);
      handled := handled + 1;
    }
    return Ok(()), handled, last;
  }

  /** Commits the handled message, if the consumer can, and goes on to the next one. */
  method Advance(consumer: MessageConsumer, store: MemoryArticleStore, ghost high: nat)
    requires Invariant(consumer.log, consumer.commits, SessionOf(consumer, store).(phase := Handled), high)
    modifies consumer`committed, consumer`position
    ensures Invariant(consumer.log, consumer.commits, SessionOf(consumer, store), high)
    ensures consumer.position == old(consumer.position) + 1
    ensures consumer.committed == if consumer.commits then old(consumer.position) + 1 else old(consumer.committed)
  {
    StepKeepsInvariant(consumer.log, consumer.commits, SessionOf(consumer, store).(phase := Handled), Commit, high);
    if consumer.commits {
      consumer.committed := consumer.position + 1;
    }
    consumer.position := consumer.position + 1;
  }

  /** So many messages have been handled, and committed if the consumer can, since the run began. */
  ghost predicate Advanced(consumer: MessageConsumer, position: nat, committed: nat, maxMessages: int, handled: nat)
    reads consumer
  {
    && consumer.position == position + handled
    && (maxMessages > 0 ==> handled <= maxMessages)
    && consumer.committed == (if consumer.commits && handled > 0 then position + handled else committed)
  }

  /** Why a run ends without error. */
  ghost predicate Stopped(consumer: MessageConsumer, maxMessages: int, faults: nat -> Fault, handled: nat)
    reads consumer
  {
    || (maxMessages > 0 && handled == maxMessages)
    || faults(handled) == FetchStops
    || consumer.position >= |consumer.log|
  }

  /** Why a run ends with an error: the next message could not be fetched, handled or committed. */
  ghost predicate Failed(consumer: MessageConsumer, faults: nat -> Fault, handled: nat)
    reads consumer
  {
    || faults(handled) == FetchFails
    || (consumer.position < |consumer.log| &&
        (|| faults(handled) == HandleFails
         || faults(handled) == Cancelled
         || ValidateDiscovered(consumer.log[consumer.position]).Err?
         || (consumer.commits && faults(handled) == CommitFails)))
  }
}
