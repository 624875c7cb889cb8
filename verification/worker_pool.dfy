/**
 * The worker pool that fetches dzen articles (`fetchCandidates`): up to four goroutines, an unbuffered job channel,
 * a result channel with room for every result, and reassembly by index. It is a transition system over the steps of
 * the main goroutine and the workers; every statement below holds for every schedule.
 */
module WorkerPool {
  import opened Contracts
  import Selections
  import Slices

  const MAX_AGE: int := 5 * 365 * 24 * NANOS_PER_HOUR

  /** What fetching one article gives. */
  datatype Fetched = Fetched(candidate: Candidate, ok: bool)

  datatype Delivery = Delivery(index: nat, fetched: Fetched)

  datatype Worker = Idle | Fetching(index: nat) | Delivering(delivery: Delivery) | Exited

  /** `next` is the next job to hand out, `results` the contents of the result channel; `closed` says that the job
      channel is closed and `joined` that the main goroutine has waited for all workers. */
  datatype Pool = Pool(next: nat, closed: bool, workers: seq<Worker>, results: seq<Delivery>, joined: bool)

  /** A hand-over is one step of two goroutines, for the job channel has no buffer. */
  datatype Action = Hand(w: nat) | Close | Fetch(w: nat) | Deliver(w: nat) | Exit(w: nat) | Join

  function WorkerCount(n: nat): nat {
    if n < 4 then n else 4
  }

  function Initial(n: nat): Pool {
    Pool(0, false, seq(WorkerCount(n), _ => Idle), [], false)
  }

  /** The action is possible; `n` is the number of jobs and the capacity of the result channel. */
  predicate CanDo(n: nat, s: Pool, a: Action) {
    match a
    case Hand(w) => w < |s.workers| && s.workers[w].Idle? && s.next < n && !s.closed
    case Close => s.next >= n && !s.closed
    case Fetch(w) => w < |s.workers| && s.workers[w].Fetching?
    case Deliver(w) => w < |s.workers| && s.workers[w].Delivering? && |s.results| < n
    case Exit(w) => w < |s.workers| && s.workers[w].Idle? && s.closed
    case Join => s.closed && !s.joined && forall w :: 0 <= w < |s.workers| ==> s.workers[w].Exited?
  }

  /** `answers[i]` is what the network gives for job `i`. */
  function Do(answers: seq<Fetched>, s: Pool, a: Action): Pool
    requires CanDo(|answers|, s, a) && Invariant(answers, s)
  {
    match a
    case Hand(w) => s.(next := s.next + 1, workers := s.workers[w := Fetching(s.next)])
    case Close => s.(closed := true)
    case Fetch(w) =>
      assert HoldsAnswer(answers, s.next, s.workers[w]);
      var i := s.workers[w].index;
      s.(workers := s.workers[w := Delivering(Delivery(i, answers[i]))])
    case Deliver(w) => s.(results := s.results + [s.workers[w].delivery], workers := s.workers[w := Idle])
    case Exit(w) => s.(workers := s.workers[w := Exited])
    case Join => s.(joined := true)
  }

  // ----- The invariant -----

  predicate HoldsAnswer(answers: seq<Fetched>, next: nat, worker: Worker) {
    match worker
    case Fetching(i) => i < next <= |answers|
    case Delivering(d) => d.index < next <= |answers| && d.fetched == answers[d.index]
    case _ => true
  }

  predicate HoldsJob(worker: Worker, i: nat) {
    worker == Fetching(i) || (worker.Delivering? && worker.delivery.index == i)
  }

  /** How many workers are busy with job `i`. */
  function BusyWith(workers: seq<Worker>, i: nat): nat {
    if |workers| == 0 then 0
    else BusyWith(workers[..|workers| - 1], i) + if HoldsJob(workers[|workers| - 1], i) then 1 else 0
  }

  /** How many results of job `i` are in the channel. */
  function DeliveredOf(results: seq<Delivery>, i: nat): nat {
    if |results| == 0 then 0
    else DeliveredOf(results[..|results| - 1], i) + if results[|results| - 1].index == i then 1 else 0
  }

  predicate IsBusy(worker: Worker) {
    worker.Fetching? || worker.Delivering?
  }

  function Busy(workers: seq<Worker>): nat {
    if |workers| == 0 then 0
    else Busy(workers[..|workers| - 1]) + if IsBusy(workers[|workers| - 1]) then 1 else 0
  }

  /** What holds of the pool apart from the counts. */
  ghost predicate Shape(answers: seq<Fetched>, s: Pool) {
    && s.next <= |answers|
    && |s.workers| == WorkerCount(|answers|)
    && (s.closed ==> s.next == |answers|)
    && (s.joined ==> s.closed && forall w :: 0 <= w < |s.workers| ==> s.workers[w].Exited?)
    && (!s.closed ==> forall w :: 0 <= w < |s.workers| ==> !s.workers[w].Exited?)
    && (forall w :: 0 <= w < |s.workers| ==> HoldsAnswer(answers, s.next, s.workers[w]))
    && (forall k :: 0 <= k < |s.results| ==> IsAnswer(answers, s.results[k]))
  }

  ghost predicate IsAnswer(answers: seq<Fetched>, d: Delivery) {
    d.index < |answers| && d.fetched == answers[d.index]
  }

  /** Every job handed out is with exactly one worker or once in the channel, with the answer to that job. */
  ghost predicate Invariant(answers: seq<Fetched>, s: Pool) {
    && Shape(answers, s)
    && |s.results| + Busy(s.workers) == s.next
    && forall i: nat :: OncePerJob(s, i)
  }

  ghost predicate OncePerJob(s: Pool, i: nat) {
    Places(s.workers, s.results, i) == if i < s.next then 1 else 0
  }

  /** What replacing one worker does to the counts. */
  lemma {:induction false} UpdateWorker(workers: seq<Worker>, w: nat, worker: Worker, i: nat)
    requires w < |workers|
    ensures var updated := workers[w := worker];
            && BusyWith(updated, i) + (if HoldsJob(workers[w], i) then 1 else 0) ==
               BusyWith(workers, i) + (if HoldsJob(worker, i) then 1 else 0)
            && Busy(updated) + (if IsBusy(workers[w]) then 1 else 0) ==
               Busy(workers) + (if IsBusy(worker) then 1 else 0)
            && Work(updated) + Cost(workers[w]) == Work(workers) + Cost(worker)
  {
    var updated, last := workers[w := worker], |workers| - 1;
    if w == last {
      assert updated[..last] == workers[..last];
    } else {
      UpdateWorker(workers[..last], w, worker, i);
      assert updated[..last] == workers[..last][w := worker];
    }
  }

  lemma {:induction false} AllIdle(n: nat, i: nat)
    ensures var workers := seq(n, _ => Idle);
            BusyWith(workers, i) == 0 && Busy(workers) == 0 && Work(workers) == n
  {
    if n > 0 {
      AllIdle(n - 1, i);
      assert seq(n, _ => Idle)[..n - 1] == seq(n - 1, _ => Idle);
    }
  }

  lemma InitialInvariant(answers: seq<Fetched>)
    ensures Invariant(answers, Initial(|answers|))
  {
    forall i: nat ensures OncePerJob(Initial(|answers|), i) {
      AllIdle(WorkerCount(|answers|), i);
    }
    AllIdle(WorkerCount(|answers|), 0);
  }

  lemma StepKeepsShape(answers: seq<Fetched>, s: Pool, a: Action)
    requires Invariant(answers, s) && CanDo(|answers|, s, a)
    ensures Shape(answers, Do(answers, s, a))
  {
    var t := Do(answers, s, a);
    if !a.Close? && !a.Join? {
      assert HoldsAnswer(answers, s.next, s.workers[a.w]);
    }
    forall w | 0 <= w < |t.workers| ensures HoldsAnswer(answers, t.next, t.workers[w]) {
      assert HoldsAnswer(answers, s.next, s.workers[w]);
    }
  }

  /** How often job `i` is found. */
  function Places(workers: seq<Worker>, results: seq<Delivery>, i: nat): nat {
    DeliveredOf(results, i) + BusyWith(workers, i)
  }

  /** A worker's own step moves its job from one place to the next, and touches no other job. */
  lemma MovedJob(workers: seq<Worker>, results: seq<Delivery>, w: nat, worker: Worker, i: nat)
    requires w < |workers|
    ensures (forall j :: HoldsJob(workers[w], j) <==> HoldsJob(worker, j)) ==>
              Places(workers[w := worker], results, i) == Places(workers, results, i)
    ensures workers[w].Delivering? && worker == Idle ==>
              Places(workers[w := worker], results + [workers[w].delivery], i) == Places(workers, results, i)
    ensures workers[w].Idle? && worker.Fetching? ==>
              Places(workers[w := worker], results, i) ==
              Places(workers, results, i) + if i == worker.index then 1 else 0
  {
    UpdateWorker(workers, w, worker, i);
    if workers[w].Delivering? {
      assert (results + [workers[w].delivery])[..|results|] == results;
    }
  }

  lemma StepKeepsCount(answers: seq<Fetched>, s: Pool, a: Action, i: nat)
    requires Invariant(answers, s) && CanDo(|answers|, s, a)
    ensures OncePerJob(Do(answers, s, a), i)
  {
    assert OncePerJob(s, i);
    if !a.Close? && !a.Join? {
      MovedJob(s.workers, s.results, a.w, Do(answers, s, a).workers[a.w], i);
    }
  }

  lemma StepKeepsTotal(answers: seq<Fetched>, s: Pool, a: Action)
    requires Invariant(answers, s) && CanDo(|answers|, s, a)
    ensures var t := Do(answers, s, a); |t.results| + Busy(t.workers) == t.next
  {
    if !a.Close? && !a.Join? {
      UpdateWorker(s.workers, a.w, Do(answers, s, a).workers[a.w], 0);
    }
  }

  lemma StepKeepsInvariant(answers: seq<Fetched>, s: Pool, a: Action)
    requires Invariant(answers, s) && CanDo(|answers|, s, a)
    ensures Invariant(answers, Do(answers, s, a))
  {
    StepKeepsShape(answers, s, a);
    StepKeepsTotal(answers, s, a);
    forall i: nat ensures OncePerJob(Do(answers, s, a), i) {
      StepKeepsCount(answers, s, a, i);
    }
  }

  // ----- Runs -----

  function Cost(worker: Worker): nat {
    match worker
    case Idle => 1
    case Fetching(_) => 3
    case Delivering(_) => 2
    case Exited => 0
  }

  function Work(workers: seq<Worker>): nat {
    if |workers| == 0 then 0 else Work(workers[..|workers| - 1]) + Cost(workers[|workers| - 1])
  }

  /** The number of steps still to be taken. */
  function Remaining(n: nat, s: Pool): nat
    requires s.next <= n
  {
    3 * (n - s.next) + Work(s.workers) + (if s.closed then 0 else 1) + (if s.joined then 0 else 1)
  }

  lemma StepTakesOne(answers: seq<Fetched>, s: Pool, a: Action)
    requires Invariant(answers, s) && CanDo(|answers|, s, a)
    ensures Do(answers, s, a).next <= |answers|
    ensures Remaining(|answers|, Do(answers, s, a)) == Remaining(|answers|, s) - 1
  {
    StepKeepsInvariant(answers, s, a);
    if !a.Close? && !a.Join? {
      UpdateWorker(s.workers, a.w, Do(answers, s, a).workers[a.w], 0);
    }
  }

  /** The schedule is possible from `s` on. */
  ghost predicate IsRun(answers: seq<Fetched>, s: Pool, schedule: seq<Action>)
    requires Invariant(answers, s)
    decreases schedule
  {
    |schedule| == 0 ||
    (CanDo(|answers|, s, schedule[0]) &&
     (StepKeepsInvariant(answers, s, schedule[0]);
      IsRun(answers, Do(answers, s, schedule[0]), schedule[1..])))
  }

  ghost function After(answers: seq<Fetched>, s: Pool, schedule: seq<Action>): (t: Pool)
    requires Invariant(answers, s) && IsRun(answers, s, schedule)
    ensures Invariant(answers, t)
    decreases schedule
  {
    if |schedule| == 0 then s
    else
      StepKeepsInvariant(answers, s, schedule[0]);
      After(answers, Do(answers, s, schedule[0]), schedule[1..])
  }

  /** Every run terminates, and every run that has ended took exactly the same number of steps. */
  lemma {:induction false} RunLength(answers: seq<Fetched>, s: Pool, schedule: seq<Action>)
    requires Invariant(answers, s) && IsRun(answers, s, schedule)
    ensures |schedule| + Remaining(|answers|, After(answers, s, schedule)) == Remaining(|answers|, s)
    decreases schedule
  {
    if |schedule| > 0 {
      StepTakesOne(answers, s, schedule[0]);
      StepKeepsInvariant(answers, s, schedule[0]);
      RunLength(answers, Do(answers, s, schedule[0]), schedule[1..]);
    }
  }

  lemma {:induction false} AllExited(workers: seq<Worker>, i: nat)
    requires forall w :: 0 <= w < |workers| ==> workers[w].Exited?
    ensures Busy(workers) == 0 && BusyWith(workers, i) == 0 && Work(workers) == 0
  {
    if |workers| > 0 {
      AllExited(workers[..|workers| - 1], i);
    }
  }

  /** All steps have been taken exactly when the workers are joined. */
  lemma NothingRemains(answers: seq<Fetched>, s: Pool)
    requires Invariant(answers, s)
    ensures s.next <= |answers| && (Remaining(|answers|, s) == 0 <==> s.joined)
  {
    if s.joined {
      AllExited(s.workers, 0);
    }
  }

  lemma InitialRemaining(n: nat)
    ensures Remaining(n, Initial(n)) == 3 * n + WorkerCount(n) + 2
  {
    AllIdle(WorkerCount(n), 0);
  }

  /** From the start, a run is over after exactly 3n + W + 2 steps, and not before: n jobs handed out, fetched and
      delivered, W workers gone, the channel closed, the workers joined. */
  lemma RunsEndTogether(answers: seq<Fetched>, schedule: seq<Action>)
    requires Invariant(answers, Initial(|answers|)) && IsRun(answers, Initial(|answers|), schedule)
    ensures var workers := if |answers| < 4 then |answers| else 4;
            var steps := 3 * |answers| + workers + 2;
            && |schedule| <= steps
            && (|schedule| == steps <==> After(answers, Initial(|answers|), schedule).joined)
  {
    InitialRemaining(|answers|);
    RunLength(answers, Initial(|answers|), schedule);
    NothingRemains(answers, After(answers, Initial(|answers|), schedule));
  }

  /** A possible step of a pool that has not finished. */
  function SomeAction(n: nat, s: Pool): Action {
    if exists w :: 0 <= w < |s.workers| && s.workers[w].Fetching? then
      Fetch(FirstWorker(s.workers, (worker: Worker) => worker.Fetching?))
    else if exists w :: 0 <= w < |s.workers| && s.workers[w].Delivering? then
      Deliver(FirstWorker(s.workers, (worker: Worker) => worker.Delivering?))
    else if s.next < n then Hand(0)
    else if !s.closed then Close
    else if exists w :: 0 <= w < |s.workers| && s.workers[w].Idle? then
      Exit(FirstWorker(s.workers, (worker: Worker) => worker.Idle?))
    else Join
  }

  function FirstWorker(workers: seq<Worker>, p: Worker -> bool): (w: nat)
    requires exists w :: 0 <= w < |workers| && p(workers[w])
    ensures w < |workers| && p(workers[w])
  {
    if p(workers[0]) then 0 else
      assert exists w :: 0 <= w < |workers[1..]| && p(workers[1..][w]) by {
        var w :| 0 <= w < |workers| && p(workers[w]);
        assert workers[1..][w - 1] == workers[w];
      }
      1 + FirstWorker(workers[1..], p)
  }

  lemma {:induction false} BusyIsPositive(workers: seq<Worker>, w: nat)
    requires w < |workers| && IsBusy(workers[w])
    ensures Busy(workers) > 0
  {
    if w < |workers| - 1 {
      BusyIsPositive(workers[..|workers| - 1], w);
    }
  }

  /** No deadlock: until the workers are joined some step is possible, whatever happened before. In particular no
      worker ever waits for room in the result channel. */
  lemma NoDeadlock(answers: seq<Fetched>, s: Pool)
    requires |answers| > 0 && Invariant(answers, s) && !s.joined
    ensures CanDo(|answers|, s, SomeAction(|answers|, s))
    ensures forall w :: 0 <= w < |s.workers| && s.workers[w].Delivering? ==> CanDo(|answers|, s, Deliver(w))
  {
    forall w | 0 <= w < |s.workers| && s.workers[w].Delivering? ensures CanDo(|answers|, s, Deliver(w)) {
      BusyIsPositive(s.workers, w);
    }
    assert s.next < |answers| ==> |s.workers| > 0 && !s.workers[0].Exited?;
  }

  // ----- The result -----

  predicate IsStale(now: Time, publishedAt: Time) {
    publishedAt != ZERO_TIME && Sub(now, publishedAt) > MAX_AGE
  }

  /** The articles fetched successfully that are not stale, in job order; `clock(i)` is what the clock says when
      article `i` is looked at. */
  function Usable(answers: seq<Fetched>, clock: nat -> Time): (r: seq<Candidate>)
    ensures |r| <= |answers|
  {
    if |answers| == 0 then [] else
      var n := |answers| - 1;
      var front, last := Usable(answers[..n], clock), answers[n];
      if last.ok && !IsStale(clock(n), last.candidate.publishedAt) then front + [last.candidate] else front
  }

  /** The sequential program: fetch in order, drop failed and stale articles, take as many as wanted. */
  function Sequential(answers: seq<Fetched>, limit: int, clock: nat -> Time): seq<Candidate> {
    var usable := Usable(answers, clock);
    if limit > 0 && |usable| > limit then usable[..limit] else usable
  }

  lemma {:induction false} UsableGrows(answers: seq<Fetched>, m: nat, n: nat, clock: nat -> Time)
    requires m <= n <= |answers|
    ensures Usable(answers[..m], clock) <= Usable(answers[..n], clock)
  {
    if m < n {
      assert answers[..n][..n - 1] == answers[..n - 1];
      UsableGrows(answers, m, n - 1, clock);
    }
  }

  method SelectCandidates(ordered: seq<Fetched>, limit: int, clock: nat -> Time) returns (candidates: seq<Candidate>)
    ensures candidates == Sequential(ordered, limit, clock)
  {
    candidates := [];
    for i := 0 to |ordered|
      invariant candidates == Usable(ordered[..i], clock)
      invariant limit > 0 ==> |candidates| < limit
    {
      assert ordered[..i + 1][..i] == ordered[..i];
      if !ordered[i].ok || IsStale(clock(i), ordered[i].candidate.publishedAt) {
        continue;
      }
      candidates := candidates + [ordered[i].candidate];
      if limit > 0 && |candidates| >= limit {
        UsableGrows(ordered, i + 1, |ordered|, clock);
        assert ordered[..|ordered|] == ordered;
        return;
      }
    }
    assert ordered[..|ordered|] == ordered;
  }

  /** The channel holds every answer exactly once. */
  ghost predicate Complete(results: seq<Delivery>, answers: seq<Fetched>) {
    && (forall k :: 0 <= k < |results| ==> IsAnswer(answers, results[k]))
    && (forall i: nat :: i < |answers| ==> DeliveredOf(results, i) == 1)
    && |results| == |answers|
  }

  /** Whatever the schedule was, in the end every index has been delivered exactly once, with its answer. */
  lemma JoinedIsComplete(answers: seq<Fetched>, s: Pool)
    requires Invariant(answers, s) && s.joined
    ensures Complete(s.results, answers)
  {
    AllExited(s.workers, 0);
    forall i: nat | i < |answers| ensures DeliveredOf(s.results, i) == 1 {
      assert OncePerJob(s, i);
      AllExited(s.workers, i);
    }
  }

  lemma {:induction false} DeliveredSomewhere(results: seq<Delivery>, n: nat, i: nat)
    requires n <= |results| && DeliveredOf(results[..n], i) > 0
    ensures exists k :: 0 <= k < n && results[k].index == i
  {
    if results[n - 1].index != i {
      assert results[..n][..n - 1] == results[..n - 1];
      DeliveredSomewhere(results, n - 1, i);
    }
  }

  method Reassemble(results: seq<Delivery>, blank: Fetched, ghost answers: seq<Fetched>)
    returns (ordered: array<Fetched>)
    requires Complete(results, answers)
    ensures ordered[..] == answers
  {
    ordered := new Fetched[|results|](_ => blank);
    for k := 0 to |results|
      invariant forall j :: 0 <= j < k ==> ordered[results[j].index] == answers[results[j].index]
    {
      assert IsAnswer(answers, results[k]);
      ordered[results[k].index] := results[k].fetched;
    }
    forall i: nat | i < |answers| ensures ordered[i] == answers[i] {
      assert results[..|results|] == results;
      DeliveredSomewhere(results, |results|, i);
    }
  }

  /** The whole pool under an arbitrary scheduler, which proposes an action at every step; a proposal that is not
      possible is replaced by one that is. The result is that of the sequential program. */
  method FetchCandidates(answers: seq<Fetched>, limit: int, clock: nat -> Time, schedule: nat -> Action)
    returns (candidates: seq<Candidate>)
    ensures candidates == Sequential(answers, limit, clock)
    ensures exists at :: TakesRecent(answers, limit, clock, candidates, at)
  {
    SequentialTakesRecent(answers, limit, clock);
    if |answers| == 0 {
      return [];
    }
    var pool := Initial(|answers|);
    InitialInvariant(answers);
    var step := 0;
    while !pool.joined
      invariant Invariant(answers, pool)
      decreases Remaining(|answers|, pool)
    {
      NoDeadlock(answers, pool);
      var proposed := schedule(step);
      var action := if CanDo(|answers|, pool, proposed) then proposed else SomeAction(|answers|, pool);
      StepTakesOne(answers, pool, action);
      StepKeepsInvariant(answers, pool, action);
      pool := Do(answers, pool, action);
      step := step + 1;
    }
    JoinedIsComplete(answers, pool);
    var ordered := Reassemble(pool.results, answers[0].(ok := false), answers);
    candidates := SelectCandidates(ordered[..], limit, clock);
  }

  // ----- What is returned, on instants and indices -----

  /** Article `i` was fetched, and has no date or one at most five years of 365 days before it is looked at. */
  predicate IsRecent(answers: seq<Fetched>, clock: nat -> Time, i: nat)
    requires i < |answers|
  {
    && answers[i].ok
    && (answers[i].candidate.publishedAt == ZERO_TIME ||
        clock(i) - answers[i].candidate.publishedAt <= 5 * 365 * 24 * NANOS_PER_HOUR)
  }

  ghost function Recent(answers: seq<Fetched>, clock: nat -> Time): nat -> bool {
    (i: nat) => i < |answers| && IsRecent(answers, clock, i)
  }

  function CandidatesAt(answers: seq<Fetched>, at: seq<nat>): (r: seq<Candidate>)
    requires forall k :: 0 <= k < |at| ==> at[k] < |answers|
    ensures |r| == |at|
  {
    seq(|at|, k requires 0 <= k < |at| => answers[at[k]].candidate)
  }

  lemma {:induction false} UsableIsRecent(answers: seq<Fetched>, clock: nat -> Time, n: nat)
    requires n <= |answers|
    ensures var at := Selections.Below(n, Recent(answers, clock));
            && (forall k :: 0 <= k < |at| ==> at[k] < n)
            && Usable(answers[..n], clock) == CandidatesAt(answers, at)
  {
    if n > 0 {
      UsableIsRecent(answers, clock, n - 1);
      assert answers[..n][..n - 1] == answers[..n - 1];
    }
  }

  /** The candidates are those of the recent articles, at the indices `at`, or the first of them if there is a limit. */
  ghost predicate TakesRecent(answers: seq<Fetched>, limit: int, clock: nat -> Time, candidates: seq<Candidate>,
                              at: seq<nat>) {
    && Selections.Selects(at, |answers|, Recent(answers, clock))
    && (forall k :: 0 <= k < |at| ==> at[k] < |answers|)
    && candidates == if limit > 0 then Slices.First(CandidatesAt(answers, at), limit) else CandidatesAt(answers, at)
  }

  lemma SequentialTakesRecent(answers: seq<Fetched>, limit: int, clock: nat -> Time)
    ensures exists at :: TakesRecent(answers, limit, clock, Sequential(answers, limit, clock), at)
  {
    var at := Selections.Below(|answers|, Recent(answers, clock));
    Selections.BelowSelects(|answers|, Recent(answers, clock));
    UsableIsRecent(answers, clock, |answers|);
    assert answers[..|answers|] == answers;
    assert TakesRecent(answers, limit, clock, Sequential(answers, limit, clock), at);
  }

  /** Written out: without a limit the articles returned are, in job order, those fetched that have no date or are at
      most five years old; with a limit they are the first of these. */
  lemma SelectsRecent(answers: seq<Fetched>, limit: int, clock: nat -> Time) returns (at: seq<nat>)
    ensures forall k, l :: 0 <= k < l < |at| ==> at[k] < at[l]
    ensures forall i: nat :: i in at <==>
              && i < |answers| && answers[i].ok
              && (answers[i].candidate.publishedAt == ZERO_TIME ||
                  clock(i) - answers[i].candidate.publishedAt <= 5 * 365 * 24 * NANOS_PER_HOUR)
    ensures var r := Sequential(answers, limit, clock);
            && |r| == (if 0 < limit < |at| then limit else |at|)
            && forall k :: 0 <= k < |r| ==> at[k] < |answers| && r[k] == answers[at[k]].candidate
  {
    SequentialTakesRecent(answers, limit, clock);
    at :| TakesRecent(answers, limit, clock, Sequential(answers, limit, clock), at);
  }
}
