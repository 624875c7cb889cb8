/** The fixed-window rate limiter of the gateway (`NewRateLimitMiddleware`). */
module RateLimit {
  import opened Contracts

  const MINUTE: int := 60_000_000_000

  datatype Bucket = Bucket(windowStart: Time, count: int)

  const NO_BUCKET := Bucket(ZERO_TIME, 0)

  datatype Request = Request(key: string, at: Time)

  /** The length of a window: positive, and within the range of a duration. */
  type Length = w: int | 0 < w <= MAX_INT64 witness 1

  /** A window that is not positive stands for one minute. */
  function Effective(window: int): (w: Length)
    requires window <= MAX_INT64
    ensures window <= 0 ==> w == MINUTE
    ensures window > 0 ==> w == window
  {
    if window <= 0 then MINUTE else window
  }

  function Hit(bucket: Bucket, at: Time, window: int): Bucket {
    var current :=
      if bucket.windowStart == ZERO_TIME || Sub(at, bucket.windowStart) >= window then Bucket(at, 0) else bucket;
    current.(count := current.count + 1)
  }

  /** The bucket of `key` after `trace`: requests of other keys are skipped. */
  function BucketAfter(window: int, trace: seq<Request>, key: string): Bucket {
    if |trace| == 0 then NO_BUCKET else
      var front, last := trace[..|trace| - 1], trace[|trace| - 1];
      if last.key == key then Hit(BucketAfter(window, front, key), last.at, window) else BucketAfter(window, front, key)
  }

  /** The last request of the trace is let through. */
  predicate LastAdmitted(limit: int, window: int, trace: seq<Request>)
    requires |trace| > 0
  {
    limit <= 0 || BucketAfter(window, trace, trace[|trace| - 1].key).count <= limit
  }

  class RateLimiter {
    const limit: int
    const window: int
    var buckets: map<string, Bucket>
    ghost var history: seq<Request>

    ghost predicate Valid()
      reads this
    {
      && 0 < window <= MAX_INT64
      && (limit > 0 ==> forall key :: Get(key) == BucketAfter(window, history, key))
    }

    function Get(key: string): Bucket
      reads this
    {
      if key in buckets then buckets[key] else NO_BUCKET
    }

    constructor (limit: int, window: int)
      requires window <= MAX_INT64
      ensures Valid() && history == [] && this.limit == limit && this.window == Effective(window)
    {
      this.limit := limit;
      this.window := Effective(window);
      buckets := map[];
      history := [];
    }

    /** One request: true if it is passed on, false if it is answered with "rate limit exceeded". */
    method Handle(key: string, current: Time) returns (admitted: bool)
      requires Valid()
      modifies this
      ensures Valid() && history == old(history) + [Request(key, current)]
      ensures admitted == LastAdmitted(limit, window, history)
    {
      history := history + [Request(key, current)];
      assert history[..|history| - 1] == old(history) && history[|history| - 1] == Request(key, current);
      assert BucketAfter(window, history, key) == Hit(BucketAfter(window, old(history), key), current, window);
      if limit <= 0 {
        return true;
      }
      var bucket := Get(key);
      if bucket.windowStart == ZERO_TIME || Sub(current, bucket.windowStart) >= window {
        bucket := Bucket(current, 0);
      }
      bucket := bucket.(count := bucket.count + 1);
      buckets := buckets[key := bucket];
      return bucket.count <= limit;
    }
  }

  /** A limit that is not positive lets every request through, and a positive one the first request of every client. */
  lemma AlwaysAdmitted(limit: int, window: int, front: seq<Request>, last: Request)
    requires limit <= 0 || forall i :: 0 <= i < |front| ==> front[i].key != last.key
    ensures LastAdmitted(limit, window, front + [last])
  {
    assert (front + [last])[..|front|] == front;
    if limit > 0 {
      NoBucketYet(window, front, last.key);
    }
  }

  lemma {:induction false} NoBucketYet(window: int, trace: seq<Request>, key: string)
    requires forall i :: 0 <= i < |trace| ==> trace[i].key != key
    ensures BucketAfter(window, trace, key) == NO_BUCKET
  {
    if |trace| > 0 {
      NoBucketYet(window, trace[..|trace| - 1], key);
    }
  }

  // ----- Counting requests in intervals -----

  predicate Within(at: Time, from: Time, to: Time) {
    from <= at < to
  }

  /** How many requests of `key` at a time in [from, to) were let through. */
  function AdmittedIn(limit: int, window: Length, trace: seq<Request>, key: string, from: Time, to: Time): nat {
    if |trace| == 0 then 0 else
      var last := trace[|trace| - 1];
      AdmittedIn(limit, window, trace[..|trace| - 1], key, from, to) +
      if last.key == key && Within(last.at, from, to) && LastAdmitted(limit, window, trace) then 1 else 0
  }

  /** How many requests of `key` at a time in [from, to) were sent. */
  function SentIn(trace: seq<Request>, key: string, from: Time, to: Time): nat {
    if |trace| == 0 then 0 else
      var last := trace[|trace| - 1];
      SentIn(trace[..|trace| - 1], key, from, to) + if last.key == key && Within(last.at, from, to) then 1 else 0
  }

  /** Of two requests of the key, the one processed later read the clock at most `late` before the other; with
      `late` zero, its requests are processed in the order of their readings. The clock never shows the zero time.
      Requests of other keys may be processed in any order. */
  ghost predicate ReadInTime(trace: seq<Request>, key: string, late: nat) {
    && (forall i :: 0 <= i < |trace| && trace[i].key == key ==> trace[i].at != ZERO_TIME)
    && (forall i, j :: 0 <= i < j < |trace| && trace[i].key == key && trace[j].key == key ==>
          trace[i].at <= trace[j].at + late)
  }

  ghost predicate SentAt(trace: seq<Request>, key: string, at: Time) {
    exists i :: 0 <= i < |trace| && trace[i].key == key && trace[i].at == at
  }

  /** The key has a bucket, and one of its requests opened it. */
  ghost predicate Open(window: Length, trace: seq<Request>, key: string) {
    var b := BucketAfter(window, trace, key);
    b.count >= 1 && b.windowStart != ZERO_TIME && SentAt(trace, key, b.windowStart)
  }

  lemma SentBefore(trace: seq<Request>, key: string, at: Time)
    requires |trace| > 0 && SentAt(trace[..|trace| - 1], key, at)
    ensures SentAt(trace, key, at)
  {
    var front := trace[..|trace| - 1];
    var i :| 0 <= i < |front| && front[i].key == key && front[i].at == at;
    assert trace[i] == front[i];
  }

  /** A key without requests has no bucket, any other key has one. */
  lemma {:induction false} OpenOrUnseen(limit: int, window: Length, trace: seq<Request>, key: string, late: nat,
                                        from: Time, to: Time)
    requires ReadInTime(trace, key, late)
    ensures if BucketAfter(window, trace, key) == NO_BUCKET
            then AdmittedIn(limit, window, trace, key, from, to) == 0
            else Open(window, trace, key)
  {
    if |trace| > 0 {
      var front, last := trace[..|trace| - 1], trace[|trace| - 1];
      OpenOrUnseen(limit, window, front, key, late, from, to);
      if last.key == key {
        assert SentAt(trace, key, last.at);
      }
      if Open(window, front, key) {
        SentBefore(trace, key, BucketAfter(window, front, key).windowStart);
      }
    }
  }

  /** The next request of a key is not too far behind the start of the current window. */
  lemma NextInTime(window: Length, trace: seq<Request>, key: string, late: nat)
    requires |trace| > 0 && trace[|trace| - 1].key == key && ReadInTime(trace, key, late)
    requires Open(window, trace[..|trace| - 1], key)
    ensures BucketAfter(window, trace[..|trace| - 1], key).windowStart <= trace[|trace| - 1].at + late
  {
    var front, last := trace[..|trace| - 1], |trace| - 1;
    var i :| 0 <= i < last && front[i].key == key && front[i].at == BucketAfter(window, front, key).windowStart;
    assert trace[i] == front[i] && trace[last].key == key;
  }

  // ----- How much an interval lets through -----

  /** How many windows fit side by side into a time span, the last one perhaps in part. */
  function Lengths(window: Length, span: int): (n: nat)
    decreases if span > 0 then span else 0
  {
    if span <= 0 then 0 else 1 + Lengths(window, span - window)
  }

  lemma {:induction false} LengthsCover(window: Length, span: nat)
    ensures span <= window * Lengths(window, span)
    ensures window * Lengths(window, span) < span + window
  {
    if span > 0 {
      assert window * Lengths(window, span) == window + window * Lengths(window, span - window);
      if span > window {
        LengthsCover(window, span - window);
      } else {
        assert Lengths(window, span - window) == 0;
      }
    }
  }

  lemma {:induction false} LengthsGrow(window: Length, span: int, longer: int)
    requires span <= longer
    ensures Lengths(window, span) <= Lengths(window, longer)
    decreases if span > 0 then span else 0
  {
    if span > 0 {
      LengthsGrow(window, span - window, longer - window);
    }
  }

  /** What `n` windows can have let into an interval of a window length: of each of them all requests but its first,
      of the last one as many as it has counted, and the first request of one of them, if it was `started` by then. */
  function Budget(limit: int, n: nat, count: int, started: bool): int {
    if n == 0 then 0
    else (limit - 1) * (n - 1) + (if count < limit then count else limit) - 1 + (if started then 1 else 0)
  }

  lemma AtMostTimes(a: nat, n: nat, m: nat)
    requires n <= m
    ensures 0 <= a * n <= a * m
  {
    assert a * m == a * n + a * (m - n);
  }

  /** The budget is at most one more than all requests of `n` windows but their first ones. */
  lemma BudgetIsAtMost(limit: int, n: nat, count: int, started: bool)
    requires limit > 0
    ensures Budget(limit, n, count, started) <= (limit - 1) * n + if started then 1 else 0
  {
    if n > 0 {
      assert (limit - 1) * n == (limit - 1) * (n - 1) + (limit - 1);
    }
  }

  /** A later window has room for everything that the earlier ones can have let through. */
  lemma BudgetGrows(limit: int, n: nat, count: int, started: bool, m: nat)
    requires limit > 0 && n < m
    ensures !started ==> Budget(limit, n, count, started) + 1 <= Budget(limit, m, 1, true)
    ensures Budget(limit, n, count, started) <= Budget(limit, m, 1, started)
  {
    BudgetIsAtMost(limit, n, count, started);
    AtMostTimes(limit - 1, n, m - 1);
  }

  /** No number of windows up to `m` has a larger budget than this. */
  lemma BudgetIsLimited(limit: int, n: nat, count: int, started: bool, m: nat)
    requires limit > 0 && n <= m
    ensures Budget(limit, n, count, started) <= 1 + (limit - 1) * m
  {
    BudgetIsAtMost(limit, n, count, started);
    AtMostTimes(limit - 1, n, m);
  }

  /** The windows that can let requests into [t, t + window), when readings may be `late`. */
  function Meeting(window: Length, late: nat): nat {
    Lengths(window, 2 * window + late - 1)
  }

  /** What has been let into [t, t + window) is within the budget of the windows started so far. Only one of them can
      have started in the interval. */
  ghost predicate WithinBudget(limit: int, window: Length, trace: seq<Request>, key: string, late: nat, t: Time) {
    var b := BucketAfter(window, trace, key);
    var admitted := AdmittedIn(limit, window, trace, key, t, t + window);
    && admitted <= 1 + (limit - 1) * Meeting(window, late)
    && (b.windowStart < t + window + late ==>
          admitted <= Budget(limit, Lengths(window, b.windowStart - t + window), b.count, b.windowStart >= t))
  }

  /** The next request of the key falls into the current window. */
  lemma SameWindow(limit: int, window: Length, trace: seq<Request>, key: string, late: nat, t: Time)
    requires limit > 0 && ReadInTime(trace, key, late)
    requires |trace| > 0 && trace[|trace| - 1].key == key && Open(window, trace[..|trace| - 1], key)
    requires WithinBudget(limit, window, trace[..|trace| - 1], key, late, t)
    requires Sub(trace[|trace| - 1].at, BucketAfter(window, trace[..|trace| - 1], key).windowStart) < window
    ensures WithinBudget(limit, window, trace, key, late, t)
  {
    var b := BucketAfter(window, trace[..|trace| - 1], key);
    var n := Lengths(window, b.windowStart - t + window);
    NextInTime(window, trace, key, late);
    if b.windowStart < t + window + late {
      LengthsGrow(window, b.windowStart - t + window, 2 * window + late - 1);
      BudgetIsLimited(limit, n, b.count + 1, b.windowStart >= t, Meeting(window, late));
    }
  }

  /** The next request of the key opens a new window. */
  lemma NewWindow(limit: int, window: Length, trace: seq<Request>, key: string, late: nat, t: Time)
    requires limit > 0 && ReadInTime(trace, key, late)
    requires |trace| > 0 && trace[|trace| - 1].key == key && Open(window, trace[..|trace| - 1], key)
    requires WithinBudget(limit, window, trace[..|trace| - 1], key, late, t)
    requires Sub(trace[|trace| - 1].at, BucketAfter(window, trace[..|trace| - 1], key).windowStart) >= window
    ensures WithinBudget(limit, window, trace, key, late, t)
  {
    var b, at := BucketAfter(window, trace[..|trace| - 1], key), trace[|trace| - 1].at;
    var n, m := Lengths(window, b.windowStart - t + window), Lengths(window, at - t + window);
    if at < t + window + late {
      LengthsGrow(window, b.windowStart - t + window, at - t);
      LengthsGrow(window, at - t + window, 2 * window + late - 1);
      if n < m {
        BudgetGrows(limit, n, b.count, b.windowStart >= t, m);
      }
      BudgetIsLimited(limit, m, 1, at >= t, Meeting(window, late));
    }
  }

  /** The first request of the key. */
  lemma FirstWindow(limit: int, window: Length, trace: seq<Request>, key: string, late: nat, t: Time)
    requires limit > 0 && ReadInTime(trace, key, late)
    requires |trace| > 0 && trace[|trace| - 1].key == key && BucketAfter(window, trace[..|trace| - 1], key) == NO_BUCKET
    requires AdmittedIn(limit, window, trace[..|trace| - 1], key, t, t + window) == 0
    ensures WithinBudget(limit, window, trace, key, late, t)
  {
    var at := trace[|trace| - 1].at;
    BudgetIsLimited(limit, 0, 0, true, Meeting(window, late));
    if t - window < at {
      BudgetGrows(limit, 0, 0, false, Lengths(window, at - t + window));
    }
  }

  lemma {:induction false} BudgetHolds(
    limit: int, window: Length, trace: seq<Request>, key: string, late: nat, t: Time)
    requires limit > 0 && ReadInTime(trace, key, late)
    ensures BucketAfter(window, trace, key) == NO_BUCKET || WithinBudget(limit, window, trace, key, late, t)
  {
    if |trace| > 0 {
      var front, last := trace[..|trace| - 1], trace[|trace| - 1];
      BudgetHolds(limit, window, front, key, late, t);
      OpenOrUnseen(limit, window, front, key, late, t, t + window);
      if last.key == key {
        if BucketAfter(window, front, key) == NO_BUCKET {
          FirstWindow(limit, window, trace, key, late, t);
        } else if Sub(last.at, BucketAfter(window, front, key).windowStart) >= window {
          NewWindow(limit, window, trace, key, late, t);
        } else {
          SameWindow(limit, window, trace, key, late, t);
        }
      }
    }
  }

  /** How many requests of `key` were let into the interval of a window length from `t` on. */
  function LetThrough(limit: int, window: Length, trace: seq<Request>, key: string, t: Time): nat {
    AdmittedIn(limit, window, trace, key, t, t + window)
  }

  /** The most that an interval of a window length can let through for one key, if readings are at most `late`. */
  function Most(limit: int, window: Length, late: nat): int {
    1 + (limit - 1) * Meeting(window, late)
  }

  /** If readings are processed at most `late` behind, an interval of a window length lets through one request, and
      for every window that can meet it one request less than the limit. */
  lemma AdmittedIsBounded(limit: int, window: Length, trace: seq<Request>, key: string, late: nat, t: Time)
    requires limit > 0 && ReadInTime(trace, key, late)
    ensures LetThrough(limit, window, trace, key, t) <= Most(limit, window, late)
  {
    BudgetHolds(limit, window, trace, key, late, t);
    OpenOrUnseen(limit, window, trace, key, late, t, t + window);
    BudgetIsLimited(limit, 0, 0, false, Meeting(window, late));
  }

  /** Two windows can meet the interval if readings are at most one unit late, three if they are at most a window
      length and one unit late, and otherwise more. */
  lemma MeetingIs(window: Length, late: nat)
    ensures 1 <= Meeting(window, late) && (window > 1 ==> 2 <= Meeting(window, late))
    ensures Meeting(window, late) <= 2 <==> late <= 1
    ensures Meeting(window, late) <= 3 <==> late <= window + 1
  {
    assert Meeting(window, late) == 1 + Lengths(window, window + late - 1);
    assert late > 1 ==> Lengths(window, window + late - 1) == 1 + Lengths(window, late - 1);
    assert late > 1 ==> Lengths(window, late - 1) == 1 + Lengths(window, late - 1 - window);
  }

  /** If the requests of a key are processed in the order of their readings, or at most one unit late, a window-long
      interval lets through less than twice the limit, whatever other keys do. */
  lemma AtMostTwiceTheLimit(limit: int, window: Length, trace: seq<Request>, key: string, late: nat, t: Time)
    requires limit > 0 && late <= 1 && ReadInTime(trace, key, late)
    ensures LetThrough(limit, window, trace, key, t) <= 2 * limit - 1
  {
    AdmittedIsBounded(limit, window, trace, key, late, t);
    MeetingIs(window, late);
    AtMostTimes(limit - 1, Meeting(window, late), 2);
  }

  // ----- Clients that are never rejected -----

  /** How many requests of `key` were sent in the interval of this length from `t` on. */
  function SentFrom(trace: seq<Request>, key: string, t: Time, length: int): nat {
    SentIn(trace, key, t, t + length)
  }

  /** The client sends at most `limit` requests in every interval of this length. */
  ghost predicate SendsAtMost(trace: seq<Request>, key: string, limit: int, length: int) {
    forall t :: SentFrom(trace, key, t, length) <= limit
  }

  /** All requests that the current window has counted read the clock at most `late` before it or during it. */
  lemma {:induction false} CountedWereSent(window: Length, trace: seq<Request>, key: string, late: nat)
    requires ReadInTime(trace, key, late)
    ensures var b := BucketAfter(window, trace, key);
            b == NO_BUCKET || SentIn(trace, key, b.windowStart - late, b.windowStart + window) >= b.count
  {
    if |trace| > 0 {
      var front, last := trace[..|trace| - 1], trace[|trace| - 1];
      CountedWereSent(window, front, key, late);
      OpenOrUnseen(0, window, front, key, late, 0, 0);
      if last.key == key && BucketAfter(window, front, key) != NO_BUCKET {
        NextInTime(window, trace, key, late);
      }
    }
  }

  /** A client that never sends more than the limit in an interval of a window length and `late` is never rejected. */
  lemma ModestClientsPass(limit: int, window: Length, trace: seq<Request>, key: string, late: nat)
    requires limit > 0 && ReadInTime(trace, key, late)
    requires |trace| > 0 && trace[|trace| - 1].key == key
    requires SendsAtMost(trace, key, limit, window + late)
    ensures LastAdmitted(limit, window, trace)
  {
    var start := BucketAfter(window, trace, key).windowStart;
    CountedWereSent(window, trace, key, late);
    OpenOrUnseen(limit, window, trace, key, late, 0, 0);
    assert SentFrom(trace, key, start - late, window + late) <= limit;
  }

  // ----- Other keys -----

  function Only(trace: seq<Request>, key: string): seq<Request> {
    if |trace| == 0 then [] else
      var front, last := Only(trace[..|trace| - 1], key), trace[|trace| - 1];
      if last.key == key then front + [last] else front
  }

  /** Requests of other keys make no difference. */
  lemma {:induction false} OtherKeysDoNotMatter(window: Length, trace: seq<Request>, key: string)
    ensures BucketAfter(window, trace, key) == BucketAfter(window, Only(trace, key), key)
  {
    if |trace| > 0 {
      OtherKeysDoNotMatter(window, trace[..|trace| - 1], key);
      var front := Only(trace[..|trace| - 1], key);
      assert (front + [trace[|trace| - 1]])[..|front|] == front;
    }
  }
}
