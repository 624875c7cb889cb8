/** Requests of one client that read the clock in one order and are processed in another: the rate limiter reads the
    clock before it takes its lock. The bounds on the limiter are attained, and this says when its promises hold. */
module RateLimitTraces {
  import opened Contracts
  import opened RateLimit

  function Requests(key: string, times: seq<Time>): (trace: seq<Request>)
    ensures |trace| == |times|
  {
    seq(|times|, i requires 0 <= i < |times| => Request(key, times[i]))
  }

  /** One more request of the key. */
  lemma OneMore(
    limit: int, window: Length, key: string, times: seq<Time>, at: Time, from: Time, to: Time)
    requires limit > 0
    ensures var trace, more := Requests(key, times), Requests(key, times + [at]);
            var b := Hit(BucketAfter(window, trace, key), at, window);
            && BucketAfter(window, more, key) == b
            && LastAdmitted(limit, window, more) == (b.count <= limit)
            && SentIn(more, key, from, to) == SentIn(trace, key, from, to) + (if Within(at, from, to) then 1 else 0)
            && AdmittedIn(limit, window, more, key, from, to) ==
               AdmittedIn(limit, window, trace, key, from, to) +
               (if Within(at, from, to) && b.count <= limit then 1 else 0)
  {
    var more := Requests(key, times + [at]);
    assert more[..|times|] == Requests(key, times);
    assert more[|times|] == Request(key, at);
  }

  // ----- Windows -----

  /** A request that opens a window, and `more` requests with one reading that fall into it. */
  function Window(start: Time, reading: Time, more: nat): seq<Time> {
    [start] + seq(more, _ => reading)
  }

  lemma WindowGrows(start: Time, reading: Time, more: nat)
    requires more > 0
    ensures Window(start, reading, more) == Window(start, reading, more - 1) + [reading]
  {
  }

  /** A window of at most `limit` requests lets them all through. */
  lemma {:induction false} WindowPasses(limit: int, window: Length, key: string, done: seq<Time>, start: Time,
                                        reading: Time, more: nat, from: Time, to: Time)
    requires more < limit && start != ZERO_TIME && Sub(reading, start) < window
    requires Hit(BucketAfter(window, Requests(key, done), key), start, window) == Bucket(start, 1)
    ensures var before, after := Requests(key, done), Requests(key, done + Window(start, reading, more));
            var passed := (if Within(start, from, to) then 1 else 0) + if Within(reading, from, to) then more else 0;
            && BucketAfter(window, after, key) == Bucket(start, 1 + more)
            && AdmittedIn(limit, window, after, key, from, to) ==
               AdmittedIn(limit, window, before, key, from, to) + passed
            && SentIn(after, key, from, to) == SentIn(before, key, from, to) + passed
  {
    if more == 0 {
      assert Window(start, reading, 0) == [start];
      OneMore(limit, window, key, done, start, from, to);
    } else {
      WindowPasses(limit, window, key, done, start, reading, more - 1, from, to);
      WindowGrows(start, reading, more);
      var front := done + Window(start, reading, more - 1);
      assert front + [reading] == done + Window(start, reading, more);
      OneMore(limit, window, key, front, reading, from, to);
    }
  }

  // ----- The most that can be let through -----

  /** The start of the n-th of adjacent windows. */
  function StartOf(window: Length, n: nat): Time
    requires n > 0
  {
    if n == 1 then 1 else StartOf(window, n - 1) + window
  }

  /** The reading of all requests of the n-th window but the first: in the interval from `window` on, and so late
      behind the start of the window as need be. */
  function ReadingOf(window: Length, n: nat): Time {
    if n == 1 then window else 2 * window - 1
  }

  /** The requests of `n` adjacent windows that are full. */
  function Packed(limit: int, window: Length, n: nat): seq<Time>
    requires limit > 0
  {
    if n == 0 then [] else
      Packed(limit, window, n - 1) + Window(StartOf(window, n), ReadingOf(window, n), limit - 1)
  }

  lemma {:induction false} StartsGrow(window: Length, n: nat)
    requires n > 0
    ensures StartOf(window, n) >= 1
    ensures n == 2 ==> StartOf(window, n) == window + 1
    ensures n > 2 ==> StartOf(window, n) > 2 * window
  {
    if n > 1 {
      StartsGrow(window, n - 1);
    }
  }

  /** The first request of a window opens it, and the others fall into it. */
  lemma OpensWindow(limit: int, window: Length, key: string, n: nat)
    requires limit > 0 && n > 0
    requires n > 1 ==>
      BucketAfter(window, Requests(key, Packed(limit, window, n - 1)), key) == Bucket(StartOf(window, n - 1), limit)
    ensures StartOf(window, n) != ZERO_TIME && Sub(ReadingOf(window, n), StartOf(window, n)) < window
    ensures Hit(BucketAfter(window, Requests(key, Packed(limit, window, n - 1)), key), StartOf(window, n), window) ==
            Bucket(StartOf(window, n), 1)
  {
    StartsGrow(window, n);
    if n == 1 {
      assert Packed(limit, window, 0) == [];
    } else {
      assert Sub(StartOf(window, n), StartOf(window, n - 1)) == window;
    }
  }

  /** What `n` full windows let into the interval: all requests but the first ones, and the one first request that
      reads the clock in it. */
  function Passed(limit: int, window: Length, n: nat): int {
    (limit - 1) * n + if n > 1 || (n == 1 && window == 1) then 1 else 0
  }

  lemma PassedStep(limit: int, window: Length, n: nat)
    requires n > 0
    ensures Passed(limit, window, 0) == 0
    ensures Passed(limit, window, n) ==
            Passed(limit, window, n - 1) + (limit - 1) + if n == (if window == 1 then 1 else 2) then 1 else 0
  {
  }

  lemma {:induction false} PackedPasses(limit: int, window: Length, key: string, n: nat)
    requires limit > 0 && n > 0
    ensures var trace := Requests(key, Packed(limit, window, n));
            && BucketAfter(window, trace, key) == Bucket(StartOf(window, n), limit)
            && LetThrough(limit, window, trace, key, window) == Passed(limit, window, n)
  {
    var done, start, reading := Packed(limit, window, n - 1), StartOf(window, n), ReadingOf(window, n);
    if n > 1 {
      PackedPasses(limit, window, key, n - 1);
    } else {
      assert done == [];
    }
    OpensWindow(limit, window, key, n);
    StartsGrow(window, n);
    WindowPasses(limit, window, key, done, start, reading, limit - 1, window, window + window);
    assert Packed(limit, window, n) == done + Window(start, reading, limit - 1);
    PassedStep(limit, window, n);
  }

  /** Of two readings, the one processed later is at most `late` before the other. */
  ghost predicate InTime(times: seq<Time>, late: nat) {
    && (forall i :: 0 <= i < |times| ==> times[i] != ZERO_TIME)
    && (forall i, j :: 0 <= i < j < |times| ==> times[i] <= times[j] + late)
  }

  lemma InTimeIsReadInTime(key: string, times: seq<Time>, late: nat)
    requires InTime(times, late)
    ensures ReadInTime(Requests(key, times), key, late)
  {
  }

  lemma {:induction false} StartsFit(window: Length, n: nat, span: int)
    requires 0 < n <= Lengths(window, span)
    ensures StartOf(window, n) <= span
  {
    if n > 1 {
      StartsFit(window, n - 1, span - window);
    }
  }

  lemma ReadingsFit(window: Length, late: nat, n: nat)
    requires 0 < n <= Meeting(window, late)
    ensures 1 <= StartOf(window, n) <= ReadingOf(window, n) + late
    ensures 1 <= ReadingOf(window, n) < StartOf(window, n) + window
  {
    StartsGrow(window, n);
    StartsFit(window, n, 2 * window + late - 1);
  }

  lemma InTimeTogether(front: seq<Time>, back: seq<Time>, late: nat)
    requires InTime(front, late) && InTime(back, late)
    requires forall time <- front, next <- back :: time <= next + late
    ensures InTime(front + back, late)
  {
    forall i, j | 0 <= i < j < |front + back| ensures (front + back)[i] <= (front + back)[j] + late {
      if i < |front| <= j {
        assert front[i] in front && back[j - |front|] in back;
      }
    }
  }

  /** All windows that can meet the interval fit into what the readings allow. */
  lemma {:induction false} PackedIsInTime(limit: int, window: Length, late: nat, n: nat)
    requires limit > 0 && n <= Meeting(window, late)
    ensures InTime(Packed(limit, window, n), late)
    ensures n > 0 ==> forall time <- Packed(limit, window, n) :: time < StartOf(window, n) + window
  {
    if n > 0 {
      var start, reading := StartOf(window, n), ReadingOf(window, n);
      PackedIsInTime(limit, window, late, n - 1);
      ReadingsFit(window, late, n);
      InTimeTogether(Packed(limit, window, n - 1), Window(start, reading, limit - 1), late);
    }
  }

  /** Full windows let through as much as possible. */
  lemma BoundIsAttained(limit: int, window: Length, late: nat, key: string)
    requires limit > 0
    ensures var trace := Requests(key, Packed(limit, window, Meeting(window, late)));
            ReadInTime(trace, key, late) && LetThrough(limit, window, trace, key, window) == Most(limit, window, late)
  {
    var n := Meeting(window, late);
    MeetingIs(window, late);
    PackedPasses(limit, window, key, n);
    PackedIsInTime(limit, window, late, n);
    InTimeIsReadInTime(key, Packed(limit, window, n), late);
  }

  /** Whatever is sent, no interval of a window length lets through more than `bound` requests of a key. */
  ghost predicate NeverMoreThan(bound: int, limit: int, window: Length, late: nat) {
    forall trace: seq<Request>, key: string, t: Time | ReadInTime(trace, key, late) ::
      LetThrough(limit, window, trace, key, t) <= bound
  }

  lemma MostIsExact(bound: int, limit: int, window: Length, late: nat)
    requires limit > 0
    ensures NeverMoreThan(bound, limit, window, late) <==> Most(limit, window, late) <= bound
  {
    forall trace: seq<Request>, key: string, t: Time | ReadInTime(trace, key, late)
      ensures LetThrough(limit, window, trace, key, t) <= Most(limit, window, late)
    {
      AdmittedIsBounded(limit, window, trace, key, late, t);
    }
    BoundIsAttained(limit, window, late, "");
  }

  /** Twice the limit is never exceeded if and only if the limit is one, or no reading is late by more than one unit,
      or the limit is two and no reading late by more than a window length and one unit. */
  lemma TwiceTheLimitExactly(limit: int, window: Length, late: nat)
    requires limit > 0
    ensures NeverMoreThan(2 * limit, limit, window, late) <==>
            limit == 1 || late <= 1 || (limit == 2 && late <= window + 1)
  {
    var n := Meeting(window, late);
    MeetingIs(window, late);
    MostIsExact(2 * limit, limit, window, late);
    if n > 3 {
      AtMostTimes(limit - 1, 4, n);
    } else {
      assert n == 1 || n == 2 || n == 3;
    }
  }

  // ----- Clients that keep to the limit -----

  /** A client that sends at most `limit` requests in every window length, and is rejected when the readings are
      processed in this order. */
  function Overtaken(limit: int, window: Length): seq<Time>
    requires limit > 0
  {
    if limit == 1 then [2 * window, window] else Window(window + 1, window, limit - 1) + [2 * window]
  }

  /** A full window, and one more request that falls into it. */
  lemma OneTooMany(limit: int, window: Length, key: string, start: Time, reading: Time, last: Time, t: Time)
    requires limit > 0 && start != ZERO_TIME && Sub(reading, start) < window && Sub(last, start) < window
    ensures var trace := Requests(key, Window(start, reading, limit - 1) + [last]);
            && !LastAdmitted(limit, window, trace)
            && SentFrom(trace, key, t, window) ==
               (if Within(start, t, t + window) then 1 else 0) +
               (if Within(reading, t, t + window) then limit - 1 else 0) +
               (if Within(last, t, t + window) then 1 else 0)
  {
    var front := Window(start, reading, limit - 1);
    assert [] + front == front;
    WindowPasses(limit, window, key, [], start, reading, limit - 1, t, t + window);
    OneMore(limit, window, key, front, last, t, t + window);
  }

  /** The last request of the client is rejected: it falls into a window that is full, because a request that read
      the clock later was processed first. */
  lemma OvertakenClientIsRejected(limit: int, window: Length, late: nat, key: string)
    requires limit > 0 && late > 0 && (limit == 1 ==> window <= late)
    ensures var trace := Requests(key, Overtaken(limit, window));
            && ReadInTime(trace, key, late)
            && SendsAtMost(trace, key, limit, window)
            && !LastAdmitted(limit, window, trace)
  {
    var times := Overtaken(limit, window);
    InTimeIsReadInTime(key, times, late);
    var start := if limit == 1 then 2 * window else window + 1;
    var last := if limit == 1 then window else 2 * window;
    assert times == Window(start, window, limit - 1) + [last];
    forall t: Time
      ensures SentFrom(Requests(key, times), key, t, window) <= limit &&
              !LastAdmitted(limit, window, Requests(key, times))
    {
      OneTooMany(limit, window, key, start, window, last, t);
    }
  }

  /** Two requests of the key at indices i < j were both sent in an interval that contains their readings. */
  lemma {:induction false} TwoWereSent(trace: seq<Request>, key: string, i: nat, j: nat, from: Time, to: Time)
    requires i < j < |trace| && trace[i].key == key && trace[j].key == key
    requires Within(trace[i].at, from, to) && Within(trace[j].at, from, to)
    ensures SentIn(trace, key, from, to) >= 2
  {
    var last := |trace| - 1;
    if j < last {
      TwoWereSent(trace[..last], key, i, j, from, to);
    } else {
      OneWasSent(trace[..last], key, i, from, to);
    }
  }

  lemma {:induction false} OneWasSent(trace: seq<Request>, key: string, i: nat, from: Time, to: Time)
    requires i < |trace| && trace[i].key == key && Within(trace[i].at, from, to)
    ensures SentIn(trace, key, from, to) >= 1
  {
    if i < |trace| - 1 {
      OneWasSent(trace[..|trace| - 1], key, i, from, to);
    }
  }

  /** A client with one request in a window length is not overtaken by its own next request. */
  lemma LonelyRequestsAreInOrder(window: Length, trace: seq<Request>, key: string, late: nat)
    requires late < window && ReadInTime(trace, key, late) && SendsAtMost(trace, key, 1, window)
    ensures ReadInTime(trace, key, 0)
  {
    forall i, j | 0 <= i < j < |trace| && trace[i].key == key && trace[j].key == key
      ensures trace[i].at <= trace[j].at + 0
    {
      if trace[i].at > trace[j].at {
        assert SentFrom(trace, key, trace[j].at, window) <= 1;
        TwoWereSent(trace, key, i, j, trace[j].at, trace[j].at + window);
        assert false;
      }
    }
  }

  /** No request of a client is rejected that sends at most `limit` requests in every window length. */
  ghost predicate ModestClientsAlwaysPass(limit: int, window: Length, late: nat) {
    forall front: seq<Request>, last: Request
      | ReadInTime(front + [last], last.key, late) && SendsAtMost(front + [last], last.key, limit, window) ::
      LastAdmitted(limit, window, front + [last])
  }

  /** A client that keeps to the limit is never rejected if and only if its requests are processed in the order of
      their readings, or the limit is one and they are late by less than a window length. */
  lemma ModestClientsPassExactly(limit: int, window: Length, late: nat)
    requires limit > 0
    ensures ModestClientsAlwaysPass(limit, window, late) <==> late == 0 || (limit == 1 && late < window)
  {
    if late == 0 || (limit == 1 && late < window) {
      forall front: seq<Request>, last: Request
        | ReadInTime(front + [last], last.key, late) && SendsAtMost(front + [last], last.key, limit, window)
        ensures LastAdmitted(limit, window, front + [last])
      {
        if late > 0 {
          LonelyRequestsAreInOrder(window, front + [last], last.key, late);
        }
        ModestClientsPass(limit, window, front + [last], last.key, 0);
      }
    } else {
      OvertakenClientIsRejected(limit, window, late, "");
      var trace := Requests("", Overtaken(limit, window));
      assert trace[..|trace| - 1] + [trace[|trace| - 1]] == trace;
    }
  }
}
