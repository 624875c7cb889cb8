/** Cursor paging of the gateway's feed (`parseFeedCursor`, `nextFeedCursor`) over the windows of a search. */
module FeedCursor {
  import opened Contracts
  import Text
  import Sorting
  import SourceBalance
  import opened ArticleStore
  import opened SearchOrder
  import TermMatching
  import opened MapOrder
  import Slices

  const PREFIX := "offset:"

  function Digit(d: nat): char
    requires d < 10
  {
    '0' + d as char
  }

  predicate IsDigit(c: char) {
    '0' <= c <= '9'
  }

  /** The decimal text of a number that is not negative. */
  function Itoa(n: nat): (s: string)
    ensures |s| > 0
  {
    if n < 10 then [Digit(n)] else Itoa(n / 10) + [Digit(n % 10)]
  }

  predicate AllDigits(s: string) {
    forall i :: 0 <= i < |s| ==> IsDigit(s[i])
  }

  function DigitsValue(s: string): nat
    requires AllDigits(s)
  {
    if s == "" then 0 else 10 * DigitsValue(s[..|s| - 1]) + (s[|s| - 1] as int - '0' as int)
  }

  /** An optional sign and at least one digit, in the range of a 64-bit integer. */
  function Atoi(s: string): Option<int> {
    var negative := s != "" && s[0] == '-';
    var digits := if s != "" && (s[0] == '-' || s[0] == '+') then s[1..] else s;
    if digits == "" || !AllDigits(digits) then None
    else
      var value: int := if negative then 0 - DigitsValue(digits) else DigitsValue(digits);
      if MIN_INT64 <= value <= MAX_INT64 then Some(value) else None
  }

  function ParseFeedCursor(rawCursor: string): (offset: nat)
    ensures offset <= MAX_INT64
  {
    var cursor := Text.TrimSpace(rawCursor);
    if !(PREFIX <= cursor) then 0
    else
      match Atoi(Text.TrimSpace(cursor[|PREFIX|..]))
      case Some(offset) => if offset < 0 then 0 else offset
      case None => 0
  }

  function NextFeedCursor(currentOffset: nat, returnedCount: nat, limit: int): string {
    if returnedCount <= 0 || limit <= 0 || returnedCount < limit then ""
    else PREFIX + Itoa(currentOffset + returnedCount)
  }

  lemma {:induction false} ItoaDigits(n: nat)
    ensures AllDigits(Itoa(n)) && DigitsValue(Itoa(n)) == n
  {
    if n >= 10 {
      ItoaDigits(n / 10);
      var s := Itoa(n);
      assert s[..|s| - 1] == Itoa(n / 10);
    } else {
      assert Itoa(n)[..0] == "";
    }
  }

  /** Parsing gives back the offset that the cursor was made from. */
  lemma CursorRoundTrip(offset: nat)
    requires offset <= MAX_INT64
    ensures ParseFeedCursor(PREFIX + Itoa(offset)) == offset
  {
    var digits := Itoa(offset);
    var cursor := PREFIX + digits;
    ItoaDigits(offset);
    assert IsDigit(digits[0]) && cursor[|cursor| - 1] == digits[|digits| - 1];
    Text.TrimFixed(cursor);
    assert cursor[|PREFIX|..] == digits;
    Text.TrimFixed(digits);
  }

  /** After "offset:" a cursor has an unsigned number, perhaps with a plus sign and with white space around it. */
  ghost predicate Denotes(rawCursor: string, digits: string) {
    && digits != "" && AllDigits(digits)
    && exists rest: string :: && Text.TrimSpace(rawCursor) == "offset:" + rest
                              && (Text.TrimSpace(rest) == digits || Text.TrimSpace(rest) == "+" + digits)
  }

  lemma AtoiUnsigned(s: string, digits: string)
    requires digits != "" && AllDigits(digits) && (s == digits || s == "+" + digits)
    ensures Atoi(s) == if DigitsValue(digits) <= MAX_INT64 then Some(DigitsValue(digits)) else None
  {
    assert IsDigit(digits[0]);
    assert s == "+" + digits ==> s[1..] == digits;
  }

  /** Such a cursor is the number, unless that is too large; every other text is read as zero. */
  lemma ParsedExactly(rawCursor: string, digits: string)
    ensures Denotes(rawCursor, digits) ==>
              ParseFeedCursor(rawCursor) == if DigitsValue(digits) <= MAX_INT64 then DigitsValue(digits) else 0
    ensures (forall d :: !Denotes(rawCursor, d)) ==> ParseFeedCursor(rawCursor) == 0
  {
    var cursor := Text.TrimSpace(rawCursor);
    if Denotes(rawCursor, digits) {
      var rest :|
        cursor == "offset:" + rest && (Text.TrimSpace(rest) == digits || Text.TrimSpace(rest) == "+" + digits);
      assert cursor[|PREFIX|..] == rest;
      AtoiUnsigned(Text.TrimSpace(rest), digits);
    }
    if PREFIX <= cursor && ParseFeedCursor(rawCursor) > 0 {
      var rest := cursor[|PREFIX|..];
      var text := Text.TrimSpace(rest);
      assert cursor == "offset:" + rest;
      var d := if text[0] == '+' then text[1..] else text;
      assert text == d || text == "+" + d;
      assert Denotes(rawCursor, d);
    }
  }

  // ----- Following the cursors -----

  /** The articles among the first `n` that are not hidden. */
  function VisibleTo(articles: seq<Article>, hidden: set<string>, n: nat): (r: seq<Article>)
    requires n <= |articles|
    ensures |r| <= n
  {
    if n == 0 then [] else
      VisibleTo(articles, hidden, n - 1) + if articles[n - 1].id in hidden then [] else [articles[n - 1]]
  }

  function Visible(articles: seq<Article>, hidden: set<string>): (r: seq<Article>)
    ensures |r| <= |articles|
  {
    VisibleTo(articles, hidden, |articles|)
  }

  /** The page at an offset: a window of the results without the articles the user has hidden. */
  function PageAt(results: seq<Article>, hidden: set<string>, limit: nat, offset: nat): (page: seq<Article>)
    ensures |page| <= limit
  {
    Visible(Slices.Window(results, offset, limit), hidden)
  }

  lemma FullPage(results: seq<Article>, hidden: set<string>, limit: nat, offset: nat)
    requires limit > 0 && |PageAt(results, hidden, limit, offset)| >= limit
    ensures offset + limit <= |results|
  {
  }

  /** A next cursor is only given after a full page, and leads to the page that follows. */
  lemma NextCursor(offset: nat, count: nat, limit: nat)
    requires 0 < limit && count <= limit && offset + count <= MAX_INT64
    ensures NextFeedCursor(offset, count, limit) == "" <==> count < limit
    ensures count == limit ==> ParseFeedCursor(NextFeedCursor(offset, count, limit)) == offset + limit
  {
    if count == limit {
      CursorRoundTrip(offset + limit);
    }
  }

  lemma NextPage(results: seq<Article>, hidden: set<string>, limit: nat, offset: nat)
    requires limit > 0 && |results| <= MAX_INT64
    ensures var count := |PageAt(results, hidden, limit, offset)|;
            var next := NextFeedCursor(offset, count, limit);
            && (next == "" <==> count < limit)
            && (count == limit ==> offset + limit <= |results| && ParseFeedCursor(next) == offset + limit)
  {
    var count := |PageAt(results, hidden, limit, offset)|;
    if count == limit {
      FullPage(results, hidden, limit, offset);
      NextCursor(offset, count, limit);
    }
  }

  /** Each request is answered by a search of its own, and all searches find equally many articles. */
  ghost predicate OfSize(found: nat -> seq<Article>, size: nat) {
    forall k: nat :: |found(k)| == size
  }

  /** All articles shown to a user who follows the cursors from `cursor` on until there is none, starting with
      request number `request`; `found(k)` is what the search for request number `k` finds. */
  function Walk(found: nat -> seq<Article>, size: nat, hidden: set<string>, limit: nat, request: nat,
                cursor: string): seq<Article>
    requires limit > 0 && size <= MAX_INT64 && OfSize(found, size)
    decreases size - ParseFeedCursor(cursor)
  {
    var offset := ParseFeedCursor(cursor);
    var page := PageAt(found(request), hidden, limit, offset);
    var next := NextFeedCursor(offset, |page|, limit);
    NextPage(found(request), hidden, limit, offset);
    if next == "" then page else page + Walk(found, size, hidden, limit, request + 1, next)
  }

  /** The pages from `offset` on, one request each, up to and including the first page that is not full. */
  function ShownFrom(found: nat -> seq<Article>, size: nat, hidden: set<string>, limit: nat, request: nat,
                     offset: nat): seq<Article>
    requires limit > 0 && OfSize(found, size)
    decreases size - offset
  {
    var page := PageAt(found(request), hidden, limit, offset);
    if |page| < limit then page
    else
      FullPage(found(request), hidden, limit, offset);
      page + ShownFrom(found, size, hidden, limit, request + 1, offset + limit)
  }

  lemma WalkStep(found: nat -> seq<Article>, size: nat, hidden: set<string>, limit: nat, request: nat, cursor: string,
                 offset: nat)
    returns (next: string)
    requires limit > 0 && size <= MAX_INT64 && OfSize(found, size) && ParseFeedCursor(cursor) == offset
    ensures var page := PageAt(found(request), hidden, limit, offset);
            if |page| < limit then Walk(found, size, hidden, limit, request, cursor) == page
            else ParseFeedCursor(next) == offset + limit <= size &&
                 Walk(found, size, hidden, limit, request, cursor) ==
                 page + Walk(found, size, hidden, limit, request + 1, next)
  {
    next := NextFeedCursor(offset, |PageAt(found(request), hidden, limit, offset)|, limit);
    NextPage(found(request), hidden, limit, offset);
  }

  lemma ShownStep(found: nat -> seq<Article>, size: nat, hidden: set<string>, limit: nat, request: nat, offset: nat,
                  results: seq<Article>)
    requires limit > 0 && OfSize(found, size) && found(request) == results
    ensures var page := PageAt(results, hidden, limit, offset);
            ShownFrom(found, size, hidden, limit, request, offset) ==
            if |page| < limit then page else page + ShownFrom(found, size, hidden, limit, request + 1, offset + limit)
  {
  }

  /** What is shown from this cursor on is what is shown from this offset on. */
  ghost predicate ShowsFrom(found: nat -> seq<Article>, size: nat, hidden: set<string>, limit: nat, request: nat,
                            cursor: string, offset: nat)
    requires limit > 0 && size <= MAX_INT64 && OfSize(found, size)
  {
    Walk(found, size, hidden, limit, request, cursor) == ShownFrom(found, size, hidden, limit, request, offset)
  }

  lemma ShowsFromStep(found: nat -> seq<Article>, size: nat, hidden: set<string>, limit: nat, request: nat,
                      cursor: string, offset: nat)
    returns (next: string)
    requires limit > 0 && size <= MAX_INT64 && OfSize(found, size) && ParseFeedCursor(cursor) == offset
    ensures ShowsFrom(found, size, hidden, limit, request, cursor, offset) ||
            (ParseFeedCursor(next) == offset + limit <= size &&
             (ShowsFrom(found, size, hidden, limit, request + 1, next, offset + limit) ==>
                ShowsFrom(found, size, hidden, limit, request, cursor, offset)))
  {
    next := WalkStep(found, size, hidden, limit, request, cursor, offset);
    ShownStep(found, size, hidden, limit, request, offset, found(request));
  }

  lemma {:induction false} WalkIsShown(found: nat -> seq<Article>, size: nat, hidden: set<string>, limit: nat,
                                       request: nat, cursor: string, offset: nat)
    requires limit > 0 && size <= MAX_INT64 && OfSize(found, size) && ParseFeedCursor(cursor) == offset
    ensures ShowsFrom(found, size, hidden, limit, request, cursor, offset)
    decreases size - offset
  {
    var next := ShowsFromStep(found, size, hidden, limit, request, cursor, offset);
    if !ShowsFrom(found, size, hidden, limit, request, cursor, offset) {
      WalkIsShown(found, size, hidden, limit, request + 1, next, offset + limit);
    }
  }

  lemma NothingBeyondTheEnd(found: nat -> seq<Article>, size: nat, hidden: set<string>, limit: nat, request: nat,
                            offset: nat)
    requires limit > 0 && OfSize(found, size) && offset >= size
    ensures ShownFrom(found, size, hidden, limit, request, offset) == []
  {
    assert Slices.Window(found(request), offset, limit) == [];
    ShownStep(found, size, hidden, limit, request, offset, found(request));
  }

  /** From any cursor, following the cursors shows the visible articles of consecutive pages, each page of a search of
      its own, up to and including the first page that is not full; beyond the end it shows nothing. */
  lemma WalkShowsPages(found: nat -> seq<Article>, size: nat, hidden: set<string>, limit: nat, request: nat,
                       cursor: string)
    requires limit > 0 && size <= MAX_INT64 && OfSize(found, size)
    ensures var offset, shown := ParseFeedCursor(cursor), Walk(found, size, hidden, limit, request, cursor);
            && shown == ShownFrom(found, size, hidden, limit, request, offset)
            && (offset >= size ==> shown == [])
  {
    var offset := ParseFeedCursor(cursor);
    WalkIsShown(found, size, hidden, limit, request, cursor, offset);
    if offset >= size {
      NothingBeyondTheEnd(found, size, hidden, limit, request, offset);
    }
  }

  // ----- Searches that all find the same list -----

  /** The end of the first page, from `offset` on, that is not full of visible articles: there the walk stops. */
  function Reach(results: seq<Article>, hidden: set<string>, limit: nat, offset: nat): (end: nat)
    requires limit > 0 && offset <= |results|
    ensures offset <= end <= |results|
    decreases |results| - offset
  {
    if offset + limit > |results| then |results|
    else if |Visible(results[offset..offset + limit], hidden)| < limit then offset + limit
    else Reach(results, hidden, limit, offset + limit)
  }

  lemma {:induction false} VisibleFront(xs: seq<Article>, ys: seq<Article>, hidden: set<string>, n: nat)
    requires n <= |xs|
    ensures VisibleTo(xs + ys, hidden, n) == VisibleTo(xs, hidden, n)
  {
    if n > 0 {
      VisibleFront(xs, ys, hidden, n - 1);
    }
  }

  lemma {:induction false} VisibleBack(xs: seq<Article>, ys: seq<Article>, hidden: set<string>, n: nat)
    requires n <= |ys|
    ensures VisibleTo(xs + ys, hidden, |xs| + n) == Visible(xs, hidden) + VisibleTo(ys, hidden, n)
  {
    if n == 0 {
      VisibleFront(xs, ys, hidden, |xs|);
    } else {
      VisibleBack(xs, ys, hidden, n - 1);
      assert (xs + ys)[|xs| + n - 1] == ys[n - 1];
    }
  }

  lemma VisibleConcat(xs: seq<Article>, ys: seq<Article>, hidden: set<string>)
    ensures Visible(xs + ys, hidden) == Visible(xs, hidden) + Visible(ys, hidden)
  {
    VisibleBack(xs, ys, hidden, |ys|);
  }

  lemma WindowIsSlice(results: seq<Article>, offset: nat, limit: nat)
    requires offset <= |results|
    ensures Slices.Window(results, offset, limit) ==
            results[offset..if offset + limit > |results| then |results| else offset + limit]
  {
  }

  function VisibleFrom(results: seq<Article>, hidden: set<string>, limit: nat, offset: nat): seq<Article>
    requires limit > 0 && offset <= |results|
  {
    Visible(results[offset..Reach(results, hidden, limit, offset)], hidden)
  }

  lemma VisibleStep(results: seq<Article>, hidden: set<string>, limit: nat, offset: nat)
    requires limit > 0 && offset <= |results|
    ensures var page := PageAt(results, hidden, limit, offset);
            if |page| < limit then VisibleFrom(results, hidden, limit, offset) == page
            else offset + limit <= |results| &&
                 VisibleFrom(results, hidden, limit, offset) ==
                 page + VisibleFrom(results, hidden, limit, offset + limit)
  {
    WindowIsSlice(results, offset, limit);
    if |PageAt(results, hidden, limit, offset)| == limit {
      FullPage(results, hidden, limit, offset);
      var end := Reach(results, hidden, limit, offset + limit);
      VisibleConcat(results[offset..offset + limit], results[offset + limit..end], hidden);
      assert results[offset..offset + limit] + results[offset + limit..end] == results[offset..end];
    }
  }

  ghost predicate AllFind(found: nat -> seq<Article>, results: seq<Article>) {
    forall k: nat :: found(k) == results
  }

  ghost predicate ShowsVisible(found: nat -> seq<Article>, results: seq<Article>, hidden: set<string>, limit: nat,
                               request: nat, offset: nat)
    requires limit > 0 && AllFind(found, results) && offset <= |results| && OfSize(found, |results|)
  {
    ShownFrom(found, |results|, hidden, limit, request, offset) == VisibleFrom(results, hidden, limit, offset)
  }

  lemma ShowsVisibleStep(found: nat -> seq<Article>, results: seq<Article>, hidden: set<string>, limit: nat,
                         request: nat, offset: nat)
    requires limit > 0 && AllFind(found, results) && offset <= |results| && OfSize(found, |results|)
    ensures ShowsVisible(found, results, hidden, limit, request, offset) ||
            (offset + limit <= |results| &&
             (ShowsVisible(found, results, hidden, limit, request + 1, offset + limit) ==>
                ShowsVisible(found, results, hidden, limit, request, offset)))
  {
    ShownStep(found, |results|, hidden, limit, request, offset, results);
    VisibleStep(results, hidden, limit, offset);
  }

  lemma {:induction false} ShownOfOneList(found: nat -> seq<Article>, results: seq<Article>, hidden: set<string>,
                                          limit: nat, request: nat, offset: nat)
    requires limit > 0 && AllFind(found, results) && offset <= |results| && OfSize(found, |results|)
    ensures ShowsVisible(found, results, hidden, limit, request, offset)
    decreases |results| - offset
  {
    ShowsVisibleStep(found, results, hidden, limit, request, offset);
    if offset + limit <= |results| {
      ShownOfOneList(found, results, hidden, limit, request + 1, offset + limit);
    }
  }

  lemma WalkOfOneList(found: nat -> seq<Article>, results: seq<Article>, hidden: set<string>, limit: nat)
    requires limit > 0 && |results| <= MAX_INT64 && AllFind(found, results)
    ensures OfSize(found, |results|)
    ensures Walk(found, |results|, hidden, limit, 0, "") ==
            Visible(results[0..Reach(results, hidden, limit, 0)], hidden)
  {
    ShownOfOneList(found, results, hidden, limit, 0, 0);
    WalkShowsPages(found, |results|, hidden, limit, 0, "");
  }

  lemma {:induction false} NothingHidden(articles: seq<Article>, hidden: set<string>, n: nat)
    requires n <= |articles|
    ensures |VisibleTo(articles, hidden, n)| == n <==> forall i :: 0 <= i < n ==> articles[i].id !in hidden
    ensures |VisibleTo(articles, hidden, n)| == n ==> VisibleTo(articles, hidden, n) == articles[..n]
  {
    if n > 0 {
      NothingHidden(articles, hidden, n - 1);
    }
  }

  lemma FullyVisible(results: seq<Article>, hidden: set<string>, from: nat, to: nat)
    requires from <= to <= |results|
    ensures |Visible(results[from..to], hidden)| == to - from <==>
            forall i :: from <= i < to ==> results[i].id !in hidden
  {
    var articles := results[from..to];
    NothingHidden(articles, hidden, to - from);
    if forall k :: 0 <= k < to - from ==> articles[k].id !in hidden {
      forall i | from <= i < to ensures results[i].id !in hidden {
        assert results[i] == articles[i - from];
      }
    } else {
      var k :| 0 <= k < to - from && articles[k].id in hidden;
      assert results[from + k].id in hidden;
    }
  }

  /** Whether the walk passes a page depends on whether something on it is hidden. */
  lemma ReachNext(results: seq<Article>, hidden: set<string>, limit: nat, offset: nat)
    requires limit > 0 && offset + limit <= |results|
    ensures (forall i :: offset <= i < offset + limit ==> results[i].id !in hidden) ==>
              Reach(results, hidden, limit, offset) == Reach(results, hidden, limit, offset + limit)
    ensures (exists i :: offset <= i < offset + limit && results[i].id in hidden) ==>
              Reach(results, hidden, limit, offset) == offset + limit
  {
    FullyVisible(results, hidden, offset, offset + limit);
  }

  /** The length of so many full pages, as a sum. */
  ghost function Span(limit: nat, pages: nat): nat {
    if pages == 0 then 0 else limit + Span(limit, pages - 1)
  }

  lemma {:induction false} SpanIsProduct(limit: nat, pages: nat)
    ensures Span(limit, pages) == pages * limit
  {
    if pages > 0 {
      SpanIsProduct(limit, pages - 1);
    }
  }

  /** Full pages without hidden articles are passed, up to the page of the first hidden article `h`, `pages` pages
      on. */
  lemma {:induction false} ReachOf(results: seq<Article>, hidden: set<string>, limit: nat, offset: nat, pages: nat,
                                   h: nat)
    requires limit > 0 && offset + Span(limit, pages) <= h < offset + Span(limit, pages) + limit && h < |results|
    requires results[h].id in hidden && forall i :: 0 <= i < h ==> results[i].id !in hidden
    ensures Reach(results, hidden, limit, offset) ==
            if offset + Span(limit, pages) + limit <= |results| then offset + Span(limit, pages) + limit else |results|
    decreases pages
  {
    if offset + limit <= |results| {
      ReachNext(results, hidden, limit, offset);
      if pages > 0 {
        ReachOf(results, hidden, limit, offset + limit, pages - 1, h);
      }
    }
  }

  lemma {:induction false} ReachIsEnd(results: seq<Article>, hidden: set<string>, limit: nat, offset: nat)
    requires limit > 0 && offset <= |results|
    requires forall i :: 0 <= i < |results| ==> results[i].id !in hidden
    ensures Reach(results, hidden, limit, offset) == |results|
    decreases |results| - offset
  {
    if offset + limit <= |results| {
      ReachNext(results, hidden, limit, offset);
      ReachIsEnd(results, hidden, limit, offset + limit);
    }
  }

  // ----- Following the cursors through a store -----

  /** Each request iterates over the index in an order of its own. */
  ghost predicate AllEnumerate(orders: nat -> seq<string>, byID: map<string, Article>) {
    forall k: nat :: Enumerates(orders(k), byID)
  }

  /** What the searches for the requests find; request number `k` iterates over the index in the order `orders(k)`. */
  function Searches(query: SearchQuery, store: Store, orders: nat -> seq<string>): nat -> seq<Article>
    requires AllEnumerate(orders, store.byID)
  {
    (k: nat) => assert Enumerates(orders(k), store.byID); Results(query, store.byID, orders(k))
  }

  function MatchCount(query: SearchQuery, store: Store, orders: nat -> seq<string>): nat
    requires AllEnumerate(orders, store.byID)
  {
    |Searches(query, store, orders)(0)|
  }

  lemma SearchesHaveOneSize(query: SearchQuery, store: Store, orders: nat -> seq<string>)
    requires Consistent(store) && AllEnumerate(orders, store.byID)
    ensures OfSize(Searches(query, store, orders), MatchCount(query, store, orders))
    ensures MatchCount(query, store, orders) <= |store.byID|
  {
    forall k: nat ensures |Searches(query, store, orders)(k)| == MatchCount(query, store, orders) {
      assert Enumerates(orders(k), store.byID) && Enumerates(orders(0), store.byID);
      ResultsHaveOneSize(query, store, orders(k), orders(0));
    }
    ResultsAreMatches(query, store, orders(0));
  }

  /** The pages of the searches, from the start up to and including the first page that is not full. */
  function Shown(query: SearchQuery, store: Store, orders: nat -> seq<string>, hidden: set<string>,
                 limit: nat): seq<Article>
    requires limit > 0 && Consistent(store) && AllEnumerate(orders, store.byID)
  {
    SearchesHaveOneSize(query, store, orders);
    ShownFrom(Searches(query, store, orders), MatchCount(query, store, orders), hidden, limit, 0, 0)
  }

  /** This is what a user is shown who follows the cursors from the start, while the store stays as it is. */
  lemma FollowingCursors(query: SearchQuery, store: Store, orders: nat -> seq<string>, hidden: set<string>, limit: nat)
    requires limit > 0 && Consistent(store) && |store.byID| <= MAX_INT64 && AllEnumerate(orders, store.byID)
    ensures var found, size := Searches(query, store, orders), MatchCount(query, store, orders);
            && size <= MAX_INT64 && OfSize(found, size)
            && Walk(found, size, hidden, limit, 0, "") == Shown(query, store, orders, hidden, limit)
  {
    SearchesHaveOneSize(query, store, orders);
    WalkShowsPages(Searches(query, store, orders), MatchCount(query, store, orders), hidden, limit, 0, "");
  }

  /** If no two results could be listed the other way round, all requests see one list. */
  lemma SearchesAgree(query: SearchQuery, store: Store, orders: nat -> seq<string>)
    requires Consistent(store) && AllEnumerate(orders, store.byID) && NoRivals(query, store)
    ensures AllFind(Searches(query, store, orders), Searches(query, store, orders)(0))
  {
    forall k: nat ensures Searches(query, store, orders)(k) == Searches(query, store, orders)(0) {
      assert Enumerates(orders(k), store.byID) && Enumerates(orders(0), store.byID);
      ResultsAreDetermined(query, store, orders(k), orders(0));
    }
  }

  /** Without rivals and hidden matches, following the cursors shows every match exactly once, whatever the limit and
      the orders in which the requests iterate over the index. */
  lemma WalkTilesMatches(query: SearchQuery, store: Store, orders: nat -> seq<string>, hidden: set<string>, limit: nat)
    requires limit > 0 && Consistent(store) && AllEnumerate(orders, store.byID)
    requires NoRivals(query, store) && forall a :: IsMatch(query, store, a) ==> a.id !in hidden
    ensures Shown(query, store, orders, hidden, limit) == Searches(query, store, orders)(0)
    ensures ListsMatches(query, store, Shown(query, store, orders, hidden, limit))
  {
    var found, results := Searches(query, store, orders), Searches(query, store, orders)(0);
    assert Enumerates(orders(0), store.byID);
    SearchesAgree(query, store, orders);
    SearchesHaveOneSize(query, store, orders);
    ResultsAreMatches(query, store, orders(0));
    forall i | 0 <= i < |results| ensures results[i].id !in hidden {
      assert results[i] in results;
    }
    ShownOfOneList(found, results, hidden, limit, 0, 0);
    ReachIsEnd(results, hidden, limit, 0);
    assert results[0..|results|] == results;
    NothingHidden(results, hidden, |results|);
  }

  lemma OneArticlePage(found: nat -> seq<Article>, size: nat, request: nat, offset: nat)
    requires OfSize(found, size) && offset < size
    ensures |found(request)| == size
    ensures ShownFrom(found, size, {}, 1, request, offset) ==
            [found(request)[offset]] + ShownFrom(found, size, {}, 1, request + 1, offset + 1)
  {
    var results := found(request);
    OneIsPage(results, offset);
    ShownStep(found, size, {}, 1, request, offset, results);
  }

  lemma OneIsPage(results: seq<Article>, offset: nat)
    requires offset < |results|
    ensures PageAt(results, {}, 1, offset) == [results[offset]]
  {
    WindowIsSlice(results, offset, 1);
    NothingHidden(results[offset..offset + 1], {}, 1);
  }

  /** With one article a page, the article at each position is the one that its own search has there. */
  lemma {:induction false} PagesOneByOne(found: nat -> seq<Article>, size: nat, request: nat, offset: nat, j: nat)
    requires OfSize(found, size) && offset <= size
    ensures var shown := ShownFrom(found, size, {}, 1, request, offset);
            && |shown| == size - offset
            && (j < size - offset ==> |found(request + j)| == size && shown[j] == found(request + j)[offset + j])
    decreases size - offset
  {
    if offset < size {
      OneArticlePage(found, size, request, offset);
      PagesOneByOne(found, size, request + 1, offset + 1, if j > 0 then j - 1 else 0);
    } else {
      NothingBeyondTheEnd(found, size, {}, 1, request, offset);
    }
  }

  lemma PageOfOne(found: nat -> seq<Article>, size: nat, j: nat)
    requires OfSize(found, size)
    ensures |ShownFrom(found, size, {}, 1, 0, 0)| == size
    ensures j < size ==> |found(j)| == size && ShownFrom(found, size, {}, 1, 0, 0)[j] == found(j)[j]
  {
    PagesOneByOne(found, size, 0, 0, j);
  }

  lemma ShownOfSearches(query: SearchQuery, store: Store, orders: nat -> seq<string>, j: nat)
    requires Consistent(store) && AllEnumerate(orders, store.byID) && Enumerates(orders(j), store.byID)
    ensures |Shown(query, store, orders, {}, 1)| == |Results(query, store.byID, orders(j))|
    ensures j < |Results(query, store.byID, orders(j))| ==>
              Shown(query, store, orders, {}, 1)[j] == Results(query, store.byID, orders(j))[j]
  {
    var found := Searches(query, store, orders);
    SearchesHaveOneSize(query, store, orders);
    PageOfOne(found, MatchCount(query, store, orders), j);
    assert found(j) == Results(query, store.byID, orders(j));
  }

  /** If two orders of iteration give different results, some article is shown twice when the request for it, and no
      other, uses the second order. */
  lemma DifferenceShowsTwice(query: SearchQuery, store: Store, ids: seq<string>, others: seq<string>)
    returns (orders: nat -> seq<string>)
    requires Consistent(store)
    requires Enumerates(ids, store.byID) && Enumerates(others, store.byID)
    ensures AllEnumerate(orders, store.byID)
    ensures Results(query, store.byID, ids) != Results(query, store.byID, others) ==>
              !ListsMatches(query, store, Shown(query, store, orders, {}, 1))
  {
    var r1, r2 := Results(query, store.byID, ids), Results(query, store.byID, others);
    ResultsHaveOneSize(query, store, ids, others);
    ResultsAreMatches(query, store, ids);
    ResultsAreMatches(query, store, others);
    orders := (k: nat) => ids;
    if r1 != r2 {
      forall a ensures a in r1 <==> a in r2 {
        assert a in r1 <==> IsMatch(query, store, a);
      }
      var p, q := DifferentPlaces(r1, r2);
      orders := (k: nat) => if k == p then others else ids;
      ShownOfSearches(query, store, orders, p);
      ShownOfSearches(query, store, orders, q);
    }
  }

  /** Where two lists of the same elements differ, the second has an element that the first has at another place. */
  lemma DifferentPlaces(r1: seq<Article>, r2: seq<Article>) returns (p: nat, q: nat)
    requires |r1| == |r2| && r1 != r2 && forall a :: a in r1 <==> a in r2
    ensures p < |r1| && q < |r1| && p != q && r1[q] == r2[p]
  {
    p :| p < |r1| && r1[p] != r2[p];
    assert r2[p] in r1;
    q :| q < |r1| && r1[q] == r2[p];
  }

  /** Every walk from the start, with any limit and any orders of iteration, shows every match exactly once. */
  ghost predicate AlwaysTiles(query: SearchQuery, store: Store)
    requires Consistent(store)
  {
    forall limit: nat, orders: nat -> seq<string> :: limit > 0 && AllEnumerate(orders, store.byID) ==>
      ListsMatches(query, store, Shown(query, store, orders, {}, limit))
  }

  /** Following the cursors is sure to show every match exactly once, if and only if no two matching articles of one
      source were published at the same time, nor the newest ones of two sources that the query does not name. */
  lemma WalkTilesExactly(query: SearchQuery, store: Store)
    requires Consistent(store)
    ensures AlwaysTiles(query, store) <==> NoRivals(query, store)
  {
    if NoRivals(query, store) {
      forall limit: nat, orders: nat -> seq<string> | limit > 0 && AllEnumerate(orders, store.byID)
        ensures ListsMatches(query, store, Shown(query, store, orders, {}, limit))
      {
        WalkTilesMatches(query, store, orders, {}, limit);
      }
    }
    if !NoRivals(query, store) {
      var a, b :| Rivals(query, store, a, b);
      var ids, others := RivalsChangeResults(query, store, a, b);
      var orders := DifferenceShowsTwice(query, store, ids, others);
    }
  }

  lemma TwoInOrder(results: seq<Article>, a: Article, b: Article)
    requires Sorting.Precedes(results, a, b) && SourceBalance.Distinguished(results)
    requires forall x :: x in results ==> x in {a, b}
    ensures results == [a, b]
  {
    assert a in results && b in results;
    CountOf(results, {a, b});
  }

  lemma ShownOfTwo(query: SearchQuery, store: Store, a: Article, b: Article, orders: nat -> seq<string>)
    requires Consistent(store) && AllEnumerate(orders, store.byID)
    requires Enumerates(orders(0), store.byID) && Enumerates(orders(1), store.byID)
    ensures Results(query, store.byID, orders(0)) == [a, b] && Results(query, store.byID, orders(1)) == [b, a] ==>
              Shown(query, store, orders, {}, 1) == [a, a]
  {
    ShownOfSearches(query, store, orders, 0);
    ShownOfSearches(query, store, orders, 1);
    if Results(query, store.byID, orders(0)) == [a, b] && Results(query, store.byID, orders(1)) == [b, a] {
      IsPair(Shown(query, store, orders, {}, 1), a, a);
    }
  }

  lemma IsPair(xs: seq<Article>, a: Article, b: Article)
    requires |xs| == 2 && xs[0] == a && xs[1] == b
    ensures xs == [a, b]
  {
  }

  lemma OnlyTheTwo(query: SearchQuery, store: Store, a: Article, b: Article)
    requires Consistent(store) && IsMatch(query, store, a) && IsMatch(query, store, b) &&
             Enumerates([a.id, b.id], store.byID)
    ensures forall x :: x in Results(query, store.byID, [a.id, b.id]) ==> x in {a, b}
    ensures SourceBalance.Distinguished(Results(query, store.byID, [a.id, b.id]))
  {
    ResultsAreMatches(query, store, [a.id, b.id]);
    forall x | x in Results(query, store.byID, [a.id, b.id]) ensures x in {a, b} {
      assert IsMatch(query, store, x);
      assert x.id in [a.id, b.id];
    }
  }

  lemma TiedResults(query: SearchQuery, store: Store, a: Article, b: Article)
    requires Consistent(store) && Rivals(query, store, a, b) && Enumerates([a.id, b.id], store.byID)
    ensures Results(query, store.byID, [a.id, b.id]) == [a, b]
  {
    assert [a.id, b.id] + [] == [a.id, b.id];
    RivalsFollow(query, store, a, b, []);
    OnlyTheTwo(query, store, a, b);
    TwoInOrder(Results(query, store.byID, [a.id, b.id]), a, b);
  }

  /** With a store of two articles that are rivals, one article a page, and requests that iterate in different orders,
      the first article is shown twice and the second never. */
  lemma TiedArticleShownTwice(query: SearchQuery, store: Store, a: Article, b: Article, orders: nat -> seq<string>)
    requires Consistent(store) && Rivals(query, store, a, b)
    requires AllEnumerate(orders, store.byID) && orders(0) == [a.id, b.id] && orders(1) == [b.id, a.id]
    ensures Shown(query, store, orders, {}, 1) == [a, a]
  {
    assert Enumerates(orders(0), store.byID) && Enumerates(orders(1), store.byID);
    TiedResults(query, store, a, b);
    TiedResults(query, store, b, a);
    ShownOfTwo(query, store, a, b, orders);
  }

  /** The first search iterates over the one article first, all others over the other one. */
  function Alternating(a: Article, b: Article): nat -> seq<string> {
    (k: nat) => if k == 0 then [a.id, b.id] else [b.id, a.id]
  }

  /** So two articles of one source and time that contain the text of the query are enough: once they are saved, the
      first may be shown twice and the second never. */
  lemma AlikeArticleShownTwice(query: SearchQuery, a: Article, b: Article)
    requires TermMatching.AsksForText(query) && TermMatching.Alike(query, a, b)
    ensures var store, orders := Saved(Saved(EMPTY, a), b), Alternating(a, b);
            Consistent(store) && AllEnumerate(orders, store.byID) && Shown(query, store, orders, {}, 1) == [a, a]
  {
    var store, orders := Saved(Saved(EMPTY, a), b), Alternating(a, b);
    TermMatching.RivalsOccur(query, a, b);
    forall k: nat ensures Enumerates(orders(k), store.byID) {
    }
    TiedArticleShownTwice(query, store, a, b, orders);
  }

  // ----- Hidden articles -----

  /** A hidden article ends the walk with its page. So when `h` is the position of the first hidden match, a user is
      shown all visible matches if and only if there are none beyond the page of `h`. */
  lemma HiddenArticleEndsWalk(query: SearchQuery, store: Store, orders: nat -> seq<string>, hidden: set<string>,
                              limit: nat, page: nat, h: nat)
    requires limit > 0 && Consistent(store) && AllEnumerate(orders, store.byID) && NoRivals(query, store)
    requires h < MatchCount(query, store, orders) && page * limit <= h < page * limit + limit
    requires FirstHidden(Searches(query, store, orders)(0), hidden, h)
    ensures var results := Searches(query, store, orders)(0);
            Shown(query, store, orders, hidden, limit) == Visible(results, hidden) <==>
            forall i :: page * limit + limit <= i < |results| ==> results[i].id in hidden
  {
    var results := Searches(query, store, orders)(0);
    SearchesAgree(query, store, orders);
    SearchesHaveOneSize(query, store, orders);
    ShownOfOneList(Searches(query, store, orders), results, hidden, limit, 0, 0);
    SpanIsProduct(limit, page);
    ReachOf(results, hidden, limit, 0, page, h);
    StopsAt(results, hidden, Reach(results, hidden, limit, 0));
  }

  ghost predicate FirstHidden(results: seq<Article>, hidden: set<string>, h: nat)
    requires h < |results|
  {
    results[h].id in hidden && forall i :: 0 <= i < h ==> results[i].id !in hidden
  }

  /** With one article a page, hiding the first of two leaves the user with nothing, although the second is visible. */
  lemma HiddenArticleHidesTheNext(found: nat -> seq<Article>, a: Article, b: Article)
    requires a.id != b.id && AllFind(found, [a, b])
    ensures OfSize(found, 2)
    ensures Walk(found, 2, {a.id}, 1, 0, "") == [] && Visible([a, b], {a.id}) == [b]
  {
    WalkOfOneList(found, [a, b], {a.id}, 1);
    ReachNext([a, b], {a.id}, 1, 0);
    assert [a, b][0..1] == [a];
    assert VisibleTo([a, b], {a.id}, 1) == [];
  }

  lemma StopsAt(results: seq<Article>, hidden: set<string>, end: nat)
    requires end <= |results|
    ensures Visible(results[0..end], hidden) == Visible(results, hidden) <==>
            forall i :: end <= i < |results| ==> results[i].id in hidden
  {
    var rest := results[end..];
    VisibleConcat(results[0..end], rest, hidden);
    assert results[0..end] + rest == results;
    NothingVisible(rest, hidden, |rest|);
    assert forall i :: end <= i < |results| ==> results[i] == rest[i - end];
    assert forall k :: 0 <= k < |rest| ==> rest[k] == results[end + k];
  }

  lemma {:induction false} NothingVisible(articles: seq<Article>, hidden: set<string>, n: nat)
    requires n <= |articles|
    ensures VisibleTo(articles, hidden, n) == [] <==> forall i :: 0 <= i < n ==> articles[i].id in hidden
  {
    if n > 0 {
      NothingVisible(articles, hidden, n - 1);
    }
  }
}
