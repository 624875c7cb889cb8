/** Paging through the discovery API of vc.ru (`DiscoverySearcher.SearchURLs`). */
module Discovery {
  import opened Contracts
  import Text
  import opened FirstSeen
  import Slices
  import Selections

  const DEFAULT_LIMIT := 20
  const MAX_LIMIT := 100

  /** Removal of query and fragment from a URL (`cleanURL`). What it maps a URL to is left open. */
  const CleanURL: string -> string

  datatype Entry = Entry(kind: string, url: string)

  datatype Page = Page(cursor: string, lastID: int, lastSortingValue: int, items: seq<Entry>)

  function NormalizedLimit(limit: int): (r: int)
    ensures 1 <= r <= MAX_LIMIT
    ensures 1 <= limit <= MAX_LIMIT ==> r == limit
    ensures limit <= 0 ==> r == 20
    ensures limit > 100 ==> r == 100
  {
    if limit <= 0 then DEFAULT_LIMIT else if limit > MAX_LIMIT then MAX_LIMIT else limit
  }

  predicate IsArticle(entry: Entry) {
    entry.kind == "" || entry.kind == "entry"
  }

  predicate HasNextPage(page: Page) {
    !(Text.TrimSpace(page.cursor) == "" && (page.lastID <= 0 || page.lastSortingValue <= 0))
  }

  /** The cleaned article URLs of the first `n` entries of a page. */
  function CleanedUpTo(items: seq<Entry>, n: nat): seq<string>
    requires n <= |items|
  {
    if n == 0 then [] else
      CleanedUpTo(items, n - 1) + if IsArticle(items[n - 1]) then [CleanURL(items[n - 1].url)] else []
  }

  function Cleaned(page: Page): seq<string> {
    CleanedUpTo(page.items, |page.items|)
  }

  /** The cleaned article URLs of the first `n` answers of the server, in order. */
  function Offered(serve: nat -> Result<Page>, n: nat): seq<string> {
    if n == 0 then [] else
      Offered(serve, n - 1) + match serve(n - 1) case Ok(page) => Cleaned(page) case Err(_) => []
  }

  lemma {:induction false} CleanedGrows(items: seq<Entry>, m: nat, n: nat)
    requires m <= n <= |items|
    ensures CleanedUpTo(items, m) <= CleanedUpTo(items, n)
  {
    if m < n {
      CleanedGrows(items, m, n - 1);
    }
  }

  /** The URLs kept after the first `n` entries of a page, when earlier pages offered `before`. */
  ghost function Reading(before: seq<string>, items: seq<Entry>): (seq<string>, nat) -> bool {
    (kept: seq<string>, n: nat) => n <= |items| && kept == Distinct(before + CleanedUpTo(items, n))
  }

  lemma StartReading(before: seq<string>, items: seq<Entry>)
    ensures Reading(before, items)(Distinct(before), 0)
  {
    assert before + CleanedUpTo(items, 0) == before;
  }

  lemma SkipEntry(before: seq<string>, items: seq<Entry>, kept: seq<string>, i: nat)
    requires i < |items| && Reading(before, items)(kept, i) && !IsArticle(items[i])
    ensures Reading(before, items)(kept, i + 1)
  {
    assert CleanedUpTo(items, i + 1) == CleanedUpTo(items, i);
  }

  lemma TakeEntry(before: seq<string>, items: seq<Entry>, kept: seq<string>, i: nat, url: string)
    requires i < |items| && Reading(before, items)(kept, i) && IsArticle(items[i]) && url == CleanURL(items[i].url)
    ensures url == "" || url in kept ==> Reading(before, items)(kept, i + 1)
    ensures url != "" && url !in kept ==> Reading(before, items)(kept + [url], i + 1)
  {
    var offered := before + CleanedUpTo(items, i);
    assert before + CleanedUpTo(items, i + 1) == offered + [url];
    DistinctSnoc(offered, url);
  }

  lemma MoreOffered(before: seq<string>, some: seq<string>, all: seq<string>)
    requires some <= all
    ensures Distinct(before + some) <= Distinct(before + all)
  {
    assert before + all == before + some + all[|some|..];
    DistinctPrefix(before + some, all[|some|..]);
  }

  lemma FirstIsPrefix(kept: seq<string>, all: seq<string>, limit: nat)
    requires kept <= all && |kept| == limit
    ensures kept == Slices.First(all, limit)
  {
  }

  /** Once the limit is reached the rest of the page makes no difference. */
  lemma LimitReached(before: seq<string>, page: Page, kept: seq<string>, n: nat, limit: nat)
    requires Reading(before, page.items)(kept, n) && |kept| == limit
    ensures kept == Slices.First(Distinct(before + Cleaned(page)), limit)
  {
    CleanedGrows(page.items, n, |page.items|);
    MoreOffered(before, CleanedUpTo(page.items, n), Cleaned(page));
    FirstIsPrefix(kept, Distinct(before + Cleaned(page)), limit);
  }

  lemma PageDone(before: seq<string>, page: Page, kept: seq<string>, limit: nat)
    requires Reading(before, page.items)(kept, |page.items|) && |kept| < limit
    ensures kept == Slices.First(Distinct(before + Cleaned(page)), limit)
  {
  }

  /** A page keeps what earlier pages brought. */
  lemma PageAdds(before: seq<string>, page: seq<string>, limit: nat)
    ensures Slices.First(Distinct(before), limit) <= Slices.First(Distinct(before + page), limit)
  {
    DistinctPrefix(before, page);
  }

  function Elements(urls: seq<string>): set<string> {
    set url | url in urls
  }

  lemma ElementsSnoc(urls: seq<string>, url: string)
    ensures Elements(urls + [url]) == Elements(urls) + {url}
  {
  }

  /** Appends the new URLs of a page until the limit is reached; `before` is what earlier pages offered. */
  method AppendDiscoveryURLs(urls: seq<string>, seen: set<string>, payload: Page, limit: nat, ghost before: seq<string>)
    returns (added: seq<string>, seen': set<string>)
    requires |urls| < limit && urls == Distinct(before)
    requires seen == Elements(urls)
    ensures added == Slices.First(Distinct(before + Cleaned(payload)), limit)
    ensures seen' == Elements(added)
  {
    var kept, marks, items := urls, seen, payload.items;
    StartReading(before, items);
    for i := 0 to |items|
      invariant |kept| < limit && Reading(before, items)(kept, i)
      invariant marks == Elements(kept)
    {
      if !IsArticle(items[i]) {
        SkipEntry(before, items, kept, i);
        continue;
      }
      var cleaned := CleanURL(items[i].url);
      TakeEntry(before, items, kept, i, cleaned);
      if cleaned == "" || cleaned in marks {
        continue;
      }
      ElementsSnoc(kept, cleaned);
      marks := marks + {cleaned};
      kept := kept + [cleaned];
      if limit > 0 && |kept| >= limit {
        LimitReached(before, payload, kept, i + 1, limit);
        return kept, marks;
      }
    }
    PageDone(before, payload, kept, limit);
    return kept, marks;
  }

  /** All answers but the last were pages, and the last one decides between success and error. */
  ghost predicate Visited(serve: nat -> Result<Page>, requests: nat, r: Result<seq<string>>)
    requires requests > 0
  {
    && (forall k :: 0 <= k < requests - 1 ==> serve(k).Ok?)
    && (r.Ok? <==> serve(requests - 1).Ok?)
    && (r.Err? ==> r.error == serve(requests - 1).error)
  }

  /** The URLs kept after `n` requests. */
  function KeptAfter(serve: nat -> Result<Page>, n: nat, limit: nat): seq<string> {
    Slices.First(Distinct(Offered(serve, n)), limit)
  }

  /** After `n` requests there is a next page, the last one has brought something new, and more is wanted. */
  ghost predicate GoesOn(serve: nat -> Result<Page>, n: nat, limit: nat)
    requires n > 0
  {
    && serve(n - 1).Ok? && HasNextPage(serve(n - 1).value)
    && |KeptAfter(serve, n - 1, limit)| < |KeptAfter(serve, n, limit)| < limit
  }

  /** After `requests` requests, at most `limit`, the result is the first `limit` distinct URLs of all visited pages.
      Requests are sent as long as there is a next page, something new and more wanted, and no longer. */
  ghost predicate Searched(serve: nat -> Result<Page>, requests: nat, limit: nat, r: Result<seq<string>>) {
    && 1 <= requests <= limit
    && Visited(serve, requests, r)
    && (r.Ok? ==> r.value == KeptAfter(serve, requests, limit))
    && (forall n :: 1 <= n < requests ==> GoesOn(serve, n, limit))
    && (r.Ok? ==> !GoesOn(serve, requests, limit))
  }

  /** Searches against an arbitrary server: `serve(k)` is its answer to request number `k`. */
  method SearchURLs(query: string, rawLimit: int, serve: nat -> Result<Page>)
    returns (r: Result<seq<string>>, requests: nat)
    ensures Text.IsBlank(query) ==> r == Ok([]) && requests == 0
    ensures !Text.IsBlank(query) ==> Searched(serve, requests, NormalizedLimit(rawLimit), r)
  {
    if Text.TrimSpace(query) == "" {
      return Ok([]), 0;
    }
    r, requests := CollectURLs(NormalizedLimit(rawLimit), serve);
  }

  lemma OfferedNext(serve: nat -> Result<Page>, n: nat)
    requires serve(n).Ok?
    ensures Offered(serve, n + 1) == Offered(serve, n) + Cleaned(serve(n).value)
  {
  }

  /** After `requests` answered requests these URLs have been kept, and unless they are enough the search goes on. */
  ghost predicate Going(serve: nat -> Result<Page>, requests: nat, limit: nat, urls: seq<string>) {
    && urls == KeptAfter(serve, requests, limit) && requests <= |urls|
    && (forall k :: 0 <= k < requests ==> serve(k).Ok?)
    && (forall n :: 1 <= n < requests ==> GoesOn(serve, n, limit))
    && (requests > 0 && |urls| < limit ==> GoesOn(serve, requests, limit))
  }

  lemma AllGoOn(serve: nat -> Result<Page>, requests: nat, limit: nat, urls: seq<string>)
    requires Going(serve, requests, limit, urls) && |urls| < limit
    ensures forall n :: 1 <= n < requests + 1 ==> GoesOn(serve, n, limit)
  {
  }

  lemma SearchFails(serve: nat -> Result<Page>, requests: nat, limit: nat, urls: seq<string>)
    requires Going(serve, requests, limit, urls) && |urls| < limit && serve(requests).Err?
    ensures Searched(serve, requests + 1, limit, Err(serve(requests).error))
  {
    AllGoOn(serve, requests, limit, urls);
  }

  /** One more page ends the search or not. */
  lemma PageDecides(serve: nat -> Result<Page>, requests: nat, limit: nat, urls: seq<string>, added: seq<string>)
    requires Going(serve, requests, limit, urls) && |urls| < limit && serve(requests).Ok?
    requires added == KeptAfter(serve, requests + 1, limit) && urls <= added
    ensures if |added| == |urls| || !HasNextPage(serve(requests).value)
            then Searched(serve, requests + 1, limit, Ok(added))
            else Going(serve, requests + 1, limit, added)
  {
    AllGoOn(serve, requests, limit, urls);
  }

  /** One request that is answered with a page. */
  method Visit(serve: nat -> Result<Page>, k: nat, limit: nat, urls: seq<string>, seen: set<string>)
    returns (added: seq<string>, seen': set<string>)
    requires Going(serve, k, limit, urls) && |urls| < limit && serve(k).Ok? && seen == Elements(urls)
    ensures added == KeptAfter(serve, k + 1, limit) && urls <= added && seen' == Elements(added)
  {
    PageAdds(Offered(serve, k), Cleaned(serve(k).value), limit);
    added, seen' := AppendDiscoveryURLs(urls, seen, serve(k).value, limit, Offered(serve, k));
    OfferedNext(serve, k);
  }

  lemma NothingVisited(serve: nat -> Result<Page>, limit: nat)
    ensures Going(serve, 0, limit, [])
  {
  }

  lemma EnoughCollected(serve: nat -> Result<Page>, requests: nat, limit: nat, urls: seq<string>)
    requires Going(serve, requests, limit, urls) && requests > 0 && |urls| >= limit
    ensures Searched(serve, requests, limit, Ok(urls))
  {
  }

  method CollectURLs(limit: nat, serve: nat -> Result<Page>) returns (r: Result<seq<string>>, requests: nat)
    requires limit > 0
    ensures Searched(serve, requests, limit, r)
  {
    var urls: seq<string>, seen: set<string>, k := [], {}, 0;
    NothingVisited(serve, limit);
    while |urls| < limit
      invariant Going(serve, k, limit, urls) && seen == Elements(urls)
      invariant k > 0 || |urls| < limit
      decreases limit - |urls|
    {
      var payload := serve(k);
      if payload.Err? {
        SearchFails(serve, k, limit, urls);
        return Err(payload.error), k + 1;
      }
      var added;
      added, seen := Visit(serve, k, limit, urls, seen);
      PageDecides(serve, k, limit, urls, added);
      if |added| == |urls| || !HasNextPage(payload.value) {
        return Ok(added), k + 1;
      }
      urls, k := added, k + 1;
    }
    EnoughCollected(serve, k, limit, urls);
    return Ok(urls), k;
  }

  // ----- In the fields of the answers -----

  ghost function IsEntry(page: Page): nat -> bool {
    (i: nat) => i < |page.items| && (page.items[i].kind == "" || page.items[i].kind == "entry")
  }

  ghost predicate CleanedAt(page: Page, at: seq<nat>, urls: seq<string>) {
    |urls| == |at| && forall k :: 0 <= k < |at| ==> at[k] < |page.items| && urls[k] == CleanURL(page.items[at[k]].url)
  }

  lemma {:induction false} CleanedUpToAt(page: Page, n: nat)
    requires n <= |page.items|
    ensures CleanedAt(page, Selections.Below(n, IsEntry(page)), CleanedUpTo(page.items, n))
  {
    if n > 0 {
      CleanedUpToAt(page, n - 1);
    }
  }

  /** A page offers the cleaned URLs of those of its items that are entries or have no kind, in their order. */
  lemma PageOffers(page: Page) returns (at: seq<nat>)
    ensures Selections.Ascending(at)
    ensures forall i: nat :: i in at <==>
              i < |page.items| && (page.items[i].kind == "" || page.items[i].kind == "entry")
    ensures CleanedAt(page, at, Cleaned(page))
  {
    at := Selections.Below(|page.items|, IsEntry(page));
    Selections.BelowSelects(|page.items|, IsEntry(page));
    CleanedUpToAt(page, |page.items|);
  }

  /** A search that got an answer to every request has sent another one exactly as long as the last page named a next
      one, by a cursor or by the last entry's identifier and sorting value, had brought something new, and more was
      wanted. */
  lemma SearchStopsExactly(serve: nat -> Result<Page>, requests: nat, limit: nat, r: Result<seq<string>>, n: nat)
    requires Searched(serve, requests, limit, r) && r.Ok? && 1 <= n <= requests
    ensures serve(n - 1).Ok?
    ensures var page := serve(n - 1).value;
            n < requests <==>
            && (Text.TrimSpace(page.cursor) != "" || (page.lastID > 0 && page.lastSortingValue > 0))
            && |KeptAfter(serve, n - 1, limit)| < |KeptAfter(serve, n, limit)| < limit
  {
    assert n < requests ==> GoesOn(serve, n, limit);
  }
}
