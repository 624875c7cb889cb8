/**
 * What the order of the results of a search depends on. Each search iterates over the index anew, in an arbitrary
 * order, and articles that were published at the same time may be sorted differently from one search to the next.
 */
module SearchOrder {
  import opened Contracts
  import Sorting
  import BalanceOrder
  import opened MapOrder
  import opened ArticleStore

  /** No matching article of its source is newer. */
  ghost predicate IsNewest(query: SearchQuery, store: Store, a: Article) {
    forall b :: IsMatch(query, store, b) && SourceKey(b) == SourceKey(a) ==> !Newer(b, a)
  }

  /** Two matching articles published at the same time, either of one source, or the newest ones of two sources that
      the query does not name. */
  ghost predicate Rivals(query: SearchQuery, store: Store, a: Article, b: Article) {
    && IsMatch(query, store, a) && IsMatch(query, store, b) && a != b && a.publishedAt == b.publishedAt
    && (SourceKey(a) != SourceKey(b) ==>
          && SourceKey(a) !in CleanSources(query.sources) && IsNewest(query, store, a)
          && SourceKey(b) !in CleanSources(query.sources) && IsNewest(query, store, b))
  }

  ghost predicate NoRivals(query: SearchQuery, store: Store) {
    forall a, b :: !Rivals(query, store, a, b)
  }

  /** No two matching articles were published at the same time. */
  ghost predicate DistinctTimes(query: SearchQuery, store: Store) {
    forall a, b :: IsMatch(query, store, a) && IsMatch(query, store, b) && a != b ==> a.publishedAt != b.publishedAt
  }

  lemma DistinctTimesHaveNoRivals(query: SearchQuery, store: Store)
    requires DistinctTimes(query, store)
    ensures NoRivals(query, store)
  {
  }

  lemma MatchesAreKeyed(query: SearchQuery, matching: seq<Article>)
    ensures BalanceOrder.Keyed(matching, SourceKey, CleanSources(query.sources))
  {
    CleanSourcesAreClean(query.sources);
  }

  lemma RivalsAreContested(query: SearchQuery, store: Store, matching: seq<Article>, a: Article, b: Article)
    requires ListsMatches(query, store, matching)
    ensures Rivals(query, store, a, b) <==>
            BalanceOrder.Contested(matching, Newer, SourceKey, CleanSources(query.sources), a, b)
  {
    LeadersAreNewest(query, store, matching, a);
    LeadersAreNewest(query, store, matching, b);
  }

  lemma LeadersAreNewest(query: SearchQuery, store: Store, matching: seq<Article>, a: Article)
    requires ListsMatches(query, store, matching)
    ensures IsNewest(query, store, a) <==> BalanceOrder.Leads(matching, Newer, SourceKey, a)
  {
    if BalanceOrder.Leads(matching, Newer, SourceKey, a) {
      forall b | IsMatch(query, store, b) && SourceKey(b) == SourceKey(a) ensures !Newer(b, a) {
        assert b in matching;
      }
    }
    if IsNewest(query, store, a) {
      forall b | b in matching && SourceKey(b) == SourceKey(a) ensures !Newer(b, a) {
        assert IsMatch(query, store, b);
      }
    }
  }

  /** Without rivals the results do not depend on the order in which the map was iterated, so that searches with
      different offsets are windows of one and the same list. */
  lemma ResultsAreDetermined(query: SearchQuery, store: Store, ids: seq<string>, others: seq<string>)
    requires Consistent(store) && NoRivals(query, store)
    requires Enumerates(ids, store.byID) && Enumerates(others, store.byID)
    ensures Results(query, store.byID, ids) == Results(query, store.byID, others)
  {
    var xs, ys := Matching(query, store.byID, ids), Matching(query, store.byID, others);
    MatchingIsMatches(query, store, ids);
    MatchingIsMatches(query, store, others);
    MatchesAreKeyed(query, xs);
    NewerIsOrder();
    forall a, b ensures !BalanceOrder.Contested(xs, Newer, SourceKey, CleanSources(query.sources), a, b) {
      RivalsAreContested(query, store, xs, a, b);
      assert !Rivals(query, store, a, b);
    }
    forall a ensures a in xs <==> a in ys {
      assert a in xs <==> IsMatch(query, store, a);
      assert a in ys <==> IsMatch(query, store, a);
    }
    BalanceOrder.DecidedIsUnique(xs, ys, Newer, SourceKey, CleanSources(query.sources));
  }

  lemma {:induction false} MatchingGrows(query: SearchQuery, store: Store, ids: seq<string>, n: nat)
    requires n <= |ids| && forall id :: id in ids ==> id in store.byID
    ensures Matching(query, store.byID, ids[..n]) <= Matching(query, store.byID, ids)
  {
    if n < |ids| {
      var front := ids[..|ids| - 1];
      assert front[..n] == ids[..n];
      MatchingGrows(query, store, front, n);
    } else {
      assert ids[..n] == ids;
    }
  }

  /** Matches that are enumerated first are listed first. */
  lemma MatchingStarts(query: SearchQuery, store: Store, ids: seq<string>, a: Article, b: Article)
    requires |ids| > 1 && ids[0] == a.id && ids[1] == b.id && forall id :: id in ids ==> id in store.byID
    requires IsMatch(query, store, a) && IsMatch(query, store, b)
    ensures [a, b] <= Matching(query, store.byID, ids)
  {
    assert ids[..2] == [a.id, b.id] && [a.id, b.id][..1] == [a.id] && [a.id][..0] == [];
    assert Matching(query, store.byID, [a.id]) == [a];
    MatchingGrows(query, store, ids, 2);
  }

  lemma Swapped(a: string, b: string, rest: seq<string>, byID: map<string, Article>)
    requires Enumerates([a, b] + rest, byID)
    ensures Enumerates([b, a] + rest, byID)
  {
    var ids, others := [a, b] + rest, [b, a] + rest;
    assert ids[0] == a && ids[1] == b && ids[2..] == rest;
    assert forall k :: 1 < k < |others| ==> others[k] == ids[k];
    assert forall id :: id in others <==> id == a || id == b || id in rest;
    assert forall id :: id in ids <==> id == a || id == b || id in rest;
  }

  /** Of two rivals, the one that is enumerated first is listed first. */
  lemma RivalsFollow(query: SearchQuery, store: Store, a: Article, b: Article, rest: seq<string>)
    requires Consistent(store) && Rivals(query, store, a, b) && Enumerates([a.id, b.id] + rest, store.byID)
    ensures Sorting.Precedes(Results(query, store.byID, [a.id, b.id] + rest), a, b)
  {
    var ids := [a.id, b.id] + rest;
    var xs := Matching(query, store.byID, ids);
    MatchingIsMatches(query, store, ids);
    MatchingStarts(query, store, ids, a, b);
    MatchesAreKeyed(query, xs);
    NewerIsOrder();
    RivalsAreContested(query, store, xs, a, b);
    BalanceOrder.ContestedFollowsInput(xs, Newer, SourceKey, CleanSources(query.sources));
  }

  /** Rivals can be listed in either order. */
  lemma RivalsSwap(query: SearchQuery, store: Store, a: Article, b: Article, rest: seq<string>)
    requires Consistent(store) && Rivals(query, store, a, b) && Enumerates([a.id, b.id] + rest, store.byID)
    ensures Enumerates([b.id, a.id] + rest, store.byID)
    ensures Sorting.Precedes(Results(query, store.byID, [a.id, b.id] + rest), a, b)
    ensures Sorting.Precedes(Results(query, store.byID, [b.id, a.id] + rest), b, a)
    ensures Results(query, store.byID, [a.id, b.id] + rest) != Results(query, store.byID, [b.id, a.id] + rest)
  {
    Swapped(a.id, b.id, rest, store.byID);
    assert Rivals(query, store, b, a);
    RivalsFollow(query, store, a, b, rest);
    RivalsFollow(query, store, b, a, rest);
    ResultsAreMatches(query, store, [a.id, b.id] + rest);
    BalanceOrder.PrecedesOnce(Results(query, store.byID, [a.id, b.id] + rest), a, b);
  }

  lemma RivalsAreFiled(query: SearchQuery, store: Store, a: Article, b: Article)
    ensures Rivals(query, store, a, b) ==> a.id != b.id && a.id in store.byID && b.id in store.byID
  {
  }

  lemma EnumerationFrom(a: string, b: string, byID: map<string, Article>) returns (rest: seq<string>)
    requires a != b && a in byID && b in byID
    ensures Enumerates([a, b] + rest, byID)
  {
    var ids := SomeEnumeration([a, b], byID);
    rest := ids[2..];
    assert ids == [a, b] + rest;
  }

  /** So with rivals there are two orders of iteration with different results. */
  lemma RivalsChangeResults(query: SearchQuery, store: Store, a: Article, b: Article)
    returns (ids: seq<string>, others: seq<string>)
    requires Consistent(store) && Rivals(query, store, a, b)
    ensures Enumerates(ids, store.byID) && Enumerates(others, store.byID)
    ensures Results(query, store.byID, ids) != Results(query, store.byID, others)
  {
    RivalsAreFiled(query, store, a, b);
    var rest := EnumerationFrom(a.id, b.id, store.byID);
    RivalsSwap(query, store, a, b, rest);
    ids, others := [a.id, b.id] + rest, [b.id, a.id] + rest;
  }

  /** Every search finds the same number of articles. */
  lemma ResultsHaveOneSize(query: SearchQuery, store: Store, ids: seq<string>, others: seq<string>)
    requires Consistent(store) && Enumerates(ids, store.byID) && Enumerates(others, store.byID)
    ensures |Results(query, store.byID, ids)| == |Results(query, store.byID, others)|
  {
    var xs, ys := Results(query, store.byID, ids), Results(query, store.byID, others);
    ResultsAreMatches(query, store, ids);
    ResultsAreMatches(query, store, others);
    var all := set a | a in xs;
    forall a ensures a in ys <==> a in all {
      assert a in xs <==> IsMatch(query, store, a);
    }
    CountOf(xs, all);
    CountOf(ys, all);
  }
}
