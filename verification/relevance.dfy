/** Which candidates a search keeps and how it orders them, in relevance, dates and places in the answers. */
module Relevance {
  import Contracts
  import Text
  import FirstSeen
  import Sorting
  import opened RoundRobin
  import opened Candidates
  import opened SearchPipeline

  // ----- Relevance -----

  /** How many of the terms occur in the text, in lower case. */
  function Hits(terms: seq<string>, text: string): nat {
    |set term | term in terms && Text.Contains(Text.ToLower(text), term)|
  }

  lemma HitsSnoc(terms: seq<string>, term: string, text: string)
    requires term !in terms
    ensures Hits(terms + [term], text) ==
            Hits(terms, text) + if Text.Contains(Text.ToLower(text), term) then 1 else 0
  {
    var before := set t | t in terms && Text.Contains(Text.ToLower(text), t);
    var after := set t | t in terms + [term] && Text.Contains(Text.ToLower(text), t);
    if Text.Contains(Text.ToLower(text), term) {
      assert after == before + {term};
    } else {
      assert after == before;
    }
  }

  lemma {:induction false} ScoresAreHits(c: Contracts.Candidate, terms: seq<string>)
    requires FirstSeen.NoRepeats(terms)
    ensures TermScores(c, terms) ==
            4 * Hits(terms, c.title) + 3 * Hits(terms, Text.Join(c.tags, " ")) + 2 * Hits(terms, c.summary) +
            Hits(terms, c.content) + Hits(terms, c.url)
  {
    if |terms| > 0 {
      var front, last := terms[..|terms| - 1], terms[|terms| - 1];
      assert terms == front + [last];
      ScoresAreHits(c, front);
      HitsSnoc(front, last, c.title);
      HitsSnoc(front, last, Text.Join(c.tags, " "));
      HitsSnoc(front, last, c.summary);
      HitsSnoc(front, last, c.content);
      HitsSnoc(front, last, c.url);
    }
  }

  lemma {:induction false} FirstOccurrencesAre(xs: seq<string>, x: string)
    ensures FirstSeen.NoRepeats(FirstOccurrences(xs))
    ensures x in FirstOccurrences(xs) <==> x in xs
  {
    if |xs| > 0 {
      assert xs == xs[..|xs| - 1] + [xs[|xs| - 1]];
      FirstOccurrencesAre(xs[..|xs| - 1], x);
    }
  }

  lemma {:induction false} LongTerms(terms: seq<string>, length: nat, x: string)
    ensures x in TermsOfLength(terms, length) <==>
            |x| >= length && exists i :: 0 <= i < |terms| && Text.TrimSpace(terms[i]) == x
  {
    if |terms| > 0 {
      var front, last := terms[..|terms| - 1], terms[|terms| - 1];
      LongTerms(front, length, x);
      if i :| 0 <= i < |front| && Text.TrimSpace(front[i]) == x {
        assert terms[i] == front[i];
      }
      if i :| 0 <= i < |terms| && Text.TrimSpace(terms[i]) == x {
        assert i < |front| ==> front[i] == terms[i];
      }
    }
  }

  /** The terms of a query are the words of its text, in lower case, that have at least two characters, each once. */
  lemma QueryTermsAre(text: string, term: string)
    ensures FirstSeen.NoRepeats(QueryTerms(text))
    ensures var words := Text.FieldsBy(Text.ToLower(text), c => !IsLetterOrDigit(c));
            term in QueryTerms(text) <==>
            |term| >= 2 && exists i :: 0 <= i < |words| && Text.TrimSpace(words[i]) == term
  {
    FirstOccurrencesAre(TermsOfLength(Terms(text), 2), term);
    LongTerms(Terms(text), 2, term);
  }

  /** For every term of the query, a candidate gets four points if it is in the title, three if it is in the tags, two
      if it is in the summary, one if it is in the content and one if it is in the URL. Without terms every candidate
      gets one. */
  lemma RelevanceIsHits(c: Contracts.Candidate, text: string)
    ensures var terms := QueryTerms(text);
            RelevanceScore(c, text) ==
            if terms == [] then 1
            else 4 * Hits(terms, c.title) + 3 * Hits(terms, Text.Join(c.tags, " ")) + 2 * Hits(terms, c.summary) +
                 Hits(terms, c.content) + Hits(terms, c.url)
  {
    QueryTermsAre(text, "");
    ScoresAreHits(c, QueryTerms(text));
  }

  // ----- The order of what is returned -----

  /** Within a bucket candidates come by relevance, and where that is equal by date, the later first. */
  lemma BucketsByRelevance(survey: Survey, n: nat, b: nat, i: nat, j: nat)
    requires n <= |survey.sources| && b < |Gathered(survey, n).buckets|
    requires i < j < |Gathered(survey, n).buckets[b].entries|
    ensures var entries := Gathered(survey, n).buckets[b].entries;
            || entries[i].score > entries[j].score
            || (entries[i].score == entries[j].score &&
                entries[i].candidate.publishedAt >= entries[j].candidate.publishedAt)
  {
    BucketsAreSorted(survey, n);
    var entries := Gathered(survey, n).buckets[b].entries;
    assert !Above(entries[j], entries[i]);
  }

  /** An entry is kept in one bucket only. */
  lemma OneBucket(all: Collection, a: nat, b: nat, e: Entry)
    requires Sound(all) && a < |all.buckets| && b < |all.buckets|
    requires e in all.buckets[a].entries && e in all.buckets[b].entries
    ensures a == b
  {
    var lists := Lists(all.buckets);
    assert e in lists[a] && e in lists[b];
    assert a < b ==> Disjoint(lists[a], lists[b]);
    assert b < a ==> Disjoint(lists[b], lists[a]);
  }

  /** Of two candidates returned from one bucket, the earlier one has the greater relevance, or the same relevance and
      no earlier date. */
  lemma ReturnedByRelevance(survey: Survey, limit: int, b: nat, i: nat, j: nat)
    requires AllKeyed(survey) && b < |Gathered(survey, |survey.sources|).buckets|
    requires var buckets := Gathered(survey, |survey.sources|).buckets;
             && i < j < |Delivered(buckets, limit)|
             && Delivered(buckets, limit)[i] in buckets[b].entries
             && Delivered(buckets, limit)[j] in buckets[b].entries
    ensures var r := Delivered(Gathered(survey, |survey.sources|).buckets, limit);
            || r[i].score > r[j].score
            || (r[i].score == r[j].score && r[i].candidate.publishedAt >= r[j].candidate.publishedAt)
  {
    var all := Gathered(survey, |survey.sources|);
    var c := DeliveredFrom(all.buckets, limit, i);
    var d := DeliveredFrom(all.buckets, limit, j);
    GatheredIsSound(survey, |survey.sources|);
    OneBucket(all, c.bucket, b, Delivered(all.buckets, limit)[i]);
    OneBucket(all, d.bucket, b, Delivered(all.buckets, limit)[j]);
    CellsAreAll(Sizes(Lists(all.buckets)));
    assert Earlier(c, d);
    BucketsByRelevance(survey, |survey.sources|, b, c.index, d.index);
  }

  // ----- What is kept -----

  /** The candidate at `p` was marked and has some relevance, or no marked candidate of its source has. */
  ghost predicate Kept(survey: Survey, p: Place)
  {
    && IsPlace(survey, p) && Marked(survey, p)
    && (EntryAt(survey, p).score > 0 || NoneRelevant(survey, p.source))
  }

  ghost predicate NoneRelevant(survey: Survey, k: nat)
  {
    forall i: nat :: IsPlace(survey, Place(k, i)) && Marked(survey, Place(k, i)) ==>
                       EntryAt(survey, Place(k, i)).score <= 0
  }

  /** One of the first `n` candidates of source `k` was marked as `e`. */
  ghost predicate MarkedBefore(survey: Survey, k: nat, n: nat, e: Entry)
  {
    exists i: nat :: i < n && MarkedAs(survey, Place(k, i), e)
  }

  lemma MarkedBeforeNext(survey: Survey, k: nat, n: nat, e: Entry)
    requires IsPlace(survey, Place(k, n))
    ensures MarkedBefore(survey, k, n + 1, e) <==> MarkedBefore(survey, k, n, e) || MarkedAs(survey, Place(k, n), e)
  {
    if i: nat :| i < n + 1 && MarkedAs(survey, Place(k, i), e) {
      assert i < n || i == n;
    }
  }

  function IntakeUpTo(survey: Survey, k: nat, n: nat): Intake
    requires k < |survey.sources| && n <= |EntriesFound(survey.outcomes[k])|
  {
    TakeAll(Gathered(survey, k).marked, EntriesFound(survey.outcomes[k])[..n])
  }

  lemma IntakeNext(survey: Survey, k: nat, n: nat)
    requires k < |survey.sources| && n < |EntriesFound(survey.outcomes[k])|
    ensures IntakeUpTo(survey, k, n + 1) == Take(IntakeUpTo(survey, k, n), EntryAt(survey, Place(k, n)))
    ensures IntakeUpTo(survey, k, n).marked == MarkedUpTo(survey, k, n)
  {
    var found := EntriesFound(survey.outcomes[k]);
    assert found[..n + 1][..n] == found[..n];
  }

  /** The two lists of a source hold its marked candidates with and without relevance. */
  lemma {:induction false} IntakeHolds(survey: Survey, k: nat, n: nat, e: Entry)
    requires k < |survey.sources| && n <= |EntriesFound(survey.outcomes[k])|
    ensures e in IntakeUpTo(survey, k, n).relevant <==> e.score > 0 && MarkedBefore(survey, k, n, e)
    ensures e in IntakeUpTo(survey, k, n).irrelevant <==> e.score <= 0 && MarkedBefore(survey, k, n, e)
  {
    if n > 0 {
      IntakeHolds(survey, k, n - 1, e);
      IntakeNext(survey, k, n - 1);
      MarkedBeforeNext(survey, k, n - 1, e);
    }
  }

  /** Source `k` keeps a candidate as `e`. */
  ghost predicate KeepsAs(survey: Survey, k: nat, e: Entry)
  {
    exists i: nat :: Kept(survey, Place(k, i)) && EntryAt(survey, Place(k, i)) == e
  }

  lemma NoneRelevantIs(survey: Survey, k: nat)
    requires k < |survey.sources|
    ensures NoneRelevant(survey, k) <==> IntakeUpTo(survey, k, |EntriesFound(survey.outcomes[k])|).relevant == []
  {
    var found := EntriesFound(survey.outcomes[k]);
    var relevant := IntakeUpTo(survey, k, |found|).relevant;
    if relevant != [] {
      IntakeHolds(survey, k, |found|, relevant[0]);
      var i: nat :| i < |found| && MarkedAs(survey, Place(k, i), relevant[0]);
    } else {
      forall i: nat | IsPlace(survey, Place(k, i)) && Marked(survey, Place(k, i))
        ensures EntryAt(survey, Place(k, i)).score <= 0
      {
        IntakeHolds(survey, k, |found|, EntryAt(survey, Place(k, i)));
        assert MarkedAs(survey, Place(k, i), EntryAt(survey, Place(k, i)));
      }
    }
  }

  lemma ChosenAreKept(survey: Survey, k: nat, e: Entry)
    requires k < |survey.sources|
    ensures e in Chosen(IntakeUpTo(survey, k, |EntriesFound(survey.outcomes[k])|)) <==> KeepsAs(survey, k, e)
  {
    var n := |EntriesFound(survey.outcomes[k])|;
    NoneRelevantIs(survey, k);
    IntakeHolds(survey, k, n, e);
    if e in Chosen(IntakeUpTo(survey, k, n)) {
      var i: nat :| i < n && MarkedAs(survey, Place(k, i), e);
      assert Kept(survey, Place(k, i));
    }
    if KeepsAs(survey, k, e) {
      var i: nat :| Kept(survey, Place(k, i)) && EntryAt(survey, Place(k, i)) == e;
      assert MarkedAs(survey, Place(k, i), e);
    }
  }

  /** Some bucket of the source holds `e`. */
  ghost predicate HeldFor(buckets: seq<SourceBucket>, source: string, e: Entry) {
    exists b :: 0 <= b < |buckets| && buckets[b].source == source && e in buckets[b].entries
  }

  lemma HeldForNext(buckets: seq<SourceBucket>, bucket: SourceBucket, source: string, e: Entry)
    ensures HeldFor(buckets + [bucket], source, e) <==>
            HeldFor(buckets, source, e) || (bucket.source == source && e in bucket.entries)
  {
    var next := buckets + [bucket];
    if b :| 0 <= b < |buckets| && buckets[b].source == source && e in buckets[b].entries {
      assert next[b] == buckets[b];
    }
    if b :| 0 <= b < |next| && next[b].source == source && e in next[b].entries {
      assert b < |buckets| ==> buckets[b] == next[b];
    }
    assert next[|buckets|] == bucket;
  }

  ghost predicate KeptFor(survey: Survey, n: nat, source: string, e: Entry)
    requires n <= |survey.sources|
  {
    exists k: nat :: k < n && survey.sources[k] == source && KeepsAs(survey, k, e)
  }

  lemma KeptForNext(survey: Survey, n: nat, source: string, e: Entry)
    requires n < |survey.sources|
    ensures KeptFor(survey, n + 1, source, e) <==>
            KeptFor(survey, n, source, e) || (survey.sources[n] == source && KeepsAs(survey, n, e))
  {
  }

  lemma NextBucket(survey: Survey, n: nat, source: string, e: Entry)
    requires n < |survey.sources|
    ensures HeldFor(Gathered(survey, n + 1).buckets, source, e) <==>
            HeldFor(Gathered(survey, n).buckets, source, e) || (survey.sources[n] == source && KeepsAs(survey, n, e))
  {
    var outcome, asked := survey.outcomes[n], survey.sources[n];
    ChosenAreKept(survey, n, e);
    if outcome.Found? {
      var found := EntriesFound(outcome);
      assert found[..|found|] == found;
      var chosen := Chosen(IntakeUpTo(survey, n, |found|));
      AboveIsOrder();
      Sorting.StableSortSorts(chosen, Above);
      HeldForNext(Gathered(survey, n).buckets, SourceBucket(asked, Sorting.StableSort(chosen, Above)), source, e);
    } else {
      assert !IsPlace(survey, Place(n, 0));
    }
  }

  ghost predicate HoldsKept(survey: Survey, n: nat, source: string, e: Entry)
    requires n <= |survey.sources|
  {
    HeldFor(Gathered(survey, n).buckets, source, e) <==> KeptFor(survey, n, source, e)
  }

  lemma HoldsKeptNext(survey: Survey, n: nat, source: string, e: Entry)
    requires n < |survey.sources| && HoldsKept(survey, n, source, e)
    ensures HoldsKept(survey, n + 1, source, e)
  {
    NextBucket(survey, n, source, e);
    KeptForNext(survey, n, source, e);
  }

  lemma {:induction false} BucketsHold(survey: Survey, n: nat, source: string, e: Entry)
    requires n <= |survey.sources|
    ensures HoldsKept(survey, n, source, e)
  {
    if n > 0 {
      BucketsHold(survey, n - 1, source, e);
      HoldsKeptNext(survey, n - 1, source, e);
    }
  }

  /** The buckets of a source hold exactly those of its candidates that were marked and have some relevance, or all that
      were marked if none of them has any. */
  lemma KeptExactly(survey: Survey, source: string, e: Entry)
    ensures HeldFor(Gathered(survey, |survey.sources|).buckets, source, e) <==>
            exists p :: && Kept(survey, p) && survey.sources[p.source] == source && EntryAt(survey, p) == e
  {
    BucketsHold(survey, |survey.sources|, source, e);
    if KeptFor(survey, |survey.sources|, source, e) {
      var k: nat :| k < |survey.sources| && survey.sources[k] == source && KeepsAs(survey, k, e);
      var i: nat :| Kept(survey, Place(k, i)) && EntryAt(survey, Place(k, i)) == e;
    }
    if p :| Kept(survey, p) && survey.sources[p.source] == source && EntryAt(survey, p) == e {
      assert p == Place(p.source, p.index);
      assert KeepsAs(survey, p.source, e);
    }
  }

  /** A limit that is large enough returns exactly the kept candidates. */
  lemma ReturnedExactly(survey: Survey, limit: int, e: Entry)
    requires limit >= |Interleaved(Lists(Gathered(survey, |survey.sources|).buckets))|
    ensures e in Delivered(Gathered(survey, |survey.sources|).buckets, limit) <==>
            exists p :: Kept(survey, p) && EntryAt(survey, p) == e
  {
    var buckets := Gathered(survey, |survey.sources|).buckets;
    InterleavedElements(Lists(buckets));
    if InSomeBucket(Lists(buckets), e) {
      var b :| 0 <= b < |buckets| && e in Lists(buckets)[b];
      KeptExactly(survey, buckets[b].source, e);
      assert HeldFor(buckets, buckets[b].source, e);
    }
    if p :| Kept(survey, p) && EntryAt(survey, p) == e {
      KeptExactly(survey, survey.sources[p.source], e);
      var b :| 0 <= b < |buckets| && buckets[b].source == survey.sources[p.source] && e in buckets[b].entries;
      assert e in Lists(buckets)[b];
    }
  }
}
