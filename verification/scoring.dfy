/** What an item scores, and for which reasons, in its fields and the terms of the query. */
module Scoring {
  import opened Contracts
  import opened Text
  import opened TextLaws
  import FirstSeen
  import Reasons
  import Selections
  import Signals
  import opened Ranking

  // ----- Terms -----

  /** Term number `i` occurs in the text. */
  ghost function OccursIn(text: string, terms: seq<string>): nat -> bool {
    (i: nat) => i < |terms| && Contains(text, terms[i])
  }

  lemma {:induction false} MatchedAt(text: string, terms: seq<string>, n: nat)
    requires n <= |terms|
    ensures Selections.Picks(terms, Selections.Below(n, OccursIn(text, terms)), Matched(text, terms[..n]))
  {
    if n > 0 {
      MatchedAt(text, terms, n - 1);
      assert terms[..n][..n - 1] == terms[..n - 1];
    }
  }

  /** Without signals an item scores ten points for every place of a query term that occurs in its text, three if it is
      from "habr", and its freshness. */
  lemma BaseScoreIs(terms: seq<string>, now: Time, item: FeedItem) returns (at: seq<nat>)
    ensures Selections.Ascending(at)
    ensures forall i: nat :: i in at <==>
              i < |terms| && Contains(ToLower(item.title + " " + item.summary + " " + Join(item.tags, " ")), terms[i])
    ensures ScoreOf(None, terms, now, item) ==
            10.0 * |at| as real +
            (if item.sourceName == "habr" then 3.0 else 0.0) +
            (if item.publishedAt == ZERO_TIME then 0.0 else Freshness(now, item.publishedAt))
  {
    at := Selections.Below(|terms|, OccursIn(SearchText(item), terms));
    Selections.BelowSelects(|terms|, OccursIn(SearchText(item), terms));
    MatchedAt(SearchText(item), terms, |terms|);
    assert terms[..|terms|] == terms;
  }

  /** Freshness is twenty points, divided by one more than the age in days. */
  lemma FreshnessIs(now: Time, publishedAt: Time)
    ensures var age := if Sub(now, publishedAt) < 0 then 0 else Sub(now, publishedAt);
            var day := 24 * NANOS_PER_HOUR;
            Freshness(now, publishedAt) * (day + age) as real == 20.0 * day as real
  {
    var age := if Sub(now, publishedAt) < 0 then 0 else Sub(now, publishedAt);
    var hours := age as real / NANOS_PER_HOUR as real;
    QuotientGrows(Sub(now, publishedAt), 0);
    QuotientGrows(0, Sub(now, publishedAt));
    assert Freshness(now, publishedAt) == 20.0 / (1.0 + hours / 24.0);
    QuotientTimes(20.0, 1.0 + hours / 24.0);
    HoursAndDays(age);
    Scaled(Freshness(now, publishedAt), 1.0 + hours / 24.0, (24 * NANOS_PER_HOUR) as real);
  }

  lemma QuotientTimes(a: real, b: real)
    requires b > 0.0
    ensures a / b * b == a
  {
  }

  lemma HoursAndDays(age: nat)
    ensures (1.0 + age as real / NANOS_PER_HOUR as real / 24.0) * (24 * NANOS_PER_HOUR) as real ==
            (24 * NANOS_PER_HOUR + age) as real
  {
  }

  lemma Scaled(f: real, b: real, day: real)
    requires f * b == 20.0
    ensures f * (b * day) == 20.0 * day
  {
  }

  /** With signals an item scores what its base score becomes with the totals of its tags and its source. */
  lemma SignalledScore(history: seq<Signals.Event>, terms: seq<string>, now: Time, item: FeedItem)
    ensures var base := ScoreOf(None, terms, now, item);
            var tags, source := Signals.NormalizedTags(item.tags), NormalizedSource(item.sourceName);
            var sum := base + Signals.TagTotals(history, tags) +
                       if source == "" then 0.0 else Signals.SourceTotal(history, source);
            ScoreOf(Some(Signals.Run(history)), terms, now, item) ==
            if tags == [] && source == "" then base else if sum > 0.0 then sum else 0.0
  {
    Signals.ScoreIsTotals(history, ScoreOf(None, terms, now, item), item);
  }

  lemma QueryTermHasNoSpace(queryText: string, term: string)
    requires term in QueryTerms(queryText)
    ensures term != "" && HasNo(term, IsSpace)
  {
    CollectedHaveNone(ToLower(queryText), "", IsSpace);
  }

  /** A query term never matches across two fields: it occurs in the text of an item if and only if it occurs, in lower
      case, in its title, its summary or one of its tags. */
  lemma TermIsInOnePart(item: FeedItem, queryText: string, term: string)
    requires IsSpace(LowerRune(' ')) && term in QueryTerms(queryText)
    ensures Contains(SearchText(item), term) <==>
            || Contains(ToLower(item.title), term) || Contains(ToLower(item.summary), term)
            || exists tag :: tag in item.tags && Contains(ToLower(tag), term)
  {
    var tags := Join(item.tags, " ");
    QueryTermHasNoSpace(queryText, term);
    JoinThree(item.title, item.summary, tags);
    InJoinedParts([item.title, item.summary, tags], term);
    InJoinedParts(item.tags, term);
    ThreeParts(item.title, item.summary, tags, term);
  }

  lemma JoinThree(a: string, b: string, c: string)
    ensures Join([a, b, c], " ") == a + " " + b + " " + c
  {
    JoinSplit([a, b], [c], " ");
    JoinSplit([a], [b], " ");
    assert [a, b] + [c] == [a, b, c] && [a] + [b] == [a, b];
  }

  lemma ThreeParts(a: string, b: string, c: string, term: string)
    ensures InSomePart([a, b, c], term) <==>
            Contains(ToLower(a), term) || Contains(ToLower(b), term) || Contains(ToLower(c), term)
  {
    assert a in [a, b, c] && b in [a, b, c] && c in [a, b, c];
  }

  // ----- Reasons -----

  lemma ReasonsAreTrimmed(memory: Option<Signals.Memory>, queryText: string, now: Time, item: FeedItem, i: nat)
    requires i < |RawReasons(memory, QueryTerms(queryText), now, item)|
    ensures var reason := RawReasons(memory, QueryTerms(queryText), now, item)[i];
            reason != "" && TrimSpace(reason) == reason
  {
    var terms := QueryTerms(queryText);
    var reason := RawReasons(memory, terms, now, item)[i];
    var matched := Matched(SearchText(item), terms);
    if i < |matched| {
      MatchedElements(SearchText(item), terms, matched[i]);
      QueryTermHasNoSpace(queryText, matched[i]);
      assert reason == "query_match:" + matched[i];
    }
    TrimFixed(reason);
  }

  lemma {:induction false} MatchedElements(text: string, terms: seq<string>, term: string)
    ensures term in Matched(text, terms) <==> term in terms && Contains(text, term)
  {
    if |terms| > 0 {
      assert terms == terms[..|terms| - 1] + [terms[|terms| - 1]];
      MatchedElements(text, terms[..|terms| - 1], term);
    }
  }

  /** A reason is given for every query term that occurs in the text, for the source "habr", for having a date, and for
      signals that change the score, and for nothing else. */
  lemma ReasonsAre(memory: Option<Signals.Memory>, queryText: string, now: Time, item: FeedItem, reason: string)
    ensures var terms := QueryTerms(queryText);
            reason in Scored(memory, terms, now, item).scoreReasons <==>
            || (exists term :: term in terms && Contains(SearchText(item), term) && reason == "query_match:" + term)
            || (reason == "source_boost:habr" && item.sourceName == "habr")
            || (reason == "freshness" && item.publishedAt != ZERO_TIME)
            || (reason == "reaction_signals" &&
                ScoreOf(memory, terms, now, item) != ScoreOf(None, terms, now, item))
  {
    var terms := QueryTerms(queryText);
    var raw := RawReasons(memory, terms, now, item);
    Reasons.CompactedReasons(raw);
    forall i | 0 <= i < |raw| ensures raw[i] != "" && TrimSpace(raw[i]) == raw[i] {
      ReasonsAreTrimmed(memory, queryText, now, item, i);
    }
    assert Reasons.IsTrimOf(raw, reason) <==> reason in raw;
    RawReasonsAre(memory, terms, now, item, reason);
  }

  lemma MatchReasonsAre(text: string, terms: seq<string>, reason: string)
    ensures reason in MatchReasons(Matched(text, terms)) <==>
            exists term :: term in terms && Contains(text, term) && reason == "query_match:" + term
  {
    var matched := Matched(text, terms);
    var reasons := MatchReasons(matched);
    if reason in reasons {
      var i :| 0 <= i < |reasons| && reasons[i] == reason;
      MatchedElements(text, terms, matched[i]);
    }
    if term :| term in terms && Contains(text, term) && reason == "query_match:" + term {
      MatchedElements(text, terms, term);
      var i :| 0 <= i < |matched| && matched[i] == term;
      assert reasons[i] == reason;
    }
  }

  lemma InOneOf(a: seq<string>, b: seq<string>, c: seq<string>, d: seq<string>, x: string)
    ensures x in a + b + c + d <==> x in a || x in b || x in c || x in d
  {
  }

  lemma RawReasonsAre(memory: Option<Signals.Memory>, terms: seq<string>, now: Time, item: FeedItem, reason: string)
    ensures reason in RawReasons(memory, terms, now, item) <==>
            || (exists term :: term in terms && Contains(SearchText(item), term) && reason == "query_match:" + term)
            || (reason == "source_boost:habr" && item.sourceName == "habr")
            || (reason == "freshness" && item.publishedAt != ZERO_TIME)
            || (reason == "reaction_signals" &&
                ScoreOf(memory, terms, now, item) != ScoreOf(None, terms, now, item))
  {
    MatchReasonsAre(SearchText(item), terms, reason);
    InOneOf(MatchReasons(Matched(SearchText(item), terms)),
            if item.sourceName == HABR then ["source_boost:habr"] else [],
            if item.publishedAt == ZERO_TIME then [] else ["freshness"],
            if ScoreOf(memory, terms, now, item) != BaseScore(terms, now, item) then ["reaction_signals"] else [],
            reason);
  }

  /** A promoted item has "source_diversity" after its other reasons, which stay as they are. */
  lemma PromotedReasons(memory: Option<Signals.Memory>, queryText: string, now: Time, item: FeedItem)
    ensures var scored := Scored(memory, QueryTerms(queryText), now, item);
            WithReason(scored) == scored.(scoreReasons := scored.scoreReasons + ["source_diversity"])
  {
    var terms := QueryTerms(queryText);
    var scored := Scored(memory, terms, now, item);
    var reasons := scored.scoreReasons;
    Reasons.CompactedReasons(RawReasons(memory, terms, now, item));
    ScoringReasons(memory, terms, now, item);
    TrimFixed("source_diversity");
    forall i | 0 <= i < |reasons| ensures TrimSpace(reasons[i]) == reasons[i] && reasons[i] != "" {
      assert reasons[i] in reasons;
      var k :| 0 <= k < |RawReasons(memory, terms, now, item)| &&
               TrimSpace(RawReasons(memory, terms, now, item)[k]) == reasons[i];
      TrimIdempotent(RawReasons(memory, terms, now, item)[k]);
    }
    var tagged := reasons + ["source_diversity"];
    assert Trimmed(tagged) == tagged;
    forall i, j | 0 <= i < j < |tagged| ensures tagged[i] != tagged[j] {
      assert i < |reasons| && tagged[i] in reasons;
    }
    assert forall i :: 0 <= i < |tagged| ==> tagged[i] != "";
    FirstSeen.DistinctFixed(tagged);
  }
}
