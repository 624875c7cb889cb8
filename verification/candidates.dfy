/** How the parser service reads a candidate: normalization, deduplication keys, relevance. */
module Candidates {
  import opened Contracts
  import opened Text

  /** URL canonicalization, the SHA-1 identifier of a URL and Unicode character classes are left open. */
  const NormalizeURL: string -> string
  const StableCandidateID: string -> string
  const IsLetterOrDigit: char -> bool

  datatype SearchQuery = SearchQuery(
    text: string, sources: seq<string>, limit: int, language: string, fromDate: Option<Time>, toDate: Option<Time>)

  function Normalize(query: SearchQuery): (q: SearchQuery)
    ensures 1 <= q.limit <= 100
    ensures 1 <= query.limit <= 100 ==> q.limit == query.limit
    ensures query.limit <= 0 ==> q.limit == 20
    ensures query.limit > 100 ==> q.limit == 100
    ensures q.text == TrimSpace(query.text)
    ensures q.sources == query.sources && q.fromDate == query.fromDate && q.toDate == query.toDate
    ensures q.language == if TrimSpace(query.language) == "" then "ru" else query.language
  {
    query.(text := TrimSpace(query.text),
           limit := if query.limit <= 0 then 20 else if query.limit > 100 then 100 else query.limit,
           language := if IsBlank(query.language) then "ru" else query.language)
  }

  // ----- Candidates -----

  /** Trimmed tags, each once up to letter case; `seen` are the lower-cased ones kept before. */
  function CleanTags(tags: seq<string>, seen: set<string>): seq<string> {
    if |tags| == 0 then [] else
      var tag := TrimSpace(tags[0]);
      if tag == "" || ToLower(tag) in seen then CleanTags(tags[1..], seen)
      else [tag] + CleanTags(tags[1..], seen + {ToLower(tag)})
  }

  function OrElse(s: string, default: string): string {
    if s == "" then default else s
  }

  function NormalizedCandidate(c: Candidate, source: string, query: SearchQuery): Candidate {
    var url := NormalizeURL(c.url);
    Candidate(
      OrElse(TrimSpace(c.sourceName), TrimSpace(source)),
      OrElse(TrimSpace(c.externalID), StableCandidateID(url)),
      url,
      TrimSpace(c.title),
      TrimSpace(c.summary),
      TrimSpace(c.content),
      TrimSpace(c.author),
      CleanTags(c.tags, {}),
      OrElse(TrimSpace(c.language), query.language),
      c.publishedAt)
  }

  function Terms(text: string): seq<string> {
    FieldsBy(ToLower(text), c => !IsLetterOrDigit(c))
  }

  function TermsOfLength(terms: seq<string>, length: nat): seq<string> {
    if |terms| == 0 then [] else
      var front, term := TermsOfLength(terms[..|terms| - 1], length), TrimSpace(terms[|terms| - 1]);
      if |term| < length then front else front + [term]
  }

  function TitleKey(title: string): string {
    var terms := TermsOfLength(Terms(title), 3);
    if |terms| < 4 then "" else Join(terms, " ")
  }

  /** The keys by which a candidate is recognized again: its URL, its identifier within the source, its title. */
  function DedupKeys(c: Candidate): seq<string> {
    (if c.url != "" then ["url:" + ToLower(c.url)] else []) +
    (if c.sourceName != "" && c.externalID != "" then ["source:" + IdentifierKey(c)] else []) +
    (if TitleKey(c.title) != "" then ["title:" + TitleKey(c.title)] else [])
  }

  predicate SameURL(a: Candidate, b: Candidate) {
    a.url != "" && b.url != "" && ToLower(a.url) == ToLower(b.url)
  }

  function IdentifierKey(c: Candidate): string {
    ToLower(c.sourceName) + ":" + ToLower(c.externalID)
  }

  predicate SameIdentifier(a: Candidate, b: Candidate) {
    && a.sourceName != "" && a.externalID != "" && b.sourceName != "" && b.externalID != ""
    && IdentifierKey(a) == IdentifierKey(b)
  }

  predicate SameTitle(a: Candidate, b: Candidate) {
    TitleKey(a.title) != "" && TitleKey(a.title) == TitleKey(b.title)
  }

  lemma SamePrefix(prefix: string, x: string, y: string)
    ensures prefix + x == prefix + y <==> x == y
  {
    assert (prefix + x)[|prefix|..] == x && (prefix + y)[|prefix|..] == y;
  }

  lemma KindsDiffer(x: string, y: string)
    ensures "url:" + x != "source:" + y && "url:" + x != "title:" + y && "source:" + x != "title:" + y
  {
    assert ("url:" + x)[0] == 'u' && ("source:" + x)[0] == ("source:" + y)[0] == 's' && ("title:" + y)[0] == 't';
  }

  ghost predicate HaveCommonKey(a: Candidate, b: Candidate) {
    exists key :: key in DedupKeys(a) && key in DedupKeys(b)
  }

  lemma KeyForms(c: Candidate, key: string)
    ensures key in DedupKeys(c) <==>
            || (c.url != "" && key == "url:" + ToLower(c.url))
            || (c.sourceName != "" && c.externalID != "" && key == "source:" + IdentifierKey(c))
            || (TitleKey(c.title) != "" && key == "title:" + TitleKey(c.title))
  {
  }

  lemma KindsMatch(a: Candidate, b: Candidate, key: string)
    requires key in DedupKeys(a) && key in DedupKeys(b)
    ensures SameURL(a, b) || SameIdentifier(a, b) || SameTitle(a, b)
  {
    KeyForms(a, key);
    KeyForms(b, key);
    KindsDiffer(ToLower(a.url), IdentifierKey(b));
    KindsDiffer(ToLower(a.url), TitleKey(b.title));
    KindsDiffer(IdentifierKey(a), TitleKey(b.title));
    KindsDiffer(ToLower(b.url), IdentifierKey(a));
    KindsDiffer(ToLower(b.url), TitleKey(a.title));
    KindsDiffer(IdentifierKey(b), TitleKey(a.title));
    SamePrefix("url:", ToLower(a.url), ToLower(b.url));
    SamePrefix("source:", IdentifierKey(a), IdentifierKey(b));
    SamePrefix("title:", TitleKey(a.title), TitleKey(b.title));
  }

  lemma MatchingKinds(a: Candidate, b: Candidate) returns (key: string)
    requires SameURL(a, b) || SameIdentifier(a, b) || SameTitle(a, b)
    ensures key in DedupKeys(a) && key in DedupKeys(b)
  {
    key := if SameURL(a, b) then "url:" + ToLower(a.url)
    else if SameIdentifier(a, b) then "source:" + IdentifierKey(a)
    else "title:" + TitleKey(a.title);
    KeyForms(a, key);
    KeyForms(b, key);
  }

  /** Keys of different kinds never coincide: two candidates have a key in common exactly if they have the same URL,
      the same identifier within the source, or the same title, up to letter case. */
  lemma CommonKeys(a: Candidate, b: Candidate)
    ensures HaveCommonKey(a, b) <==> SameURL(a, b) || SameIdentifier(a, b) || SameTitle(a, b)
  {
    if HaveCommonKey(a, b) {
      var key :| key in DedupKeys(a) && key in DedupKeys(b);
      KindsMatch(a, b, key);
    }
    if SameURL(a, b) || SameIdentifier(a, b) || SameTitle(a, b) {
      var key := MatchingKinds(a, b);
    }
  }

  lemma FirstColon(x: string, y: string, s: string, t: string)
    requires ':' !in x && ':' !in s && x + ":" + y == s + ":" + t
    ensures x == s && y == t
  {
    var whole := x + ":" + y;
    assert whole[|x|] == ':' && (s + ":" + t)[|s|] == ':';
    assert forall i :: 0 <= i < |x| ==> whole[i] == x[i] && x[i] in x;
    assert forall i :: 0 <= i < |s| ==> (s + ":" + t)[i] == s[i] && s[i] in s;
    assert |x| == |s|;
    assert whole[..|x|] == x && whole[|x| + 1..] == y && (s + ":" + t)[..|s|] == s && (s + ":" + t)[|s| + 1..] == t;
  }

  /** Two candidates have the same identifier if and only if neither lacks its source or identifier, and both are the
      same up to letter case, as long as no source name contains a colon. */
  lemma SameIdentifierExactly(a: Candidate, b: Candidate)
    requires ':' !in ToLower(a.sourceName) && ':' !in ToLower(b.sourceName)
    ensures SameIdentifier(a, b) <==>
            && a.sourceName != "" && a.externalID != "" && b.sourceName != "" && b.externalID != ""
            && ToLower(a.sourceName) == ToLower(b.sourceName) && ToLower(a.externalID) == ToLower(b.externalID)
  {
    if SameIdentifier(a, b) {
      FirstColon(ToLower(a.sourceName), ToLower(a.externalID), ToLower(b.sourceName), ToLower(b.externalID));
    }
  }

  /** With a colon in a source name, candidates of different sources may count as one: "x:y" has the identifier "z" just
      as "x" has "y:z". */
  lemma IdentifiersMayCollide(a: Candidate, b: Candidate, x: string, y: string, z: string)
    requires x != "" && z != "" && LowerRune(':') == ':'
    requires a.sourceName == x + ":" + y && a.externalID == z && b.sourceName == x && b.externalID == y + ":" + z
    ensures SameIdentifier(a, b) && ToLower(a.sourceName) != ToLower(b.sourceName)
  {
    assert ToLower(a.sourceName) == ToLower(x) + ":" + ToLower(y);
    assert ToLower(b.externalID) == ToLower(y) + ":" + ToLower(z);
  }

  function QueryTerms(text: string): seq<string> {
    FirstOccurrences(TermsOfLength(Terms(text), 2))
  }

  function FirstOccurrences(xs: seq<string>): seq<string> {
    if |xs| == 0 then [] else
      var front, last := FirstOccurrences(xs[..|xs| - 1]), xs[|xs| - 1];
      if last in front then front else front + [last]
  }

  function TermScore(c: Candidate, term: string): nat {
    (if Contains(ToLower(c.title), term) then 4 else 0) +
    (if Contains(ToLower(Join(c.tags, " ")), term) then 3 else 0) +
    (if Contains(ToLower(c.summary), term) then 2 else 0) +
    (if Contains(ToLower(c.content), term) then 1 else 0) +
    (if Contains(ToLower(c.url), term) then 1 else 0)
  }

  function TermScores(c: Candidate, terms: seq<string>): nat {
    if |terms| == 0 then 0 else TermScores(c, terms[..|terms| - 1]) + TermScore(c, terms[|terms| - 1])
  }

  function RelevanceScore(c: Candidate, queryText: string): nat {
    var terms := QueryTerms(queryText);
    if |terms| == 0 then 1 else TermScores(c, terms)
  }

  /** The term occurs in some text of the candidate. */
  predicate Mentions(c: Candidate, term: string) {
    || Contains(ToLower(c.title), term) || Contains(ToLower(Join(c.tags, " ")), term)
    || Contains(ToLower(c.summary), term)
    || Contains(ToLower(c.content), term) || Contains(ToLower(c.url), term)
  }

  lemma {:induction false} TermScoresPositive(c: Candidate, terms: seq<string>)
    ensures TermScores(c, terms) > 0 <==> exists term :: term in terms && Mentions(c, term)
  {
    if |terms| > 0 {
      var front, last := terms[..|terms| - 1], terms[|terms| - 1];
      TermScoresPositive(c, front);
      assert terms == front + [last];
      assert TermScore(c, last) > 0 <==> Mentions(c, last);
      if term :| term in front && Mentions(c, term) {
        assert term in terms;
      }
    }
  }

  /** A candidate has no relevance exactly if the query has terms and the candidate mentions none of them. */
  lemma RelevanceIsMention(c: Candidate, queryText: string)
    ensures RelevanceScore(c, queryText) <= 0 <==>
            QueryTerms(queryText) != [] && forall term :: term in QueryTerms(queryText) ==> !Mentions(c, term)
  {
    TermScoresPositive(c, QueryTerms(queryText));
  }

  predicate WithinDateRange(c: Candidate, query: SearchQuery) {
    c.publishedAt == ZERO_TIME ||
    ((query.fromDate.Some? ==> c.publishedAt >= query.fromDate.value) &&
     (query.toDate.Some? ==> c.publishedAt <= query.toDate.value))
  }

  /** A candidate as the pipeline sees it: normalized, with its keys, whether it has all it needs, and its relevance. */
  datatype Entry = Entry(candidate: Candidate, keys: seq<string>, usable: bool, score: nat)

  predicate IsComplete(c: Candidate, query: SearchQuery) {
    c.url != "" && c.title != "" && WithinDateRange(c, query)
  }

  function EntryOf(found: Candidate, source: string, query: SearchQuery): Entry {
    var c := NormalizedCandidate(found, source, query);
    Entry(c, DedupKeys(c), IsComplete(c, query), RelevanceScore(c, query.text))
  }

  function EntriesOf(found: seq<Candidate>, source: string, query: SearchQuery): (r: seq<Entry>)
    ensures |r| == |found|
  {
    seq(|found|, i requires 0 <= i < |found| => EntryOf(found[i], source, query))
  }

  /** The keys, the usability and the relevance of an entry are those of its candidate, and a usable one has at least
      the key of its URL. */
  ghost predicate Genuine(e: Entry, query: SearchQuery) {
    && e.keys == DedupKeys(e.candidate)
    && e.usable == IsComplete(e.candidate, query)
    && e.score == RelevanceScore(e.candidate, query.text)
    && (e.usable ==> |e.keys| > 0)
  }

  lemma EntriesAreGenuine(found: seq<Candidate>, source: string, query: SearchQuery)
    ensures forall e :: e in EntriesOf(found, source, query) ==> Genuine(e, query)
  {
    forall e | e in EntriesOf(found, source, query) ensures Genuine(e, query) {
      var i :| 0 <= i < |found| && EntryOf(found[i], source, query) == e;
    }
  }
}
