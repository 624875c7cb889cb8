/** An article that contains the text of a query matches it, and so two such articles of one time are rivals. */
module TermMatching {
  import opened Contracts
  import opened Text
  import opened TextLaws
  import opened ArticleStore
  import SearchOrder

  lemma TrimmedOccurs(s: string, cutset: string)
    ensures Occurs(s, TrimSet(s, cutset))
  {
    var from, to := TrimSetDrops(s, cutset);
    assert OccursAt(s, TrimSet(s, cutset), from);
  }

  lemma {:induction false} KeptTermsOccur(s: string, fields: seq<string>)
    requires forall field <- fields :: Occurs(s, field)
    ensures forall term <- KeptTerms(fields) :: Occurs(s, term)
  {
    if |fields| > 0 {
      var last := fields[|fields| - 1];
      KeptTermsOccur(s, fields[..|fields| - 1]);
      TrimmedOccurs(last, "\"'.,:;!?()[]{}<>");
      OccursThrough(s, last, TrimSet(last, "\"'.,:;!?()[]{}<>"));
    }
  }

  /** The search terms of a text occur in its lower-cased form. */
  lemma SearchTermsOccur(text: string)
    ensures forall term <- SearchTerms(text) :: Occurs(ToLower(text), term)
  {
    FieldsOccur(ToLower(text), "", IsSpace);
    assert "" + ToLower(text) == ToLower(text);
    KeptTermsOccur(ToLower(text), Fields(ToLower(text)));
  }

  lemma ContentIsSearched(article: Article)
    ensures Occurs(SearchedText(article), ToLower(article.content))
  {
    var parts :=
      [article.title, article.summary, article.content, article.url, article.author, Join(article.tags, " ")];
    PartOccurs(parts, " ", 2);
    LowerOccurs(Join(parts, " "), article.content);
  }

  lemma TermHasNoSpace(text: string, term: string)
    requires term in SearchTerms(text)
    ensures term != "" && HasNo(term, IsSpace)
  {
    CollectedHaveNone(ToLower(text), "", IsSpace);
    KeptTermHasNoSpace(Fields(ToLower(text)), term);
  }

  lemma {:induction false} KeptTermHasNoSpace(fields: seq<string>, term: string)
    requires term in KeptTerms(fields) && forall field <- fields :: HasNo(field, IsSpace)
    ensures term != "" && HasNo(term, IsSpace)
  {
    var front, last := fields[..|fields| - 1], fields[|fields| - 1];
    if term in KeptTerms(front) {
      KeptTermHasNoSpace(front, term);
    } else {
      var from, to := TrimSetDrops(last, "\"'.,:;!?()[]{}<>");
      assert last in fields;
    }
  }

  lemma SearchedParts(article: Article, term: string)
    requires IsSpace(LowerRune(' ')) && term != "" && HasNo(term, IsSpace)
    ensures Contains(SearchedText(article), term) <==>
            InSomePart([article.title, article.summary, article.content, article.url, article.author] +
                       article.tags, term)
  {
    var texts := [article.title, article.summary, article.content, article.url, article.author];
    var tags := Join(article.tags, " ");
    assert [article.title, article.summary, article.content, article.url, article.author, tags] == texts + [tags];
    InJoinedParts(texts + [tags], term);
    InJoinedParts(article.tags, term);
    if InSomePart(texts + article.tags, term) {
      var part :| part in texts + article.tags && Contains(ToLower(part), term);
      assert part in texts ==> part in texts + [tags];
      assert part in article.tags ==> InSomePart(article.tags, term) && tags in texts + [tags];
    }
    if InSomePart(texts + [tags], term) {
      var part :| part in texts + [tags] && Contains(ToLower(part), term);
      assert part in texts ==> part in texts + article.tags;
      assert part !in texts ==> part == tags;
      if part !in texts {
        var tag :| tag in article.tags && Contains(ToLower(tag), term);
        assert tag in texts + article.tags;
      }
    }
  }

  /** A search term never matches across two fields: it occurs in the text of an article if and only if it occurs, in
      lower case, in one of its fields or one of its tags. */
  lemma TermIsInOnePart(article: Article, text: string, term: string)
    requires IsSpace(LowerRune(' ')) && term in SearchTerms(text)
    ensures Contains(SearchedText(article), term) <==>
            || Contains(ToLower(article.title), term) || Contains(ToLower(article.summary), term)
            || Contains(ToLower(article.content), term) || Contains(ToLower(article.url), term)
            || Contains(ToLower(article.author), term)
            || exists tag :: tag in article.tags && Contains(ToLower(tag), term)
  {
    var texts := [article.title, article.summary, article.content, article.url, article.author];
    TermHasNoSpace(text, term);
    SearchedParts(article, term);
    forall part ensures part in texts + article.tags <==> part in texts || part in article.tags {
    }
    assert forall i :: 0 <= i < |texts| ==> texts[i] in texts + article.tags;
  }

  /** The query asks for a text, and for nothing else. */
  predicate AsksForText(query: SearchQuery) {
    SearchTerms(query.text) != [] && query.sources == [] && query.tags == [] && query.fromDate == query.toDate == None
  }

  /** An article whose content contains the text of the query matches it. */
  lemma ContainingMatches(query: SearchQuery, article: Article)
    requires AsksForText(query) && Contains(article.content, query.text)
    ensures Matches(query, article)
  {
    OccursIsContains(article.content, query.text);
    LowerOccurs(article.content, query.text);
    ContentIsSearched(article);
    OccursThrough(SearchedText(article), ToLower(article.content), ToLower(query.text));
    SearchTermsOccur(query.text);
    forall term <- SearchTerms(query.text) ensures Contains(SearchedText(article), term) {
      OccursThrough(SearchedText(article), ToLower(query.text), term);
      OccursIsContains(SearchedText(article), term);
    }
  }

  /** Two articles of one source and time that contain the text of the query. */
  predicate Alike(query: SearchQuery, a: Article, b: Article) {
    && Contains(a.content, query.text) && Contains(b.content, query.text)
    && a.id != b.id && a.url != b.url && a.sourceName == b.sourceName && a.publishedAt == b.publishedAt
  }

  /** Once they are saved, they are rivals for every query that asks for a text. */
  lemma RivalsOccur(query: SearchQuery, a: Article, b: Article)
    requires AsksForText(query) && Alike(query, a, b)
    ensures var store := Saved(Saved(EMPTY, a), b);
            Consistent(store) && store.byID.Keys == {a.id, b.id} && SearchOrder.Rivals(query, store, a, b)
  {
    SavedIsConsistent(EMPTY, a);
    SavedIsConsistent(Saved(EMPTY, a), b);
    ContainingMatches(query, a);
    ContainingMatches(query, b);
  }
}
