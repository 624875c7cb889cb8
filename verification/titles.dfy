/** When two candidates count as having the same title. */
module Titles {
  import Contracts
  import opened Text
  import opened TextLaws
  import opened Candidates
  import Selections

  /** The words of a title that count: letters and digits, in lower case, at least three characters. */
  function LongWords(title: string): seq<string> {
    TermsOfLength(Terms(title), 3)
  }

  ghost function IsLong(words: seq<string>): nat -> bool {
    (i: nat) => i < |words| && |TrimSpace(words[i])| >= 3
  }

  lemma {:induction false} LongTermsAt(words: seq<string>, n: nat)
    requires n <= |words|
    ensures Selections.Picks(Trimmed(words), Selections.Below(n, IsLong(words)), TermsOfLength(words[..n], 3))
  {
    if n > 0 {
      LongTermsAt(words, n - 1);
      assert words[..n][..n - 1] == words[..n - 1];
    }
  }

  /** They come in the order of the title, as often as they occur. */
  lemma LongWordsAre(title: string) returns (at: seq<nat>)
    ensures Selections.Ascending(at)
    ensures var words := FieldsBy(ToLower(title), c => !IsLetterOrDigit(c));
            && (forall i: nat :: i in at <==> i < |words| && |TrimSpace(words[i])| >= 3)
            && Selections.Picks(Trimmed(words), at, LongWords(title))
  {
    var words := Terms(title);
    at := Selections.Below(|words|, IsLong(words));
    Selections.BelowSelects(|words|, IsLong(words));
    LongTermsAt(words, |words|);
    assert words[..|words|] == words;
  }

  predicate IsBlankChar(c: char) {
    c == ' '
  }

  ghost predicate AreWords(words: seq<string>) {
    forall word <- words :: word != "" && HasNo(word, IsBlankChar)
  }

  /** Words joined with blanks can be told apart again. */
  lemma {:induction false} JoinedWordsSplit(words: seq<string>)
    requires AreWords(words)
    ensures FieldsBy(Join(words, " "), IsBlankChar) == words
  {
    if words == [] {
      FieldsSplit("", ' ', "", IsBlankChar);
    } else {
      var first, rest := words[0], words[1..];
      assert first in words && words == [first] + rest;
      assert forall word <- rest :: word in words;
      JoinedWordsSplit(rest);
      FieldsSplit(first, ' ', Join(rest, " "), IsBlankChar);
      assert FieldsBy(first, IsBlankChar) == [first];
      if rest != [] {
        assert Join(words, " ") == first + [' '] + Join(rest, " ");
      }
    }
  }

  lemma {:induction false} TrimmedFieldsAreWords(fields: seq<string>)
    requires forall field <- fields :: HasNo(field, IsBlankChar)
    ensures AreWords(TermsOfLength(fields, 3))
  {
    if |fields| > 0 {
      TrimmedFieldsAreWords(fields[..|fields| - 1]);
      var last := fields[|fields| - 1];
      var from, to := TrimSpaceDrops(last);
      assert last in fields;
    }
  }

  lemma LongWordsAreWords(title: string)
    requires !IsLetterOrDigit(' ')
    ensures AreWords(LongWords(title))
  {
    var isSeparator := c => !IsLetterOrDigit(c);
    CollectedHaveNone(ToLower(title), "", isSeparator);
    forall field <- FieldsBy(ToLower(title), isSeparator) ensures HasNo(field, IsBlankChar) {
      assert HasNo(field, isSeparator);
    }
    TrimmedFieldsAreWords(FieldsBy(ToLower(title), isSeparator));
    assert Terms(title) == FieldsBy(ToLower(title), isSeparator);
  }

  /** Two candidates have the same title if and only if the same words of at least three characters occur in them, in
      the same order, and there are at least four. */
  lemma SameTitleExactly(a: Contracts.Candidate, b: Contracts.Candidate)
    requires !IsLetterOrDigit(' ')
    ensures SameTitle(a, b) <==> |LongWords(a.title)| >= 4 && LongWords(a.title) == LongWords(b.title)
  {
    LongWordsAreWords(a.title);
    LongWordsAreWords(b.title);
    JoinedWordsSplit(LongWords(a.title));
    JoinedWordsSplit(LongWords(b.title));
    assert Join(LongWords(a.title), " ") == "" ==> FieldsBy("", IsBlankChar) == LongWords(a.title);
    FieldsSplit("", ' ', "", IsBlankChar);
  }
}
