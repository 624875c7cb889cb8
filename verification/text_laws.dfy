/** Laws of the string functions that determine what they compute. */
module TextLaws {
  import opened Text

  /** No character of the string is a separator. */
  predicate HasNo(s: string, isSeparator: char -> bool) {
    forall i :: 0 <= i < |s| ==> !isSeparator(s[i])
  }

  lemma {:induction false} CollectSplit(s: string, c: char, t: string, current: string, isSeparator: char -> bool)
    requires isSeparator(c)
    ensures CollectFields(s + [c] + t, current, isSeparator) ==
            CollectFields(s, current, isSeparator) + CollectFields(t, "", isSeparator)
  {
    var whole := s + [c] + t;
    if s == "" {
      assert whole[0] == c && whole[1..] == t;
    } else {
      assert whole[0] == s[0] && whole[1..] == s[1..] + [c] + t;
      if isSeparator(s[0]) {
        CollectSplit(s[1..], c, t, "", isSeparator);
      } else {
        CollectSplit(s[1..], c, t, current + [s[0]], isSeparator);
      }
    }
  }

  lemma {:induction false} CollectWord(s: string, current: string, isSeparator: char -> bool)
    requires HasNo(s, isSeparator)
    ensures CollectFields(s, current, isSeparator) == if current + s == "" then [] else [current + s]
  {
    if s != "" {
      CollectWord(s[1..], current + [s[0]], isSeparator);
      assert current + [s[0]] + s[1..] == current + s;
    } else {
      assert current + s == current;
    }
  }

  /** A separator splits a text, and what holds none is one field, or none if it is empty. These two laws determine the
      fields of every text. */
  lemma FieldsSplit(s: string, c: char, t: string, isSeparator: char -> bool)
    ensures isSeparator(c) ==>
              FieldsBy(s + [c] + t, isSeparator) == FieldsBy(s, isSeparator) + FieldsBy(t, isSeparator)
    ensures HasNo(s, isSeparator) ==> FieldsBy(s, isSeparator) == if s == "" then [] else [s]
  {
    if isSeparator(c) {
      CollectSplit(s, c, t, "", isSeparator);
    }
    if HasNo(s, isSeparator) {
      CollectWord(s, "", isSeparator);
      assert "" + s == s;
    }
  }

  lemma {:induction false} CollectedHaveNone(s: string, current: string, isSeparator: char -> bool)
    requires HasNo(current, isSeparator)
    ensures forall field <- CollectFields(s, current, isSeparator) :: field != "" && HasNo(field, isSeparator)
  {
    if s != "" && isSeparator(s[0]) {
      CollectedHaveNone(s[1..], "", isSeparator);
    } else if s != "" {
      CollectedHaveNone(s[1..], current + [s[0]], isSeparator);
    }
  }

  /** Trimming a set of characters drops them at both ends, all of them, and nothing else. */
  lemma {:induction false} TrimSetDrops(s: string, cutset: string) returns (from: nat, to: nat)
    ensures from <= to <= |s| && TrimSet(s, cutset) == s[from..to]
    ensures from == to || (s[from] !in cutset && s[to - 1] !in cutset)
    ensures forall i :: 0 <= i < from || to <= i < |s| ==> s[i] in cutset
  {
    if s != "" && s[0] in cutset {
      from, to := TrimSetDrops(s[1..], cutset);
      TrimFirst(s, cutset, from, to);
      from, to := from + 1, to + 1;
    } else if s != "" && s[|s| - 1] in cutset {
      from, to := TrimSetDrops(s[..|s| - 1], cutset);
      assert s[..|s| - 1][from..to] == s[from..to];
    } else {
      from, to := 0, |s|;
      assert s[0..|s|] == s;
    }
  }

  lemma TrimFirst(s: string, cutset: string, from: nat, to: nat)
    requires s != "" && s[0] in cutset && from <= to <= |s| - 1
    requires forall i :: 0 <= i < from || to <= i < |s| - 1 ==> s[1..][i] in cutset
    ensures s[1..][from..to] == s[from + 1..to + 1]
    ensures forall i :: 0 <= i < from + 1 || to + 1 <= i < |s| ==> s[i] in cutset
  {
    forall i | 0 <= i < from + 1 || to + 1 <= i < |s| ensures s[i] in cutset {
      if i > 0 {
        assert s[i] == s[1..][i - 1];
      }
    }
  }

  /** Two lists of strings are joined with a separator between them. */
  lemma {:induction false} JoinSplit(parts: seq<string>, more: seq<string>, separator: string)
    requires parts != [] && more != []
    ensures Join(parts + more, separator) == Join(parts, separator) + separator + Join(more, separator)
  {
    assert (parts + more)[1..] == parts[1..] + more;
    if |parts| == 1 {
      assert parts[1..] + more == more;
    } else {
      JoinSplit(parts[1..], more, separator);
    }
  }

  // ----- What occurs in a text -----

  ghost predicate Occurs(s: string, part: string) {
    exists at: nat :: OccursAt(s, part, at)
  }

  lemma OccursIsContains(s: string, part: string)
    ensures Occurs(s, part) <==> Contains(s, part)
  {
    if Contains(s, part) {
      assert OccursAt(s, part, Index(s, part));
    }
  }

  lemma OccursWithin(before: string, s: string, after: string, part: string)
    requires Occurs(s, part)
    ensures Occurs(before + s + after, part)
  {
    var at: nat :| OccursAt(s, part, at);
    var whole := before + s + after;
    assert whole[|before|..|before| + |s|] == s;
    assert whole[|before| + at..|before| + at + |part|] == s[at..at + |part|];
    assert OccursAt(whole, part, |before| + at);
  }

  lemma OccursInItself(s: string)
    ensures Occurs(s, s)
  {
    assert OccursAt(s, s, 0);
  }

  lemma OccursThrough(s: string, part: string, piece: string)
    requires Occurs(s, part) && Occurs(part, piece)
    ensures Occurs(s, piece)
  {
    var at: nat :| OccursAt(s, part, at);
    assert s == s[..at] + part + s[at + |part|..];
    OccursWithin(s[..at], part, s[at + |part|..], piece);
  }

  lemma LowerOccurs(s: string, part: string)
    requires Occurs(s, part)
    ensures Occurs(ToLower(s), ToLower(part))
  {
    var at: nat :| OccursAt(s, part, at);
    assert forall i :: 0 <= i < |part| ==> part[i] == s[at..at + |part|][i];
    assert OccursAt(ToLower(s), ToLower(part), at);
  }

  /** Every field of a text occurs in it. */
  lemma {:induction false} FieldsOccur(s: string, current: string, isSeparator: char -> bool)
    ensures forall field <- CollectFields(s, current, isSeparator) :: Occurs(current + s, field)
  {
    OccursInItself(current);
    OccursWithin("", current, s, current);
    assert "" + current + s == current + s;
    if s != "" && isSeparator(s[0]) {
      FieldsOccur(s[1..], "", isSeparator);
      forall field <- CollectFields(s[1..], "", isSeparator) ensures Occurs(current + s, field) {
        OccursWithin(current + [s[0]], "" + s[1..], "", field);
        assert current + [s[0]] + ("" + s[1..]) + "" == current + s;
      }
    } else if s != "" {
      FieldsOccur(s[1..], current + [s[0]], isSeparator);
      assert current + [s[0]] + s[1..] == current + s;
    }
  }

  lemma {:induction false} PartOccurs(parts: seq<string>, separator: string, i: nat)
    requires i < |parts|
    ensures Occurs(Join(parts, separator), parts[i])
  {
    if |parts| == 1 {
      OccursInItself(parts[0]);
    } else if i == 0 {
      OccursInItself(parts[0]);
      OccursWithin("", parts[0], separator + Join(parts[1..], separator), parts[0]);
      assert "" + parts[0] + (separator + Join(parts[1..], separator)) == Join(parts, separator);
    } else {
      PartOccurs(parts[1..], separator, i - 1);
      OccursWithin(parts[0] + separator, Join(parts[1..], separator), "", parts[i]);
      assert parts[0] + separator + Join(parts[1..], separator) + "" == Join(parts, separator);
    }
  }

  // ----- What occurs in joined texts -----

  /** Where a word without `c` occurs in two texts with a `c` between them, it occurs in one of them. */
  lemma OnOneSide(x: string, c: char, y: string, word: string, at: nat)
    requires word != "" && c !in word && OccursAt(x + [c] + y, word, at)
    ensures at + |word| <= |x| ==> OccursAt(x, word, at)
    ensures at > |x| ==> OccursAt(y, word, at - |x| - 1)
    ensures at + |word| <= |x| || at > |x|
  {
    var whole := x + [c] + y;
    forall k | at <= k < at + |word| ensures whole[k] in word {
      assert whole[k] == whole[at..at + |word|][k - at] == word[k - at];
    }
    assert whole[|x|] == c;
    if at + |word| <= |x| {
      assert x[at..at + |word|] == whole[at..at + |word|];
    } else if at > |x| {
      assert y[at - |x| - 1..at - |x| - 1 + |word|] == whole[at..at + |word|];
    }
  }

  lemma AcrossCharacter(x: string, c: char, y: string, word: string)
    requires word != "" && c !in word
    ensures Occurs(x + [c] + y, word) <==> Occurs(x, word) || Occurs(y, word)
  {
    if Occurs(x, word) {
      OccursWithin("", x, [c] + y, word);
      assert "" + x + ([c] + y) == x + [c] + y;
    }
    if Occurs(y, word) {
      OccursWithin(x + [c], y, "", word);
      assert x + [c] + y + "" == x + [c] + y;
    }
    if at: nat :| OccursAt(x + [c] + y, word, at) {
      OnOneSide(x, c, y, word, at);
    }
  }

  /** Some part, in lower case, contains the word. */
  ghost predicate InSomePart(parts: seq<string>, word: string) {
    exists part :: part in parts && Contains(ToLower(part), word)
  }

  lemma LowerOfSum(x: string, c: char, y: string)
    ensures ToLower(x + [c] + y) == ToLower(x) + [LowerRune(c)] + ToLower(y)
  {
  }

  lemma InFirstOrRest(first: string, rest: seq<string>, word: string)
    ensures InSomePart([first] + rest, word) <==> Contains(ToLower(first), word) || InSomePart(rest, word)
  {
    var parts := [first] + rest;
    assert first in parts;
    if part :| part in rest && Contains(ToLower(part), word) {
      assert part in parts;
    }
  }

  /** A word without white space occurs in texts joined with a blank exactly if it occurs in one of them. That a blank
      stays white space in lower case is all that has to be known of it. */
  lemma {:induction false} InJoinedParts(parts: seq<string>, word: string)
    requires IsSpace(LowerRune(' ')) && word != "" && HasNo(word, IsSpace)
    ensures Contains(ToLower(Join(parts, " ")), word) <==> InSomePart(parts, word)
  {
    if parts == [] {
      OccursIsContains(ToLower(""), word);
    } else {
      var first, rest := parts[0], parts[1..];
      assert parts == [first] + rest;
      InFirstOrRest(first, rest, word);
      InJoinedParts(rest, word);
      if rest != [] {
        LowerOfSum(first, ' ', Join(rest, " "));
        AcrossCharacter(ToLower(first), LowerRune(' '), ToLower(Join(rest, " ")), word);
        OccursIsContains(ToLower(first) + [LowerRune(' ')] + ToLower(Join(rest, " ")), word);
        OccursIsContains(ToLower(first), word);
        OccursIsContains(ToLower(Join(rest, " ")), word);
      } else {
        assert !InSomePart(rest, word);
      }
    }
  }
}
