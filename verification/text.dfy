/** The parts of Go's string library that the services rely on. */
module Text {

  /** Lower-casing of one rune. Which runes it maps to which is left open. */
  const LowerRune: char -> char

  function ToLower(s: string): (r: string)
    ensures |r| == |s|
  {
    seq(|s|, i requires 0 <= i < |s| => LowerRune(s[i]))
  }

  /** Go's white space: the Latin-1 set and the Unicode White_Space property. */
  predicate IsSpace(c: char) {
    || '\t' <= c <= '\r' || c == ' '
    || c == '\U{85}' || c == '\U{A0}' || c == '\U{1680}'
    || '\U{2000}' <= c <= '\U{200A}' || '\U{2028}' <= c <= '\U{2029}'
    || c == '\U{202F}' || c == '\U{205F}' || c == '\U{3000}'
  }

  function TrimLeft(s: string): string {
    if s != "" && IsSpace(s[0]) then TrimLeft(s[1..]) else s
  }

  function TrimRight(s: string): string {
    if s != "" && IsSpace(s[|s| - 1]) then TrimRight(s[..|s| - 1]) else s
  }

  function TrimSpace(s: string): string {
    TrimRight(TrimLeft(s))
  }

  function Trimmed(xs: seq<string>): (r: seq<string>)
    ensures |r| == |xs|
  {
    seq(|xs|, i requires 0 <= i < |xs| => TrimSpace(xs[i]))
  }

  predicate IsBlank(s: string) {
    TrimSpace(s) == ""
  }

  lemma {:induction false} TrimLeftDrops(s: string)
    ensures var r := TrimLeft(s);
            && |r| <= |s| && r == s[|s| - |r|..]
            && (r == "" || !IsSpace(r[0]))
            && forall i :: 0 <= i < |s| - |r| ==> IsSpace(s[i])
  {
    if s != "" && IsSpace(s[0]) {
      TrimLeftDrops(s[1..]);
      var r := TrimLeft(s);
      forall i | 0 <= i < |s| - |r| ensures IsSpace(s[i]) {
        assert i > 0 ==> s[i] == s[1..][i - 1];
      }
    }
  }

  lemma {:induction false} TrimRightDrops(s: string)
    ensures var r := TrimRight(s);
            && r <= s
            && (r == "" || !IsSpace(r[|r| - 1]))
            && forall i :: |r| <= i < |s| ==> IsSpace(s[i])
  {
    if s != "" && IsSpace(s[|s| - 1]) {
      TrimRightDrops(s[..|s| - 1]);
    }
  }

  /** Trimming drops white space at both ends, all of it, and nothing else. */
  lemma TrimSpaceDrops(s: string) returns (from: nat, to: nat)
    ensures from <= to <= |s| && TrimSpace(s) == s[from..to]
    ensures from == to || (!IsSpace(s[from]) && !IsSpace(s[to - 1]))
    ensures forall i :: 0 <= i < from || to <= i < |s| ==> IsSpace(s[i])
  {
    var left := TrimLeft(s);
    TrimLeftDrops(s);
    TrimRightDrops(left);
    from := |s| - |left|;
    to := from + |TrimRight(left)|;
    forall i | to <= i < |s| ensures IsSpace(s[i]) {
      assert s[i] == left[i - from];
    }
  }

  /** Nothing is trimmed from a string that neither starts nor ends with white space. */
  lemma TrimFixed(s: string)
    requires s == "" || (!IsSpace(s[0]) && !IsSpace(s[|s| - 1]))
    ensures TrimSpace(s) == s
  {
  }

  lemma TrimIdempotent(s: string)
    ensures TrimSpace(TrimSpace(s)) == TrimSpace(s)
  {
    var from, to := TrimSpaceDrops(s);
    TrimFixed(TrimSpace(s));
  }

  /** A string that starts with a printing character keeps its start. */
  lemma TrimKeepsStart(s: string, prefix: string)
    requires prefix != "" && prefix <= s
    requires !IsSpace(prefix[0]) && !IsSpace(prefix[|prefix| - 1])
    ensures prefix <= TrimSpace(s)
  {
    var from, to := TrimSpaceDrops(s);
    assert !IsSpace(s[0]) && !IsSpace(s[|prefix| - 1]);
  }

  /** The name under which two source names are the same source. */
  function NormalizedSource(source: string): string {
    ToLower(TrimSpace(source))
  }

  /** `needle` occurs in `s` at offset `at`. */
  predicate OccursAt(s: string, needle: string, at: nat) {
    at + |needle| <= |s| && s[at..at + |needle|] == needle
  }

  /** The offset of the first occurrence of `needle`, or -1. */
  function Index(s: string, needle: string): (at: int)
    ensures -1 <= at <= |s|
    ensures at >= 0 ==> OccursAt(s, needle, at)
    ensures forall k: nat :: (at < 0 || k < at) ==> !OccursAt(s, needle, k)
  {
    IndexFrom(s, needle, 0)
  }

  function IndexFrom(s: string, needle: string, from: nat): (at: int)
    requires from <= |s|
    ensures at == -1 || from <= at <= |s|
    ensures at >= 0 ==> OccursAt(s, needle, at)
    ensures forall k: nat :: from <= k && (at < 0 || k < at) ==> !OccursAt(s, needle, k)
    decreases |s| - from
  {
    if OccursAt(s, needle, from) then from
    else if from == |s| then -1
    else IndexFrom(s, needle, from + 1)
  }

  predicate Contains(s: string, needle: string) {
    Index(s, needle) >= 0
  }

  function Join(parts: seq<string>, separator: string): string {
    if |parts| == 0 then ""
    else if |parts| == 1 then parts[0]
    else parts[0] + separator + Join(parts[1..], separator)
  }

  /** The maximal runs of characters that are no separators. */
  function FieldsBy(s: string, isSeparator: char -> bool): seq<string> {
    CollectFields(s, "", isSeparator)
  }

  function CollectFields(s: string, current: string, isSeparator: char -> bool): seq<string> {
    var finished := if current == "" then [] else [current];
    if s == "" then finished
    else if isSeparator(s[0]) then finished + CollectFields(s[1..], "", isSeparator)
    else CollectFields(s[1..], current + [s[0]], isSeparator)
  }

  function Fields(s: string): seq<string> {
    FieldsBy(s, IsSpace)
  }

  /** `s` without leading and trailing characters of `cutset`. */
  function TrimSet(s: string, cutset: string): string {
    if s != "" && s[0] in cutset then TrimSet(s[1..], cutset)
    else if s != "" && s[|s| - 1] in cutset then TrimSet(s[..|s| - 1], cutset)
    else s
  }
}
