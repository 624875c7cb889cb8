/**
 * Finding the object assigned to `window.__INITIAL_STATE__` in a script (`extractInitialState`, `jsonObjectEnd`).
 * The scanner is proved against the concrete syntax of RFC 8259: whatever the layout, escapes and string contents,
 * it stops exactly at the end of the object.
 */
module InitialState {
  import opened Contracts
  import opened Text

  // ----- JSON texts -----

  /** The characters of a JSON string between its quotation marks (section 7 of RFC 8259). */
  datatype Chars =
    | NoChars
    | Unescaped(c: char, rest: Chars)
    | Escaped(c: char, rest: Chars)
    | CodeUnit(hex: string, rest: Chars)

  /** A JSON value in concrete syntax: the `ws` fields are the white space around the structural characters. */
  datatype Value =
    | Null | True | False
    | Number(lexeme: string)
    | Str(chars: Chars)
    | Array(ws: string, elements: Elements)
    | Object(ws: string, members: Members)

  datatype Elements = NoElements | Element(before: string, value: Value, after: string, rest: Elements)

  datatype Members =
    | NoMembers
    | Member(before: string, name: Chars, afterName: string, beforeValue: string, value: Value, after: string,
             rest: Members)

  predicate IsWs(s: string) {
    forall i :: 0 <= i < |s| ==> s[i] in " \t\n\r"
  }

  predicate IsHex(c: char) {
    '0' <= c <= '9' || 'a' <= c <= 'f' || 'A' <= c <= 'F'
  }

  predicate IsNumber(s: string) {
    |s| > 0 && forall i :: 0 <= i < |s| ==> '0' <= s[i] <= '9' || s[i] in "-+.eE"
  }

  predicate WellFormedChars(chars: Chars) {
    match chars
    case NoChars => true
    case Unescaped(c, rest) => c >= ' ' && c != '"' && c != '\\' && WellFormedChars(rest)
    case Escaped(c, rest) => c in "\"\\/bfnrt" && WellFormedChars(rest)
    case CodeUnit(hex, rest) => |hex| == 4 && (forall i :: 0 <= i < 4 ==> IsHex(hex[i])) && WellFormedChars(rest)
  }

  predicate WellFormed(v: Value) {
    match v
    case Null | True | False => true
    case Number(lexeme) => IsNumber(lexeme)
    case Str(chars) => WellFormedChars(chars)
    case Array(ws, elements) => IsWs(ws) && WellFormedElements(elements)
    case Object(ws, members) => IsWs(ws) && WellFormedMembers(members)
  }

  predicate WellFormedElements(elements: Elements) {
    match elements
    case NoElements => true
    case Element(before, value, after, rest) =>
      IsWs(before) && WellFormed(value) && IsWs(after) && WellFormedElements(rest)
  }

  predicate WellFormedMembers(members: Members) {
    match members
    case NoMembers => true
    case Member(before, name, afterName, beforeValue, value, after, rest) =>
      && IsWs(before) && WellFormedChars(name) && IsWs(afterName)
      && IsWs(beforeValue) && WellFormed(value) && IsWs(after) && WellFormedMembers(rest)
  }

  function PrintChars(chars: Chars): string {
    match chars
    case NoChars => ""
    case Unescaped(c, rest) => [c] + PrintChars(rest)
    case Escaped(c, rest) => ['\\', c] + PrintChars(rest)
    case CodeUnit(hex, rest) => "\\u" + hex + PrintChars(rest)
  }

  function Quoted(chars: Chars): string {
    "\"" + PrintChars(chars) + "\""
  }

  function Print(v: Value): string {
    match v
    case Null => "null"
    case True => "true"
    case False => "false"
    case Number(lexeme) => lexeme
    case Str(chars) => Quoted(chars)
    case Array(ws, elements) => "[" + ws + PrintElements(elements) + "]"
    case Object(ws, members) => "{" + ws + PrintMembers(members) + "}"
  }

  function PrintElements(elements: Elements): string {
    match elements
    case NoElements => ""
    case Element(before, value, after, rest) =>
      before + Print(value) + after + (if rest.NoElements? then "" else "," + PrintElements(rest))
  }

  function PrintMembers(members: Members): string {
    match members
    case NoMembers => ""
    case Member(before, name, afterName, beforeValue, value, after, rest) =>
      before + Quoted(name) + afterName + ":" + beforeValue + Print(value) + after +
      (if rest.NoMembers? then "" else "," + PrintMembers(rest))
  }

  // ----- The scanner -----

  datatype Scan = Open(depth: int, inString: bool, escaped: bool) | Closed

  const START := Open(0, false, false)

  function Next(s: Scan, c: char): Scan {
    match s
    case Closed => Closed
    case Open(depth, inString, escaped) =>
      if inString then
        if escaped then s.(escaped := false)
        else if c == '\\' then s.(escaped := true)
        else if c == '"' then s.(inString := false)
        else s
      else if c == '"' then s.(inString := true)
      else if c == '{' then s.(depth := depth + 1)
      else if c == '}' then if depth - 1 == 0 then Closed else s.(depth := depth - 1)
      else s
  }

  function Run(s: Scan, text: string): Scan
    decreases text
  {
    if text == "" then s else Run(Next(s, text[0]), text[1..])
  }

  /** How many characters are read until the scanner closes, or -1. */
  function End(s: Scan, text: string): (end: int)
    ensures end == -1 || 0 < end <= |text|
    decreases text
  {
    if text == "" then -1
    else if Next(s, text[0]).Closed? then 1
    else
      var end := End(Next(s, text[0]), text[1..]);
      if end < 0 then -1 else end + 1
  }

  method JsonObjectEnd(value: string) returns (end: int)
    ensures end == End(START, value)
  {
    var depth, inString, escaped := 0, false, false;
    assert value[0..] == value;
    for index := 0 to |value|
      invariant var rest := End(Open(depth, inString, escaped), value[index..]);
                End(START, value) == if rest < 0 then -1 else index + rest
    {
      var c := value[index];
      assert value[index..][1..] == value[index + 1..];
      if inString {
        if escaped {
          escaped := false;
          continue;
        }
        if c == '\\' {
          escaped := true;
          continue;
        }
        if c == '"' {
          inString := false;
        }
        continue;
      }
      if c == '"' {
        inString := true;
      } else if c == '{' {
        depth := depth + 1;
      } else if c == '}' {
        depth := depth - 1;
        if depth == 0 {
          return index + 1;
        }
      }
    }
    return -1;
  }

  // ----- The scanner on JSON texts -----

  lemma {:induction false} RunConcat(s: Scan, a: string, b: string)
    ensures Run(s, a + b) == Run(Run(s, a), b)
    decreases a
  {
    if a == "" {
      assert a + b == b;
    } else {
      assert (a + b)[1..] == a[1..] + b;
      RunConcat(Next(s, a[0]), a[1..], b);
    }
  }

  lemma {:induction false} ClosedStays(text: string)
    ensures Run(Closed, text) == Closed
  {
    if text != "" {
      ClosedStays(text[1..]);
    }
  }

  /** A text that leaves the scanner open is read in full before what follows it. */
  lemma {:induction false} EndSkips(s: Scan, a: string, b: string)
    requires Run(s, a).Open?
    ensures var end := End(Run(s, a), b); End(s, a + b) == if end < 0 then -1 else |a| + end
    decreases a
  {
    if a == "" {
      assert a + b == b;
    } else {
      assert (a + b)[1..] == a[1..] + b;
      if Next(s, a[0]).Closed? {
        ClosedStays(a[1..]);
      }
      EndSkips(Next(s, a[0]), a[1..], b);
    }
  }

  predicate Quiet(c: char) {
    c != '"' && c != '{' && c != '}'
  }

  /** Outside of strings only quotation marks and braces matter. */
  lemma {:induction false} QuietText(depth: int, text: string)
    requires forall i :: 0 <= i < |text| ==> Quiet(text[i])
    ensures Run(Open(depth, false, false), text) == Open(depth, false, false)
  {
    if text != "" {
      QuietText(depth, text[1..]);
    }
  }

  /** Inside of strings only quotation marks and backslashes matter. */
  lemma {:induction false} PlainText(depth: int, text: string)
    requires forall i :: 0 <= i < |text| ==> text[i] != '"' && text[i] != '\\'
    ensures Run(Open(depth, true, false), text) == Open(depth, true, false)
  {
    if text != "" {
      PlainText(depth, text[1..]);
    }
  }

  lemma {:induction false} CharsAreSkipped(depth: int, chars: Chars)
    requires WellFormedChars(chars)
    ensures Run(Open(depth, true, false), PrintChars(chars)) == Open(depth, true, false)
  {
    var inside := Open(depth, true, false);
    match chars
    case NoChars =>
    case Unescaped(c, rest) =>
      RunConcat(inside, [c], PrintChars(rest));
      PlainText(depth, [c]);
      CharsAreSkipped(depth, rest);
    case Escaped(c, rest) =>
      RunConcat(inside, ['\\', c], PrintChars(rest));
      assert Run(inside, ['\\', c]) == Run(Next(inside, '\\'), [c]) == inside;
      CharsAreSkipped(depth, rest);
    case CodeUnit(hex, rest) =>
      RunConcat(inside, "\\u" + hex, PrintChars(rest));
      RunConcat(inside, "\\u", hex);
      assert Run(inside, "\\u") == Run(Next(inside, '\\'), "u") == inside;
      PlainText(depth, hex);
      CharsAreSkipped(depth, rest);
  }

  lemma QuotedIsSkipped(depth: int, chars: Chars)
    requires WellFormedChars(chars)
    ensures Run(Open(depth, false, false), Quoted(chars)) == Open(depth, false, false)
  {
    var outside := Open(depth, false, false);
    RunConcat(outside, "\"" + PrintChars(chars), "\"");
    RunConcat(outside, "\"", PrintChars(chars));
    CharsAreSkipped(depth, chars);
  }

  /** Inside an object every well-formed value brings the scanner back to the state it was in. */
  lemma {:induction false} ValueIsSkipped(depth: int, v: Value)
    requires depth >= 1 && WellFormed(v)
    ensures Run(Open(depth, false, false), Print(v)) == Open(depth, false, false)
    decreases v
  {
    var outside := Open(depth, false, false);
    match v
    case Null | True | False =>
      QuietText(depth, Print(v));
    case Number(lexeme) =>
      QuietText(depth, lexeme);
    case Str(chars) =>
      QuotedIsSkipped(depth, chars);
    case Array(ws, elements) =>
      ElementsAreSkipped(depth, elements);
      BracketsAreQuiet(depth, ws, PrintElements(elements));
    case Object(ws, members) =>
      RunConcat(outside, "{" + ws + PrintMembers(members), "}");
      ObjectIsOpen(depth, ws, members);
  }

  lemma BracketsAreQuiet(depth: int, ws: string, inner: string)
    requires IsWs(ws) && Run(Open(depth, false, false), inner) == Open(depth, false, false)
    ensures Run(Open(depth, false, false), "[" + ws + inner + "]") == Open(depth, false, false)
  {
    var outside := Open(depth, false, false);
    RunConcat(outside, "[" + ws + inner, "]");
    RunConcat(outside, "[" + ws, inner);
    QuietText(depth, "[" + ws);
    QuietText(depth, "]");
  }

  /** Up to its closing brace an object only raises the depth by one. */
  lemma {:induction false} ObjectIsOpen(depth: int, ws: string, members: Members)
    requires depth >= 0 && IsWs(ws) && WellFormedMembers(members)
    ensures Run(Open(depth, false, false), "{" + ws + PrintMembers(members)) == Open(depth + 1, false, false)
    decreases members, 1
  {
    var outside := Open(depth, false, false);
    RunConcat(outside, "{" + ws, PrintMembers(members));
    RunConcat(outside, "{", ws);
    assert Run(outside, "{") == Open(depth + 1, false, false);
    QuietText(depth + 1, ws);
    MembersAreSkipped(depth + 1, members);
  }

  lemma {:induction false} ElementsAreSkipped(depth: int, elements: Elements)
    requires depth >= 1 && WellFormedElements(elements)
    ensures Run(Open(depth, false, false), PrintElements(elements)) == Open(depth, false, false)
    decreases elements
  {
    var outside := Open(depth, false, false);
    match elements
    case NoElements =>
    case Element(before, value, after, rest) =>
      var tail := if rest.NoElements? then "" else "," + PrintElements(rest);
      RunConcat(outside, before + Print(value) + after, tail);
      RunConcat(outside, before + Print(value), after);
      RunConcat(outside, before, Print(value));
      QuietText(depth, before);
      ValueIsSkipped(depth, value);
      QuietText(depth, after);
      RunConcat(outside, ",", PrintElements(rest));
      QuietText(depth, ",");
      ElementsAreSkipped(depth, rest);
  }

  lemma {:induction false} MembersAreSkipped(depth: int, members: Members)
    requires depth >= 1 && WellFormedMembers(members)
    ensures Run(Open(depth, false, false), PrintMembers(members)) == Open(depth, false, false)
    decreases members, 0
  {
    var outside := Open(depth, false, false);
    match members
    case NoMembers =>
    case Member(before, name, afterName, beforeValue, value, after, rest) =>
      var head := before + Quoted(name) + afterName + ":" + beforeValue;
      var tail := if rest.NoMembers? then "" else "," + PrintMembers(rest);
      RunConcat(outside, head + Print(value) + after, tail);
      RunConcat(outside, head + Print(value), after);
      RunConcat(outside, head, Print(value));
      NameIsSkipped(depth, before, name, afterName, beforeValue);
      ValueIsSkipped(depth, value);
      QuietText(depth, after);
      RunConcat(outside, ",", PrintMembers(rest));
      QuietText(depth, ",");
      MembersAreSkipped(depth, rest);
  }

  lemma NameIsSkipped(depth: int, before: string, name: Chars, afterName: string, beforeValue: string)
    requires IsWs(before) && WellFormedChars(name) && IsWs(afterName) && IsWs(beforeValue)
    ensures Run(Open(depth, false, false), before + Quoted(name) + afterName + ":" + beforeValue) ==
            Open(depth, false, false)
  {
    var outside := Open(depth, false, false);
    RunConcat(outside, before + Quoted(name) + afterName + ":", beforeValue);
    RunConcat(outside, before + Quoted(name) + afterName, ":");
    RunConcat(outside, before + Quoted(name), afterName);
    RunConcat(outside, before, Quoted(name));
    QuietText(depth, before);
    QuotedIsSkipped(depth, name);
    QuietText(depth, afterName);
    QuietText(depth, ":");
    QuietText(depth, beforeValue);
  }

  /** For every JSON object and whatever follows it, the scanner stops exactly at the object's end. */
  lemma ScannerFindsObjectEnd(obj: Value, suffix: string)
    requires obj.Object? && WellFormed(obj)
    ensures End(START, Print(obj) + suffix) == |Print(obj)|
  {
    var body := "{" + obj.ws + PrintMembers(obj.members);
    ObjectIsOpen(0, obj.ws, obj.members);
    EndSkips(START, body, "}" + suffix);
    assert Print(obj) + suffix == body + ("}" + suffix);
    assert ("}" + suffix)[0] == '}';
  }

  // ----- Extraction -----

  const MARKER := "window.__INITIAL_STATE__"

  /** The text from the first opening brace to the matching closing one. */
  function FirstObject(text: string): Option<string> {
    var objectStart := Index(text, "{");
    if objectStart < 0 then None else
      var payload := text[objectStart..];
      var end := End(START, payload);
      if end <= 0 then None else Some(payload[..end])
  }

  function Extracted(script: string): Option<string> {
    var index := Index(script, MARKER);
    if index < 0 then None else
      var afterMarker := script[index + |MARKER|..];
      var equalsIndex := Index(afterMarker, "=");
      if equalsIndex < 0 then None else FirstObject(TrimSpace(afterMarker[equalsIndex + 1..]))
  }

  method ExtractInitialState(script: string) returns (state: Option<string>)
    ensures state == Extracted(script)
  {
    var index := Index(script, MARKER);
    if index < 0 {
      return None;
    }
    var afterMarker := script[index + |MARKER|..];
    var equalsIndex := Index(afterMarker, "=");
    if equalsIndex < 0 {
      return None;
    }
    var afterEquals := TrimSpace(afterMarker[equalsIndex + 1..]);
    var objectStart := Index(afterEquals, "{");
    if objectStart < 0 {
      return None;
    }
    var payload := afterEquals[objectStart..];
    var end := JsonObjectEnd(payload);
    if end <= 0 {
      return None;
    }
    return Some(payload[..end]);
  }

  lemma FirstCharIndex(s: string, prefix: string, c: char, rest: string)
    requires s == prefix + [c] + rest && c !in prefix
    ensures Index(s, [c]) == |prefix|
  {
    assert OccursAt(s, [c], |prefix|);
    forall k: nat | k < |prefix| ensures !OccursAt(s, [c], k) {
      assert s[k..k + 1][0] == prefix[k];
    }
  }

  /** Trimming a text around an object leaves the object whole. */
  lemma TrimKeepsObject(between: string, obj: Value, suffix: string) returns (front: string, back: string)
    requires obj.Object?
    ensures TrimSpace(between + Print(obj) + suffix) == front + Print(obj) + back
    ensures forall c :: c in front ==> c in between
  {
    var text, printed := between + Print(obj) + suffix, Print(obj);
    var from, to := TrimSpaceDrops(text);
    assert text[|between|] == printed[0] == '{';
    assert text[|between| + |printed| - 1] == printed[|printed| - 1] == '}';
    assert from <= |between| && to >= |between| + |printed|;
    front, back := between[from..], suffix[..to - |between| - |printed|];
    assert text[from..to] == front + printed + back;
  }

  lemma FirstObjectFound(front: string, obj: Value, back: string)
    requires obj.Object? && WellFormed(obj) && '{' !in front
    ensures FirstObject(front + Print(obj) + back) == Some(Print(obj))
  {
    var text := front + Print(obj) + back;
    assert text == front + ['{'] + (Print(obj)[1..] + back);
    FirstCharIndex(text, front, '{', Print(obj)[1..] + back);
    assert text[|front|..] == Print(obj) + back;
    ScannerFindsObjectEnd(obj, back);
  }

  lemma AssignmentFound(script: string, at: nat, gap: string, assignment: string)
    requires at + |MARKER| <= |script| && script[at + |MARKER|..] == gap + "=" + assignment
    requires '=' !in gap && Index(script, MARKER) == at
    ensures Extracted(script) == FirstObject(TrimSpace(assignment))
  {
    var afterMarker := script[at + |MARKER|..];
    FirstCharIndex(afterMarker, gap, '=', assignment);
    assert afterMarker[|gap| + 1..] == assignment;
  }

  /** In a script that assigns an object after the first marker, exactly that object is extracted. */
  lemma ExtractsAssignedObject(before: string, gap: string, between: string, obj: Value, suffix: string)
    requires obj.Object? && WellFormed(obj)
    requires '=' !in gap && '{' !in between
    requires Index(before + MARKER + gap + "=" + between + Print(obj) + suffix, MARKER) == |before|
    ensures Extracted(before + MARKER + gap + "=" + between + Print(obj) + suffix) == Some(Print(obj))
  {
    var script := before + MARKER + gap + "=" + between + Print(obj) + suffix;
    var assignment := between + Print(obj) + suffix;
    assert script == (before + MARKER) + (gap + "=" + assignment);
    AssignmentFound(script, |before|, gap, assignment);
    var front, back := TrimKeepsObject(between, obj, suffix);
    FirstObjectFound(front, obj, back);
  }

  // ----- When nothing is extracted -----

  /** A text that closes later does not close before that. */
  lemma {:induction false} NotClosedBefore(s: Scan, text: string, n: nat)
    requires n <= |text| && (End(s, text) < 0 || End(s, text) > n)
    ensures End(s, text[..n]) < 0
    decreases n
  {
    if n > 0 {
      assert text[..n][1..] == text[1..][..n - 1];
      var next := Next(s, text[0]);
      if next.Open? {
        NotClosedBefore(next, text[1..], n - 1);
      }
    }
  }

  lemma CharIsFound(s: string, c: char)
    ensures Index(s, [c]) >= 0 ==> c in s
  {
    var at := Index(s, [c]);
    if at >= 0 {
      assert s[at] == s[at..at + 1][0] == c;
    }
  }

  lemma NoFirstObject(text: string)
    requires '{' !in text
    ensures FirstObject(text) == None
  {
    CharIsFound(text, '{');
  }

  lemma UnclosedObject(front: string, obj: Value, part: string)
    requires obj.Object? && WellFormed(obj) && '{' !in front
    requires part < Print(obj) && part != ""
    ensures FirstObject(front + part) == None
  {
    var text := front + part;
    assert part[0] == Print(obj)[0] == '{';
    assert text == front + ['{'] + part[1..];
    FirstCharIndex(text, front, '{', part[1..]);
    assert text[|front|..] == part;
    ScannerFindsObjectEnd(obj, "");
    assert Print(obj) + "" == Print(obj) && Print(obj)[..|part|] == part;
    NotClosedBefore(START, Print(obj), |part|);
  }

  /** What is left of a text around the start of an object. */
  lemma TrimKeepsStart(between: string, part: string) returns (front: string, back: string)
    requires part != "" && part[0] == '{'
    ensures TrimSpace(between + part) == front + back && back != "" && back <= part
    ensures forall c :: c in front ==> c in between
  {
    var text := between + part;
    var from, to := TrimSpaceDrops(text);
    assert text[|between|] == '{';
    assert from <= |between| < to;
    front, back := between[from..], part[..to - |between|];
    assert text[from..to] == front + back;
  }

  /** A script that breaks off before the end of the object, or before it begins, yields nothing. */
  lemma NothingIsExtracted(before: string, gap: string, between: string, obj: Value, part: string)
    requires obj.Object? && WellFormed(obj) && part < Print(obj)
    requires '=' !in gap && '{' !in between
    requires Index(before + MARKER + gap + "=" + between + part, MARKER) == |before|
    ensures Extracted(before + MARKER + gap + "=" + between + part) == None
  {
    var script := before + MARKER + gap + "=" + between + part;
    assert script == (before + MARKER) + (gap + "=" + (between + part));
    AssignmentFound(script, |before|, gap, between + part);
    if part == "" {
      var from, to := TrimSpaceDrops(between);
      assert between + part == between;
      NoFirstObject(TrimSpace(between));
    } else {
      assert part[0] == Print(obj)[0] == '{';
      var front, back := TrimKeepsStart(between, part);
      UnclosedObject(front, obj, back);
    }
  }

  /** Without a marker, or without an equals sign after the first one, nothing is extracted. */
  lemma NothingAssigned(script: string)
    ensures !Contains(script, MARKER) ==> Extracted(script) == None
    ensures Contains(script, MARKER) && '=' !in script[Index(script, MARKER)..][|MARKER|..] ==>
              Extracted(script) == None
  {
    if Contains(script, MARKER) {
      var rest := script[Index(script, MARKER) + |MARKER|..];
      assert rest == script[Index(script, MARKER)..][|MARKER|..];
      CharIsFound(rest, '=');
    }
  }
}
