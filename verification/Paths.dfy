/** The path language of `pkg/diff/paths.go`: segments, the scanner, the printer and
    wildcard matching. */
module Paths {
  import opened Text

  /** `Segment`. A wildcard carries no key and no index. */
  datatype Segment =
    | Field(key: string)
    | FieldWildcard
    | Index(index: int)
    | IndexWildcard

  type Path = seq<Segment>

  datatype PathError =
    | EmptyPath
    | UnterminatedBracket
    | InvalidIndexWildcard
    | UnterminatedQuotedKey
    | UnterminatedIndex
    | InvalidIndex

  // ---- scanner ----------------------------------------------------------

  datatype Scanned = Scanned(segment: Segment, length: nat)

  /** One bracketed segment at the start of `s`, and how many characters it takes. */
  function Bracket(s: string): (r: Result<Scanned, PathError>)
    ensures r.Ok? ==> 0 < r.value.length <= |s|
  {
    if |s| <= 2 then Err(UnterminatedBracket)
    else if s[1] == '*' then
      if s[2] != ']' then Err(InvalidIndexWildcard) else Ok(Scanned(IndexWildcard, 3))
    else if s[1] == '\'' || s[1] == '"' then
      var end := IndexOf(s, s[1], 2);
      if end + 1 >= |s| || s[end + 1] != ']' then Err(UnterminatedQuotedKey)
      else Ok(Scanned(Field(s[2..end]), end + 2))
    else
      var end := IndexOf(s, ']', 1);
      if end >= |s| then Err(UnterminatedIndex)
      else match Atoi(s[1..end])
        case None => Err(InvalidIndex)
        case Some(n) => Ok(Scanned(Index(n), end + 1))
  }

  /** Length of the unquoted token at the start of `s`. */
  function TokenLength(s: string): (n: nat)
    ensures n <= |s|
    ensures forall i :: 0 <= i < n ==> s[i] != '.' && s[i] != '['
    ensures n < |s| ==> s[n] == '.' || s[n] == '['
  {
    if s == "" || s[0] == '.' || s[0] == '[' then 0 else 1 + TokenLength(s[1..])
  }

  function TokenSegment(token: string): Segment {
    if token == "*" then FieldWildcard else Field(token)
  }

  function Prepend(s: Path, r: Result<Path, PathError>): Result<Path, PathError> {
    match r
    case Ok(t) => Ok(s + t)
    case Err(e) => Err(e)
  }

  /** The segments of a trimmed path text. */
  function Segments(s: string): Result<Path, PathError>
    decreases |s|
  {
    if s == "" then Ok([])
    else if s[0] == '.' then Segments(s[1..])
    else if s[0] == '[' then
      match Bracket(s)
      case Err(e) => Err(e)
      case Ok(b) => Prepend([b.segment], Segments(s[b.length..]))
    else
      var n := TokenLength(s);
      Prepend([TokenSegment(s[..n])], Segments(s[n..]))
  }

  /** What a path text denotes. */
  function Parsed(value: string): Result<Path, PathError> {
    if TrimSpace(value) == "" then Err(EmptyPath) else Segments(TrimSpace(value))
  }

  function ParsedAll(values: seq<string>): Result<seq<Path>, PathError> {
    if values == [] then Ok([])
    else match ParsedAll(values[..|values| - 1])
      case Err(e) => Err(e)
      case Ok(ps) =>
        match Parsed(values[|values| - 1])
        case Err(e) => Err(e)
        case Ok(p) => Ok(ps + [p])
  }

  method ParseBracketSegment(input: string, start: nat)
    returns (segment: Segment, next: nat, error: Option<PathError>)
    requires start < |input|
    ensures match Bracket(input[start..])
            case Err(e) => error == Some(e)
            case Ok(b) => error == None && segment == b.segment && next == start + b.length
  {
    ghost var s := input[start..];
    segment, next, error := FieldWildcard, 0, None;
    if start + 2 >= |input| {
      error := Some(UnterminatedBracket);
      return;
    }
    assert s[1] == input[start + 1] && s[2] == input[start + 2];
    if input[start + 1] == '*' {
      if input[start + 2] != ']' {
        error := Some(InvalidIndexWildcard);
        return;
      }
      segment, next := IndexWildcard, start + 3;
      return;
    }
    if input[start + 1] == '\'' || input[start + 1] == '"' {
      var quote := input[start + 1];
      var end := start + 2;
      while end < |input| && input[end] != quote
        invariant start + 2 <= end <= |input|
        invariant IndexOf(s, quote, 2) == IndexOf(s, quote, end - start)
      {
        end := end + 1;
      }
      if end >= |input| || end + 1 >= |input| || input[end + 1] != ']' {
        error := Some(UnterminatedQuotedKey);
        return;
      }
      assert input[start + 2..end] == s[2..end - start];
      segment, next := Field(input[start + 2..end]), end + 2;
      return;
    }
    var end := start + 1;
    while end < |input| && input[end] != ']'
      invariant start + 1 <= end <= |input|
      invariant IndexOf(s, ']', 1) == IndexOf(s, ']', end - start)
    {
      end := end + 1;
    }
    if end >= |input| {
      error := Some(UnterminatedIndex);
      return;
    }
    assert input[start + 1..end] == s[1..end - start];
    var number := Atoi(input[start + 1..end]);
    if number.None? {
      error := Some(InvalidIndex);
      return;
    }
    segment, next := Index(number.value), end + 1;
  }

  /** Advances to the end of an unquoted token. */
  method SkipToken(input: string, start: nat) returns (i: nat)
    requires start <= |input|
    ensures i == start + TokenLength(input[start..])
  {
    i := start;
    while i < |input| && input[i] != '.' && input[i] != '['
      invariant start <= i <= |input|
      invariant TokenLength(input[start..]) == i - start + TokenLength(input[i..])
    {
      assert input[i..][1..] == input[i + 1..];
      i := i + 1;
    }
  }

  method ParsePath(value: string) returns (r: Result<Path, PathError>)
    ensures r == Parsed(value)
  {
    hide Bracket, TokenLength, TrimSpace;
    if TrimSpace(value) == "" {
      return Err(EmptyPath);
    }
    var input := TrimSpace(value);
    var segments: Path := [];
    var i := 0;
    PrependNothing(Segments(input));
    assert input[0..] == input;
    while i < |input|
      invariant 0 <= i <= |input|
      invariant Segments(input) == Prepend(segments, Segments(input[i..]))
    {
      ghost var rest := input[i..];
      if input[i] == '.' {
        assert rest[1..] == input[i + 1..];
        i := i + 1;
      } else if input[i] == '[' {
        var segment, next, error := ParseBracketSegment(input, i);
        if error.Some? {
          return Err(error.value);
        }
        assert rest[next - i..] == input[next..];
        PrependTwice(segments, [segment], Segments(input[next..]));
        segments := segments + [segment];
        i := next;
      } else {
        var start := i;
        i := SkipToken(input, start);
        var token := input[start..i];
        assert token == rest[..i - start] && rest[i - start..] == input[i..];
        PrependTwice(segments, [TokenSegment(token)], Segments(input[i..]));
        if token == "*" {
          segments := segments + [FieldWildcard];
          continue;
        }
        segments := segments + [Field(token)];
      }
    }
    assert segments + [] == segments;
    return Ok(segments);
  }

  lemma PrependNothing(r: Result<Path, PathError>)
    ensures Prepend([], r) == r
  {
    if r.Ok? {
      assert [] + r.value == r.value;
    }
  }

  lemma PrependTwice(s: Path, t: Path, r: Result<Path, PathError>)
    ensures Prepend(s, Prepend(t, r)) == Prepend(s + t, r)
  {
    if r.Ok? {
      assert s + (t + r.value) == (s + t) + r.value;
    }
  }

  method ParsePatterns(values: seq<string>) returns (r: Result<seq<Path>, PathError>)
    ensures r == ParsedAll(values)
  {
    var patterns: seq<Path> := [];
    for i := 0 to |values|
      invariant ParsedAll(values[..i]) == Ok(patterns)
    {
      var p := ParsePath(values[i]);
      assert values[..i + 1][..i] == values[..i];
      if p.Err? {
        ParsedAllFailsEarly(values, i + 1);
        return Err(p.error);
      }
      patterns := patterns + [p.value];
    }
    assert values[..|values|] == values;
    return Ok(patterns);
  }

  /** The first malformed text decides the error. */
  lemma {:induction false} ParsedAllFailsEarly(values: seq<string>, n: nat)
    requires n <= |values| && ParsedAll(values[..n]).Err?
    ensures ParsedAll(values) == ParsedAll(values[..n])
    decreases |values|
  {
    if n < |values| {
      var init := values[..|values| - 1];
      assert init[..n] == values[..n];
      ParsedAllFailsEarly(init, n);
    } else {
      assert values[..n] == values;
    }
  }

  /** Parsing a list succeeds exactly when every text parses, and keeps order. */
  lemma {:induction false} ParsedAllPointwise(values: seq<string>)
    ensures ParsedAll(values).Ok? <==> forall v :: v in values ==> Parsed(v).Ok?
    ensures ParsedAll(values).Ok? ==>
              && |ParsedAll(values).value| == |values|
              && forall i :: 0 <= i < |values| ==> Parsed(values[i]) == Ok(ParsedAll(values).value[i])
  {
    if values != [] {
      var init, last := values[..|values| - 1], values[|values| - 1];
      ParsedAllPointwise(init);
      assert values == init + [last];
      assert last in values;
      assert forall v :: v in values <==> v in init || v == last;
    }
  }

  // ---- printer ----------------------------------------------------------

  predicate IsBareCharacter(letters: Alphabet, c: char) {
    letters(c) || c == '_' || c == '-'
  }

  predicate IsBare(letters: Alphabet, key: string) {
    key != "" && forall i :: 0 <= i < |key| ==> IsBareCharacter(letters, key[i])
  }

  method IsBareIdentifier(letters: Alphabet, value: string) returns (bare: bool)
    ensures bare == IsBare(letters, value)
  {
    if value == "" {
      return false;
    }
    for i := 0 to |value|
      invariant forall j :: 0 <= j < i ==> IsBareCharacter(letters, value[j])
    {
      var c := value[i];
      if letters(c) || c == '_' || c == '-' {
        continue;
      }
      return false;
    }
    return true;
  }

  /** `strings.ReplaceAll(key, "'", "\\'")`. */
  function Escape(key: string): string {
    if key == "" then ""
    else (if key[0] == '\'' then "\\'" else [key[0]]) + Escape(key[1..])
  }

  function Quoted(key: string): string {
    "['" + Escape(key) + "']"
  }

  /** The text of one segment; its punctuation depends on the segment before it. */
  function Rendered(letters: Alphabet, previous: Option<Segment>, segment: Segment): string {
    match segment
    case Field(key) =>
      if IsBare(letters, key) then (if previous.Some? then "." else "") + key
      else (if previous == Some(FieldWildcard) then "." else "") + Quoted(key)
    case FieldWildcard => if previous.Some? then ".*" else "*"
    case Index(n) => "[" + Decimal(n) + "]"
    case IndexWildcard => "[*]"
  }

  function RenderedFrom(letters: Alphabet, previous: Option<Segment>, path: Path): string
    decreases |path|
  {
    if path == [] then ""
    else Rendered(letters, previous, path[0]) + RenderedFrom(letters, Some(path[0]), path[1..])
  }

  function RenderedPath(letters: Alphabet, path: Path): string {
    if path == [] then "<root>" else RenderedFrom(letters, None, path)
  }

  method RenderSegment(letters: Alphabet, segments: Path, i: nat) returns (text: string)
    requires i < |segments|
    ensures text == Rendered(letters, if i == 0 then None else Some(segments[i - 1]), segments[i])
  {
    match segments[i]
    case Field(key) =>
      var bare := IsBareIdentifier(letters, key);
      if bare {
        return (if i > 0 then "." else "") + key;
      }
      if i == 0 {
        return "['" + Escape(key) + "']";
      }
      return (if segments[i - 1] == FieldWildcard then "." else "") + ("['" + Escape(key) + "']");
    case FieldWildcard =>
      return (if i > 0 then "." else "") + "*";
    case Index(n) =>
      return "[" + Decimal(n) + "]";
    case IndexWildcard =>
      return "[*]";
  }

  method RenderPath(letters: Alphabet, segments: Path) returns (text: string)
    ensures text == RenderedPath(letters, segments)
  {
    if |segments| == 0 {
      return "<root>";
    }
    text := "";
    ghost var whole := RenderedFrom(letters, None, segments);
    for i := 0 to |segments|
      invariant whole == text + RenderedFrom(letters, if i == 0 then None else Some(segments[i - 1]), segments[i..])
    {
      assert segments[i..][1..] == segments[i + 1..];
      var piece := RenderSegment(letters, segments, i);
      ghost var rest := RenderedFrom(letters, Some(segments[i]), segments[i + 1..]);
      assert text + (piece + rest) == (text + piece) + rest;
      text := text + piece;
    }
  }

  // ---- matching ---------------------------------------------------------

  predicate SegmentsMatch(pattern: Segment, actual: Segment) {
    match pattern
    case FieldWildcard => actual.Field?
    case IndexWildcard => actual.Index?
    case Field(key) => actual.Field? && key == actual.key
    case Index(n) => actual.Index? && n == actual.index
  }

  /** `actual` has the pattern's length and agrees with it segment by segment. */
  predicate Matches(pattern: Path, actual: Path) {
    && |pattern| == |actual|
    && forall i :: 0 <= i < |pattern| ==> SegmentsMatch(pattern[i], actual[i])
  }

  method MatchesPath(pattern: Path, actual: Path) returns (matched: bool)
    ensures matched == Matches(pattern, actual)
  {
    if |pattern| != |actual| {
      return false;
    }
    for i := 0 to |pattern|
      invariant forall j :: 0 <= j < i ==> SegmentsMatch(pattern[j], actual[j])
    {
      if !SegmentsMatch(pattern[i], actual[i]) {
        return false;
      }
    }
    return true;
  }

  /** A position that can occur in an object: no wildcards. */
  predicate Concrete(path: Path) {
    forall i :: 0 <= i < |path| ==> path[i].Field? || path[i].Index?
  }

  /** `prefix` agrees with the beginning of the pattern. */
  predicate LeadsTo(prefix: Path, pattern: Path) {
    && |prefix| <= |pattern|
    && forall i :: 0 <= i < |prefix| ==> SegmentsMatch(pattern[i], prefix[i])
  }

  method HasDescendantMatch(pattern: Path, prefix: Path) returns (found: bool)
    ensures found == LeadsTo(prefix, pattern)
  {
    if |prefix| > |pattern| {
      return false;
    }
    for i := 0 to |prefix|
      invariant forall j :: 0 <= j < i ==> SegmentsMatch(pattern[j], prefix[j])
    {
      if !SegmentsMatch(pattern[i], prefix[i]) {
        return false;
      }
    }
    return true;
  }

  /** A concrete path that a pattern accepts. */
  function Instance(pattern: Path): (p: Path)
    ensures Concrete(p) && Matches(pattern, p)
  {
    if pattern == [] then []
    else
      var first := match pattern[0]
                   case FieldWildcard => Field("")
                   case IndexWildcard => Index(0)
                   case other => other;
      [first] + Instance(pattern[1..])
  }

  ghost predicate HasConcreteExtension(prefix: Path, pattern: Path) {
    exists extension :: Concrete(extension) && Matches(pattern, prefix + extension)
  }

  /** The cut-off test is exact: it holds iff some concrete extension of the prefix
      matches the pattern. */
  lemma LeadsToExact(prefix: Path, pattern: Path)
    ensures LeadsTo(prefix, pattern) <==> HasConcreteExtension(prefix, pattern)
  {
    if LeadsTo(prefix, pattern) {
      var extension := Instance(pattern[|prefix|..]);
      forall i | 0 <= i < |pattern| ensures SegmentsMatch(pattern[i], (prefix + extension)[i]) {
        if i >= |prefix| {
          assert SegmentsMatch(pattern[|prefix|..][i - |prefix|], extension[i - |prefix|]);
        }
      }
      assert Matches(pattern, prefix + extension);
    }
    if HasConcreteExtension(prefix, pattern) {
      var extension :| Concrete(extension) && Matches(pattern, prefix + extension);
      forall i | 0 <= i < |prefix| ensures SegmentsMatch(pattern[i], prefix[i]) {
        assert (prefix + extension)[i] == prefix[i];
      }
    }
  }

  predicate MatchesSome(actual: Path, patterns: seq<Path>) {
    exists i :: 0 <= i < |patterns| && Matches(patterns[i], actual)
  }

  predicate LeadsToSome(prefix: Path, patterns: seq<Path>) {
    exists i :: 0 <= i < |patterns| && LeadsTo(prefix, patterns[i])
  }

  /** Some prefix of `path`, the path itself included, matches a pattern. */
  predicate Covered(path: Path, patterns: seq<Path>) {
    exists n :: 0 <= n <= |path| && MatchesSome(path[..n], patterns)
  }

  method MatchesAnyPath(current: Path, patterns: seq<Path>) returns (matched: bool)
    ensures matched == MatchesSome(current, patterns)
  {
    for i := 0 to |patterns|
      invariant forall j :: 0 <= j < i ==> !Matches(patterns[j], current)
    {
      matched := MatchesPath(patterns[i], current);
      if matched {
        return true;
      }
    }
    return false;
  }

  method HasAnyDescendantMatch(current: Path, patterns: seq<Path>) returns (found: bool)
    ensures found == LeadsToSome(current, patterns)
  {
    for i := 0 to |patterns|
      invariant forall j :: 0 <= j < i ==> !LeadsTo(current, patterns[j])
    {
      found := HasDescendantMatch(patterns[i], current);
      if found {
        return true;
      }
    }
    return false;
  }

  /** Whether a path text matches a pattern: the text is parsed again. */
  predicate TextMatchesSome(text: string, patterns: seq<Path>) {
    Parsed(text).Ok? && MatchesSome(Parsed(text).value, patterns)
  }

  method MatchAny(path: string, patterns: seq<Path>) returns (matched: bool)
    ensures matched == TextMatchesSome(path, patterns)
  {
    var actual := ParsePath(path);
    if actual.Err? {
      return false;
    }
    for i := 0 to |patterns|
      invariant forall j :: 0 <= j < i ==> !Matches(patterns[j], actual.value)
    {
      matched := MatchesPath(patterns[i], actual.value);
      if matched {
        return true;
      }
    }
    return false;
  }
}
