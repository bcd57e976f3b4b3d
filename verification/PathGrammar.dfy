/** The path language as a grammar: which texts are paths, what they denote, and what is wrong
    with the others. */
module PathGrammar {
  import opened Text
  import opened TextLaws
  import opened Paths
  import opened PathText
  import opened ScannerLaws

  // ---- the grammar -------------------------------------------------------------------------

  /** A dot, a name, `*`, `[*]`, `[number]`, or a key between brackets and quotes of either kind. */
  datatype Token =
    | Dot
    | Name(text: string)
    | Star
    | AnyItem
    | Item(text: string)
    | Key(quote: char, key: string)

  predicate ProperToken(t: Token) {
    match t
    case Name(text) => text != "" && text != "*" && '.' !in text && '[' !in text
    case Item(text) => Atoi(text).Some?
    case Key(quote, key) => (quote == '\'' || quote == '"') && quote !in key
    case _ => true
  }

  /** A name ends where a dot or a bracket begins. */
  predicate IsWord(t: Token) {
    t.Name? || t.Star?
  }

  predicate ProperTokens(ts: seq<Token>) {
    && (forall i :: 0 <= i < |ts| ==> ProperToken(ts[i]))
    && (forall i :: 0 <= i < |ts| - 1 ==> !(IsWord(ts[i]) && IsWord(ts[i + 1])))
  }

  function TokenText(t: Token): string {
    match t
    case Dot => "."
    case Name(text) => text
    case Star => "*"
    case AnyItem => "[*]"
    case Item(text) => "[" + text + "]"
    case Key(quote, key) => "[" + [quote] + key + [quote] + "]"
  }

  function TextOf(ts: seq<Token>): string {
    if ts == [] then "" else TokenText(ts[0]) + TextOf(ts[1..])
  }

  /** A dot separates, and denotes nothing. */
  function Denoted(t: Token): Path
    requires ProperToken(t)
  {
    match t
    case Dot => []
    case Name(text) => [Field(text)]
    case Star => [FieldWildcard]
    case AnyItem => [IndexWildcard]
    case Item(text) => [Index(Atoi(text).value)]
    case Key(_, key) => [Field(key)]
  }

  function PathOf(ts: seq<Token>): Path
    requires ProperTokens(ts)
  {
    if ts == [] then [] else Denoted(ts[0]) + PathOf(ts[1..])
  }

  // ---- malformed brackets ------------------------------------------------------------------

  /** What can be wrong where a bracket opens. */
  ghost predicate Malformed(rest: string, error: PathError) {
    && rest != "" && rest[0] == '['
    && match error
       case EmptyPath => false
       case UnterminatedBracket => |rest| <= 2
       case InvalidIndexWildcard => |rest| > 2 && rest[1] == '*' && rest[2] != ']'
       case UnterminatedQuotedKey =>
         && |rest| > 2 && (rest[1] == '\'' || rest[1] == '"')
         && (|| rest[1] !in rest[2..]
             || exists end :: 2 <= end < |rest| && rest[end] == rest[1] && rest[1] !in rest[2..end]
                              && (end == |rest| - 1 || rest[end + 1] != ']'))
       case UnterminatedIndex => |rest| > 2 && rest[1] !in "*'\"" && ']' !in rest
       case InvalidIndex =>
         && |rest| > 2 && rest[1] !in "*'\""
         && exists end :: 1 <= end < |rest| && rest[end] == ']' && ']' !in rest[1..end] && Atoi(rest[1..end]).None?
  }

  lemma BracketFails(rest: string, error: PathError)
    requires Malformed(rest, error)
    ensures Bracket(rest) == Err(error)
  {
    hide Atoi;
    match error
    case UnterminatedBracket =>
    case InvalidIndexWildcard =>
    case UnterminatedQuotedKey =>
      if rest[1] in rest[2..] {
        var end :| 2 <= end < |rest| && rest[end] == rest[1] && rest[1] !in rest[2..end]
          && (end == |rest| - 1 || rest[end + 1] != ']');
        FirstAt(rest, rest[1], 2, end);
      } else {
        NowhereAfter(rest, rest[1], 2);
      }
    case UnterminatedIndex => NowhereAfter(rest, ']', 1);
    case InvalidIndex =>
      var end :| 1 <= end < |rest| && rest[end] == ']' && ']' !in rest[1..end] && Atoi(rest[1..end]).None?;
      FirstAt(rest, ']', 1, end);
  }

  lemma FirstAt(s: string, c: char, from: nat, i: nat)
    requires from <= i < |s| && s[i] == c && c !in s[from..i]
    ensures IndexOf(s, c, from) == i
  {
    forall j | from <= j < i ensures s[j] != c {
      assert s[j] == s[from..i][j - from];
    }
    IndexOfUnique(s, c, from, i);
  }

  lemma NowhereAfter(s: string, c: char, from: nat)
    requires from <= |s| && c !in s[from..]
    ensures IndexOf(s, c, from) == |s|
  {
    forall j | from <= j < |s| ensures s[j] != c {
      assert s[j] == s[from..][j - from];
    }
  }

  // ---- scanning ------------------------------------------------------------------------------

  /** A text that is no continuation of a name. */
  predicate Ends(ts: seq<Token>, rest: string) {
    if ts == [] then EndsToken(rest) else !IsWord(ts[0])
  }

  lemma {:induction false} EndsText(ts: seq<Token>, rest: string)
    requires Ends(ts, rest)
    ensures EndsToken(TextOf(ts) + rest)
  {
  }

  lemma TokenScanned(t: Token, rest: string)
    requires ProperToken(t) && (IsWord(t) ==> EndsToken(rest))
    ensures Segments(TokenText(t) + rest) == Prepend(Denoted(t), Segments(rest))
  {
    hide Segments, Atoi, IndexOf;
    var text := TokenText(t);
    match t
    case Dot =>
      DotSkipped(rest);
      PrependNothing(Segments(rest));
    case Name(_) => TokenParsed(text, rest);
    case Star => TokenParsed(text, rest);
    case AnyItem =>
      var s := text + rest;
      assert s[1] == '*' && s[2] == ']';
      BracketParsed(text, IndexWildcard, rest);
    case Item(inner) =>
      ItemScanned(inner, rest);
      BracketParsed(text, Index(Atoi(inner).value), rest);
    case Key(quote, key) =>
      KeyScanned(quote, key, rest);
      BracketParsed(text, Field(key), rest);
  }

  lemma KeyScanned(quote: char, key: string, rest: string)
    requires (quote == '\'' || quote == '"') && quote !in key
    ensures var text := "[" + [quote] + key + [quote] + "]";
            Bracket(text + rest) == Ok(Scanned(Field(key), |text|))
  {
    var s := "[" + [quote] + key + [quote] + "]" + rest;
    var end := |key| + 2;
    assert s[2..end] == key && s[1] == quote && s[end] == quote && s[end + 1] == ']';
    FirstAt(s, quote, 2, end);
  }

  lemma NumberChars(text: string)
    requires Atoi(text).Some?
    ensures text != "" && ']' !in text && text[0] !in "*'\""
  {
    AtoiExact(text, Atoi(text).value);
    var signed := text[0] in "+-";
    forall k | 0 <= k < |text| ensures text[k] != ']' {
      assert signed && k > 0 ==> text[k] == text[1..][k - 1];
    }
  }

  lemma ItemScanned(inner: string, rest: string)
    requires Atoi(inner).Some?
    ensures var text := "[" + inner + "]";
            Bracket(text + rest) == Ok(Scanned(Index(Atoi(inner).value), |text|))
  {
    hide Atoi;
    var s := "[" + inner + "]" + rest;
    var end := |inner| + 1;
    NumberChars(inner);
    assert s[1..end] == inner && s[1] == inner[0] && s[end] == ']';
    FirstAt(s, ']', 1, end);
  }

  /** The tokens are read one by one, whatever follows them. */
  lemma {:induction false} TokensScanned(ts: seq<Token>, rest: string)
    requires ProperTokens(ts) && (ts != [] && IsWord(ts[|ts| - 1]) ==> EndsToken(rest))
    ensures Segments(TextOf(ts) + rest) == Prepend(PathOf(ts), Segments(rest))
    decreases |ts|
  {
    hide Segments, Denoted, TokenText, ProperToken, EndsToken;
    if ts == [] {
      assert TextOf(ts) + rest == rest;
      PrependNothing(Segments(rest));
    } else {
      var others := ts[1..];
      TokensScanned(others, rest);
      assert TextOf(ts) + rest == TokenText(ts[0]) + (TextOf(others) + rest);
      if IsWord(ts[0]) {
        assert others != [] ==> others[0] == ts[1];
        EndsText(others, rest);
      }
      TokenScanned(ts[0], TextOf(others) + rest);
      PrependTwice(Denoted(ts[0]), PathOf(others), Segments(rest));
    }
  }

  /** What a trimmed text amounts to: tokens, and possibly a malformed bracket after them. */
  datatype Shape = Fine(tokens: seq<Token>) | Broken(tokens: seq<Token>, rest: string, error: PathError)

  ghost predicate HasShape(s: string, shape: Shape) {
    match shape
    case Fine(ts) => ProperTokens(ts) && s == TextOf(ts)
    case Broken(ts, rest, error) => ProperTokens(ts) && Malformed(rest, error) && s == TextOf(ts) + rest
  }

  lemma BrokenScanned(rest: string, error: PathError)
    requires Malformed(rest, error)
    ensures Segments(rest) == Err(error)
  {
    hide Bracket, Malformed;
    BracketFails(rest, error);
    MalformedBegins(rest, error);
  }

  lemma MalformedBegins(rest: string, error: PathError)
    requires Malformed(rest, error)
    ensures rest != "" && rest[0] == '['
  {
  }

  /** A text without white space around it denotes what its tokens do, or fails with the error
      of its malformed bracket. */
  lemma SegmentsExact(s: string, shape: Shape)
    requires HasShape(s, shape)
    ensures Segments(s) == match shape
                           case Fine(ts) => Ok(PathOf(ts))
                           case Broken(_, _, error) => Err(error)
  {
    hide Segments, PathOf, Malformed;
    match shape
    case Fine(ts) =>
      assert s + "" == s;
      TokensScanned(ts, "");
      NothingLeft();
      assert PathOf(ts) + [] == PathOf(ts);
    case Broken(ts, rest, error) =>
      MalformedBegins(rest, error);
      BrokenScanned(rest, error);
      TokensScanned(ts, rest);
  }

  lemma NothingLeft()
    ensures Segments("") == Ok([])
  {
  }

  // ---- every text has a shape ----------------------------------------------------------------

  /** The first token of a text, or what is wrong with it. */
  lemma FirstToken(s: string) returns (t: Token, n: nat, error: Option<PathError>)
    requires s != ""
    ensures match error
            case Some(e) => Malformed(s, e)
            case None =>
              && 0 < n <= |s| && ProperToken(t) && s[..n] == TokenText(t)
              && (IsWord(t) ==> n == |s| || s[n] == '.' || s[n] == '[')
  {
    hide Malformed, Atoi, IndexOf;
    t, n, error := Dot, 1, None;
    if s[0] == '.' {
    } else if s[0] == '[' {
      t, n, error := FirstBracket(s);
    } else {
      n := FirstOf(s, '.', '[', '[');
      t := if s[..n] == "*" then Star else Name(s[..n]);
    }
  }

  lemma FirstBracket(s: string) returns (t: Token, n: nat, error: Option<PathError>)
    requires s != "" && s[0] == '['
    ensures match error
            case Some(e) => Malformed(s, e)
            case None => 0 < n <= |s| && ProperToken(t) && !IsWord(t) && s[..n] == TokenText(t)
  {
    hide Atoi;
    t, n, error := AnyItem, 3, None;
    if |s| <= 2 {
      error := Some(UnterminatedBracket);
    } else if s[1] == '*' {
      error := if s[2] != ']' then Some(InvalidIndexWildcard) else None;
    } else if s[1] == '\'' || s[1] == '"' {
      var i := FirstOf(s[2..], s[1], s[1], s[1]);
      var end := i + 2;
      assert s[2..end] == s[2..][..i];
      if end >= |s| - 1 || s[end + 1] != ']' {
        assert end == |s| ==> s[2..] == s[2..end];
        error := Some(UnterminatedQuotedKey);
      } else {
        t, n := Key(s[1], s[2..end]), end + 2;
        assert s[..n] == "[" + [s[1]] + s[2..end] + [s[1]] + "]";
      }
    } else {
      var i := FirstOf(s[1..], ']', ']', ']');
      var end := i + 1;
      assert s[1..end] == s[1..][..i];
      if end == |s| {
        assert s == ['['] + s[1..end];
        error := Some(UnterminatedIndex);
      } else if Atoi(s[1..end]).None? {
        error := Some(InvalidIndex);
      } else {
        t, n := Item(s[1..end]), end + 1;
        assert s[..n] == "[" + s[1..end] + "]";
      }
    }
  }

  lemma {:induction false} EveryTextShaped(s: string) returns (shape: Shape)
    ensures HasShape(s, shape)
    decreases |s|
  {
    hide Malformed, TokenText, ProperToken;
    if s == "" {
      shape := Fine([]);
    } else {
      var t, n, error := FirstToken(s);
      match error
      case Some(e) =>
        shape := Broken([], s, e);
        assert TextOf([]) + s == s;
      case None =>
        var rest := EveryTextShaped(s[n..]);
        TokenAdded(s, t, n, rest);
        shape := match rest
                 case Fine(ts) => Fine([t] + ts)
                 case Broken(ts, end, e) => Broken([t] + ts, end, e);
    }
  }

  lemma TokenAdded(s: string, t: Token, n: nat, rest: Shape)
    requires n <= |s| && ProperToken(t) && s[..n] == TokenText(t) && HasShape(s[n..], rest)
    requires IsWord(t) ==> n == |s| || s[n] == '.' || s[n] == '['
    ensures HasShape(s, match rest
                        case Fine(ts) => Fine([t] + ts)
                        case Broken(ts, end, e) => Broken([t] + ts, end, e))
  {
    hide Malformed, ProperToken;
    var ts := rest.tokens;
    assert ([t] + ts)[1..] == ts;
    assert s == s[..n] + s[n..];
    if ts != [] && IsWord(ts[0]) {
      WordBegins(ts[0]);
      assert n < |s| && s[n] == s[n..][0] == TokenText(ts[0])[0];
    }
    assert ProperTokens([t] + ts);
    if rest.Broken? {
      assert TextOf([t] + ts) + rest.rest == TokenText(t) + (TextOf(ts) + rest.rest);
    }
  }

  lemma WordBegins(t: Token)
    requires ProperToken(t) && IsWord(t)
    ensures TokenText(t) != "" && TokenText(t)[0] != '.' && TokenText(t)[0] != '['
  {
  }

  /** Every text: it is empty but for white space, or it is tokens and denotes their path, or
      a bracket in it is malformed and decides the error. */
  lemma ParsedExact(value: string, text: string) returns (shape: Shape)
    requires Trims(value, text)
    ensures HasShape(text, shape)
    ensures Parsed(value) == if text == "" then Err(EmptyPath)
                             else match shape
                                  case Fine(ts) => Ok(PathOf(ts))
                                  case Broken(_, _, error) => Err(error)
  {
    hide TrimSpace, Segments, HasShape, PathOf, Trims;
    TrimSpaceExact(value, text);
    shape := EveryTextShaped(text);
    SegmentsExact(text, shape);
  }

  // ---- printing --------------------------------------------------------------------------------

  lemma {:induction false} RenderedSnoc(letters: Alphabet, previous: Option<Segment>, path: Path, segment: Segment)
    ensures RenderedFrom(letters, previous, path + [segment])
         == RenderedFrom(letters, previous, path)
            + Rendered(letters, if path == [] then previous else Some(path[|path| - 1]), segment)
    decreases |path|
  {
    hide Rendered;
    if path == [] {
      assert (path + [segment])[1..] == [];
      assert path + [segment] == [segment];
      assert Rendered(letters, previous, segment) + "" == Rendered(letters, previous, segment);
    } else {
      assert path + [segment] == [path[0]] + (path[1..] + [segment]);
      RenderedSnoc(letters, Some(path[0]), path[1..], segment);
    }
  }

  /** A key of letters, digits, underscores and hyphens only. */
  predicate Word(letters: Alphabet, key: string) {
    key != "" && forall c :: c in key ==> letters(c) || c in "_-"
  }

  /** One segment after another: a word follows a dot, any other key stands in brackets and
      single quotes, a number and the list wildcard in brackets. */
  lemma RenderedStep(letters: Alphabet, path: Path, segment: Segment)
    ensures var text := RenderedPath(letters, path + [segment]);
            var before := if path == [] then "" else RenderedPath(letters, path);
            var dot := if path == [] then "" else ".";
            match segment
            case Field(key) =>
              && (Word(letters, key) ==> text == before + dot + key)
              && (!Word(letters, key) ==>
                    text == before + (if path != [] && path[|path| - 1] == FieldWildcard then "." else "")
                                   + "['" + Escape(key) + "']")
            case FieldWildcard => text == before + dot + "*"
            case Index(n) => text == before + "[" + Decimal(n) + "]"
            case IndexWildcard => text == before + "[*]"
  {
    hide RenderedPath, Escape, Decimal, IsBare, Word;
    RenderedAppends(letters, path, segment);
    if segment.Field? {
      WordsBare(letters, segment.key);
      var before := if path == [] then "" else RenderedPath(letters, path);
      Regrouped(before, if path == [] then "" else ".", segment.key);
      Regrouped(before, if path != [] && path[|path| - 1] == FieldWildcard then "." else "", Quoted(segment.key));
      QuotedParts(before + (if path != [] && path[|path| - 1] == FieldWildcard then "." else ""), Escape(segment.key));
    } else if segment.Index? {
      IndexParts(if path == [] then "" else RenderedPath(letters, path), Decimal(segment.index));
    }
  }

  lemma Regrouped(a: string, b: string, c: string)
    ensures a + (b + c) == a + b + c
  {
  }

  lemma QuotedParts(before: string, key: string)
    ensures before + ("['" + key + "']") == before + "['" + key + "']"
  {
  }

  lemma IndexParts(before: string, number: string)
    ensures before + ("[" + number + "]") == before + "[" + number + "]"
  {
  }

  lemma RenderedAppends(letters: Alphabet, path: Path, segment: Segment)
    ensures RenderedPath(letters, path + [segment])
         == (if path == [] then "" else RenderedPath(letters, path))
            + Rendered(letters, if path == [] then None else Some(path[|path| - 1]), segment)
  {
    hide RenderedFrom, Rendered;
    RenderedSnoc(letters, None, path, segment);
    NothingRendered(letters);
  }

  lemma NothingRendered(letters: Alphabet)
    ensures RenderedFrom(letters, None, []) == ""
  {
  }

  lemma WordsBare(letters: Alphabet, key: string)
    ensures IsBare(letters, key) <==> Word(letters, key)
  {
    if IsBare(letters, key) {
      forall c | c in key ensures letters(c) || c in "_-" {
        var i :| 0 <= i < |key| && key[i] == c;
        assert IsBareCharacter(letters, key[i]);
      }
    }
    if Word(letters, key) {
      forall i | 0 <= i < |key| ensures IsBareCharacter(letters, key[i]) {
        assert key[i] in key;
      }
    }
  }

  /** Escaping goes character by character, and touches single quotes only. */
  lemma {:induction false} EscapeStep(before: string, c: char)
    ensures Escape(before + [c]) == Escape(before) + if c == '\'' then "\\'" else [c]
  {
    if before == "" {
      assert before + [c] == [c] && [c][1..] == "";
    } else {
      assert (before + [c])[1..] == before[1..] + [c];
      EscapeStep(before[1..], c);
    }
  }

  // ---- wildcards -------------------------------------------------------------------------------

  /** A pattern matches the positions that filling its wildcards gives: `*` stands for any one
      key and `[*]` for any one number. */
  lemma MatchesExact(pattern: Path, actual: Path)
    ensures Matches(pattern, actual) <==>
              && |pattern| == |actual|
              && forall i :: 0 <= i < |pattern| ==>
                   || (actual[i] == pattern[i] && actual[i] != FieldWildcard && actual[i] != IndexWildcard)
                   || (pattern[i] == FieldWildcard && exists key :: actual[i] == Field(key))
                   || (pattern[i] == IndexWildcard && exists n :: actual[i] == Index(n))
  {
    if |pattern| == |actual| {
      forall i | 0 <= i < |pattern|
        ensures SegmentsMatch(pattern[i], actual[i])
           <==> || (actual[i] == pattern[i] && actual[i] != FieldWildcard && actual[i] != IndexWildcard)
                || (pattern[i] == FieldWildcard && exists key :: actual[i] == Field(key))
                || (pattern[i] == IndexWildcard && exists n :: actual[i] == Index(n))
      {
        assert actual[i].Field? ==> actual[i] == Field(actual[i].key);
        assert actual[i].Index? ==> actual[i] == Index(actual[i].index);
      }
    }
  }
}
