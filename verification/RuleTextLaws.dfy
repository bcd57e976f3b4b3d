/** The layout of a rule text makes no difference, and what the scanners do with quoted text. */
module RuleTextLaws {
  import opened Text
  import opened RuleText
  import opened ScannerLaws

  // ---- layout ------------------------------------------------------------------

  /** The sanitized lines among the first `n`, without the blank ones. */
  function CleanTo(lines: seq<string>, n: nat): (clean: seq<string>)
    requires n <= |lines|
  {
    if n == 0 then []
    else CleanTo(lines, n - 1) + if Sanitized(lines[n - 1]) == "" then [] else [Sanitized(lines[n - 1])]
  }

  function Clean(lines: seq<string>): seq<string> {
    CleanTo(lines, |lines|)
  }

  /** Gathering a block from lines none of which is blank. */
  function GatheredClean(clean: seq<string>, k: nat, parent: nat, block: seq<string>): (b: Block)
    requires k <= |clean|
    ensures k <= b.next <= |clean|
    decreases |clean| - k
  {
    if k == |clean| || Indent(clean[k]) <= parent then Block(block, k)
    else GatheredClean(clean, k + 1, parent, block + [clean[k]])
  }

  /** Parsing clean lines, without line numbers. */
  function ParsedClean(clean: seq<string>, k: nat, spec: RawSpec): Result<RawSpec, Problem>
    requires k <= |clean|
    decreases |clean| - k
  {
    if k == |clean| then Ok(spec)
    else match TopLevel(clean[k])
      case Err(problem) => Err(problem)
      case Ok(pair) =>
        var block := GatheredClean(clean, k + 1, 0, []);
        match Assigned(spec, pair, block.lines)
        case Err(problem) => Err(problem)
        case Ok(next) => ParsedClean(clean, if pair.value != "" then k + 1 else block.next, next)
  }

  /** A result without the line number of its error. */
  function Outcome(r: Result<RawSpec, SpecError>): Result<RawSpec, Problem> {
    match r
    case Ok(spec) => Ok(spec)
    case Err(e) => Err(e.problem)
  }

  lemma {:induction false} CleanPrefix(lines: seq<string>, i: nat, n: nat)
    requires i <= n <= |lines|
    ensures |CleanTo(lines, i)| <= |CleanTo(lines, n)|
    ensures CleanTo(lines, n)[..|CleanTo(lines, i)|] == CleanTo(lines, i)
  {
    hide Sanitized;
    if i < n {
      CleanPrefix(lines, i, n - 1);
    }
  }

  /** A line that is not blank is the next clean line. */
  lemma CleanAt(lines: seq<string>, i: nat)
    requires i < |lines| && Sanitized(lines[i]) != ""
    ensures |CleanTo(lines, i)| < |Clean(lines)|
    ensures Clean(lines)[|CleanTo(lines, i)|] == Sanitized(lines[i])
  {
    CleanPrefix(lines, i + 1, |lines|);
    var k := |CleanTo(lines, i)|;
    assert Clean(lines)[k] == Clean(lines)[..k + 1][k];
  }

  /** Number of clean lines among the first `n`. */
  function CleanCount(lines: seq<string>, n: nat): (count: nat)
    requires n <= |lines|
    ensures count <= |Clean(lines)|
  {
    CleanPrefix(lines, n, |lines|);
    |CleanTo(lines, n)|
  }

  /** How one line moves the position among the clean lines. */
  lemma CleanStep(lines: seq<string>, i: nat)
    requires i < |lines|
    ensures var line, k := Sanitized(lines[i]), CleanCount(lines, i);
            if line == "" then CleanCount(lines, i + 1) == k
            else CleanCount(lines, i + 1) == k + 1 && k < |Clean(lines)| && Clean(lines)[k] == line
  {
    if Sanitized(lines[i]) != "" {
      CleanAt(lines, i);
    }
  }

  /** Gathering a block finds the same lines and ends at the same place. */
  predicate BlocksAgree(lines: seq<string>, g: Block, c: Block) {
    g.next <= |lines| && g.lines == c.lines && CleanCount(lines, g.next) == c.next
  }

  lemma {:induction false} GatheredAgrees(lines: seq<string>, i: nat, parent: nat, block: seq<string>)
    requires i <= |lines|
    ensures BlocksAgree(lines, Gathered(lines, i, parent, block),
                        GatheredClean(Clean(lines), CleanCount(lines, i), parent, block))
    decreases |lines| - i
  {
    hide Sanitized, Indent;
    if i < |lines| {
      var line := Sanitized(lines[i]);
      CleanStep(lines, i);
      if line == "" {
        GatheredAgrees(lines, i + 1, parent, block);
      } else if Indent(line) > parent {
        GatheredAgrees(lines, i + 1, parent, block + [line]);
      }
    }
  }

  /** The parser sees the clean lines only. */
  lemma {:induction false} ParsedAgrees(lines: seq<string>, i: nat, spec: RawSpec)
    requires i <= |lines|
    ensures Outcome(ParsedFrom(lines, i, spec)) == ParsedClean(Clean(lines), CleanCount(lines, i), spec)
    decreases |lines| - i
  {
    hide Sanitized, TopLevel, Assigned, Gathered, GatheredClean;
    if i < |lines| {
      var line := Sanitized(lines[i]);
      CleanStep(lines, i);
      if line == "" {
        ParsedAgrees(lines, i + 1, spec);
      } else if TopLevel(line).Ok? {
        var pair, block := TopLevel(line).value, Gathered(lines, i + 1, 0, []);
        GatheredAgrees(lines, i + 1, 0, []);
        var next := Assigned(spec, pair, block.lines);
        if next.Ok? {
          ParsedAgrees(lines, if pair.value != "" then i + 1 else block.next, next.value);
        }
      }
    }
  }

  /** Texts with the same clean lines parse to the same spec or the same problem. */
  lemma LayoutIrrelevant(text: string, other: string)
    requires Clean(SplitLines(text)) == Clean(SplitLines(other))
    ensures Outcome(ParsedSpec(text)) == Outcome(ParsedSpec(other))
  {
    ParsedAgrees(SplitLines(text), 0, EMPTY_SPEC);
    ParsedAgrees(SplitLines(other), 0, EMPTY_SPEC);
  }

  lemma {:induction false} CleanToSame(lines: seq<string>, other: seq<string>, n: nat)
    requires n <= |lines| && n <= |other| && lines[..n] == other[..n]
    ensures CleanTo(lines, n) == CleanTo(other, n)
  {
    if n > 0 {
      assert lines[..n - 1] == lines[..n][..n - 1] && other[..n - 1] == other[..n][..n - 1];
      assert lines[n - 1] == lines[..n][n - 1] && other[n - 1] == other[..n][n - 1];
      CleanToSame(lines, other, n - 1);
    }
  }

  lemma {:induction false} CleanAfterInsert(lines: seq<string>, at: nat, line: string, n: nat)
    requires at <= n <= |lines| && Sanitized(line) == ""
    ensures CleanTo(lines[..at] + [line] + lines[at..], n + 1) == CleanTo(lines, n)
  {
    hide Sanitized;
    var other := lines[..at] + [line] + lines[at..];
    if n == at {
      assert other[..at] == lines[..at];
      CleanToSame(lines, other, at);
    } else {
      CleanAfterInsert(lines, at, line, n - 1);
      assert other[n] == lines[n - 1];
    }
  }

  /** Inserting a blank or comment-only line anywhere changes neither the parsed spec nor
      whether, and for which problem, parsing fails. */
  lemma BlankLineIrrelevant(text: string, other: string, at: nat, line: string)
    requires at <= |SplitLines(text)| && Sanitized(line) == ""
    requires SplitLines(other) == SplitLines(text)[..at] + [line] + SplitLines(text)[at..]
    ensures Outcome(ParsedSpec(text)) == Outcome(ParsedSpec(other))
  {
    var lines := SplitLines(text);
    CleanAfterInsert(lines, at, line, |lines|);
    assert |SplitLines(other)| == |lines| + 1;
    LayoutIrrelevant(text, other);
  }

  lemma {:induction false} HashKept(before: string, comment: string) returns (left: string)
    ensures TrimRightChar(before + "#" + comment, '\r') == before + "#" + left
  {
    var line := before + "#" + comment;
    if comment != "" && comment[|comment| - 1] == '\r' {
      left := HashKept(before, comment[..|comment| - 1]);
      assert line[..|line| - 1] == before + "#" + comment[..|comment| - 1];
    } else {
      left := comment;
      assert line[|line| - 1] != '\r';
    }
  }

  lemma {:induction false} SpacesTrimmed(spaces: string)
    requires forall k :: 0 <= k < |spaces| ==> spaces[k] == ' '
    ensures TrimRightChar(spaces, ' ') == "" && TrimSpace("") == ""
  {
    if spaces != "" {
      SpacesTrimmed(spaces[..|spaces| - 1]);
    }
  }

  /** A line with nothing but spaces before a `#` is blank. */
  lemma CommentOnlyBlank(spaces: string, comment: string)
    requires forall k :: 0 <= k < |spaces| ==> spaces[k] == ' '
    ensures Sanitized(spaces + "#" + comment) == ""
  {
    var left := HashKept(spaces, comment);
    var line := spaces + "#" + left;
    PassBare(line, '#', 0, |spaces|);
    assert line[..|spaces|] == spaces;
    SpacesTrimmed(spaces);
  }

  // ---- scanning written lines -----------------------------------------------------

  /** Neither a quote nor `c` stands at `i..j`. */
  predicate Plain(s: string, c: char, i: nat, j: nat)
    requires i <= j <= |s|
  {
    forall k :: i <= k < j ==> !IsQuote(s[k]) && s[k] != c
  }

  function Quoted(item: string): string {
    "\"" + item + "\""
  }

  /** A quoted item at `i` is passed over as a whole. */
  lemma SkipQuoted(s: string, c: char, i: nat, item: string)
    requires '"' !in item && i + |item| + 2 <= |s| && s[i..i + |item| + 2] == Quoted(item)
    ensures FindUnquoted(s, c, i, None) == FindUnquoted(s, c, i + |item| + 2, None)
  {
    PassPiece(s, c, i, Literal('"', item));
  }

  /** A value as rule texts write it: a plain word or a quoted string. */
  predicate WrittenValue(value: string, item: string) {
    && '\n' !in value && value != ""
    && (|| (value == item
               && (forall k :: 0 <= k < |value| ==> !IsQuote(value[k]) && value[k] != '#' && value[k] != '\r')
               && !IsSpace(value[0]) && !IsSpace(value[|value| - 1]))
        || (value == Quoted(item) && '"' !in item))
  }

  predicate PlainKey(key: string) {
    && key != "" && !IsSpace(key[0]) && !IsSpace(key[|key| - 1])
    && forall k :: 0 <= k < |key| ==> !IsQuote(key[k]) && key[k] !in "#:\t\n"
  }

  /** A line up to a written value holds no comment if what stands before holds none. */
  lemma NoComment(before: string, value: string, item: string)
    requires WrittenValue(value, item) && Plain(before, '#', 0, |before|)
    ensures FindUnquoted(before + value, '#', 0, None) == |before + value|
  {
    var line := before + value;
    PassBare(line, '#', 0, |before|);
    if value == Quoted(item) && '"' !in item {
      assert line[|before|..|before| + |item| + 2] == Quoted(item);
      SkipQuoted(line, '#', |before|, item);
    } else {
      PassBare(line, '#', |before|, |line|);
    }
  }

  /** Such a line is clean as it stands. */
  lemma WrittenLineClean(before: string, value: string, item: string)
    requires WrittenValue(value, item) && Plain(before, '#', 0, |before|)
    ensures Sanitized(before + value) == before + value
  {
    var line := before + value;
    assert line[|line| - 1] == value[|value| - 1];
    assert !IsSpace(line[|line| - 1]) && line[|line| - 1] != '\r';
    NoComment(before, value, item);
    NotBlank(line);
  }

  lemma {:induction false} NotBlank(line: string)
    requires line != "" && !IsSpace(line[|line| - 1])
    ensures TrimLeft(line) != "" && TrimRight(TrimLeft(line)) == TrimLeft(line)
    ensures TrimSpace(line) != ""
  {
    if IsSpace(line[0]) {
      NotBlank(line[1..]);
    }
  }

  /** Spaces before text that neither starts nor ends with white space are trimmed. */
  lemma {:induction false} TrimPadding(padding: string, text: string)
    requires forall k :: 0 <= k < |padding| ==> IsSpace(padding[k])
    requires text != "" && !IsSpace(text[0]) && !IsSpace(text[|text| - 1])
    ensures TrimSpace(padding + text) == text
  {
    if padding == "" {
      assert padding + text == text;
    } else {
      assert (padding + text)[1..] == padding[1..] + text;
      TrimPadding(padding[1..], text);
    }
  }

  lemma ValueTrimmed(value: string, item: string)
    requires WrittenValue(value, item)
    ensures TrimSpace(value) == value && TrimSpace(" " + value) == value
    ensures Scalar(value) == item || (value == item && IsQuote(value[0]))
  {
    assert "" + value == value;
    TrimPadding("", value);
    TrimPadding(" ", value);
    if value == Quoted(item) && '"' !in item {
      assert value[1..|value| - 1] == item;
    }
  }

  lemma ColonFound(key: string, rest: string)
    requires PlainKey(key)
    ensures FindUnquoted(key + ":" + rest, ':', 0, None) == |key|
  {
    var line := key + ":" + rest;
    forall k | 0 <= k < |key| ensures !IsQuote(line[k]) && line[k] != ':' {
      assert line[k] == key[k];
    }
    PassBare(line, ':', 0, |key|);
  }

  lemma ColonSplit(key: string, rest: string)
    requires PlainKey(key)
    ensures SplitPair(key + ":" + rest) == Some(KeyValue(key, TrimSpace(rest)))
  {
    var line := key + ":" + rest;
    ColonFound(key, rest);
    assert line[..|key|] == key && line[|key| + 1..] == rest;
    TrimSpaceKeeps(key);
  }

  /** Splitting `key: value`. */
  lemma PairSplit(key: string, value: string, item: string)
    requires PlainKey(key) && WrittenValue(value, item)
    ensures SplitPair(key + ": " + value) == Some(KeyValue(key, value))
  {
    ColonSplit(key, " " + value);
    assert key + ":" + (" " + value) == key + ": " + value;
    ValueTrimmed(value, item);
  }

  lemma HeaderSplit(key: string)
    requires PlainKey(key)
    ensures SplitPair(key + ":") == Some(KeyValue(key, ""))
  {
    ColonSplit(key, "");
    assert key + ":" + "" == key + ":";
  }

  lemma HeaderClean(key: string)
    requires PlainKey(key)
    ensures Sanitized(key + ":") == key + ":"
    ensures TrimSpace(key + ":") == key + ":" && Indent(key + ":") == 0
  {
    var line := key + ":";
    PassBare(line, '#', 0, |line|);
    NotBlank(line);
    TrimSpaceKeeps(line);
  }

  lemma QuotedScalar(item: string)
    ensures Scalar(Quoted(item)) == item && TrimSpace(Quoted(item)) == Quoted(item)
  {
    TrimSpaceKeeps(Quoted(item));
    assert Quoted(item)[1..|Quoted(item)| - 1] == item;
  }

  lemma QuotedWritten(item: string)
    requires '"' !in item && '\n' !in item
    ensures WrittenValue(Quoted(item), item)
  {
  }
}
