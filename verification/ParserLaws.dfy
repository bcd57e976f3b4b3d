/** What the parser makes of single lines and of blocks, and where and why it gives up. */
module ParserLaws {
  import opened Text
  import opened TextLaws
  import opened Rules
  import opened RuleText
  import opened RuleTextLaws
  import opened RuleTextSections
  import opened RuleTextForms
  import opened ScannerLaws
  import opened CommentLaws
  import opened RuleTextRoundTrip

  // ---- keys and values ------------------------------------------------------------------------

  /** The text is a key, a colon outside quotes, and a value. */
  ghost predicate Says(text: string, key: string, value: string) {
    key != "" && exists ps, rest :: AllProper(ps, ':') && text == Spelled(ps) + ":" + rest
                                    && Trims(Spelled(ps), key) && Trims(rest, value)
  }

  lemma SplitPairSays(text: string, key: string, value: string)
    ensures SplitPair(text) == Some(KeyValue(key, value)) <==> Says(text, key, value)
  {
    hide SplitPair, Says;
    if Says(text, key, value) {
      SaidIsSplit(text, key, value);
    }
    if SplitPair(text) == Some(KeyValue(key, value)) {
      SplitIsSaid(text, key, value);
    }
  }

  lemma SaidIsSplit(text: string, key: string, value: string)
    requires Says(text, key, value)
    ensures SplitPair(text) == Some(KeyValue(key, value))
  {
    hide SplitPair, Trims, AllProper, Spelled;
    var ps, rest :| AllProper(ps, ':') && text == Spelled(ps) + ":" + rest
      && Trims(Spelled(ps), key) && Trims(rest, value);
    assert text == Spelled(ps) + EndText(Stopped(rest), ':');
    SplitPairExact(ps, Stopped(rest), key);
    TrimsUnique(rest, SplitPair(text).value.value, value);
  }

  lemma SplitIsSaid(text: string, key: string, value: string)
    requires SplitPair(text) == Some(KeyValue(key, value))
    ensures Says(text, key, value)
  {
    hide SplitPair, Trims, AllProper, Spelled;
    var ps, e := MadeUp(text, ':');
    TrimSpaceTrims(Spelled(ps));
    SplitPairExact(ps, e, TrimSpace(Spelled(ps)));
    assert text == Spelled(ps) + ":" + e.rest;
  }

  /** The keys of the documented form. */
  predicate InlineKey(key: string) {
    key in {"mode", "priority", "bypass", "namespaces", "labels", "users", "exclude", "include", "mutable"}
  }

  predicate BlockKey(key: string) {
    key in {"selectors", "namespaces", "labels", "users", "exclude", "include", "mutable"}
  }

  predicate Bracketed(value: string) {
    |value| >= 2 && value[0] == '[' && value[|value| - 1] == ']'
  }

  lemma ListKeysExact(spec: RawSpec, key: string, items: seq<string>)
    ensures WithList(spec, key, items).Some? <==> IsListKey(key)
  {
  }

  /** What a value on the key's own line can be refused for. */
  lemma InlineFaults(spec: RawSpec, key: string, value: string)
    requires Trims(value, value) && value != ""
    ensures match WithInline(spec, key, value)
            case Err(InvalidPriority) => key == "priority" && Atoi(value).None?
            case Err(UnsupportedKey(k)) => k == key && !InlineKey(key)
            case Err(ExpectedInlineList) => IsListKey(key) && !Bracketed(value)
            case Err(_) => false
            case Ok(_) => InlineKey(key) && (key == "priority" ==> Atoi(value).Some?)
                          && (IsListKey(key) ==> Bracketed(value))
  {
    hide WithList, InlineList, Trims, TrimSpace;
    ListKeysExact(spec, key, []);
    TrimSpaceExact(value, value);
    if IsListKey(key) {
      ListOrNot(value);
      ListKeyKnown(key, [], spec);
    }
  }

  lemma ListOrNot(value: string)
    requires Trims(value, value)
    ensures if Bracketed(value) then InlineList(value).Ok? else InlineList(value) == Err(ExpectedInlineList)
  {
    hide Trims, TrimSpace;
    var inner := if Bracketed(value) then value[1..|value| - 1] else "";
    TrimSpaceTrims(inner);
    InlineListExact(value, value, TrimSpace(inner), []);
  }

  // ---- blocks of strings -----------------------------------------------------------------------

  /** A hyphen, a space, and the text of an item. */
  ghost predicate IsItemLine(line: string, item: string) {
    exists rest :: Trims(line, "- " + rest) && Trims(rest, item)
  }

  /** The line is an item, and `text` is what it says. */
  ghost predicate ItemSays(line: string, text: string) {
    exists item :: IsItemLine(line, item) && text == Scalar(item)
  }

  ghost predicate NoItem(line: string) {
    forall text :: !ItemSays(line, text)
  }

  lemma StringItemExact(line: string)
    ensures match StringItem(line)
            case Ok(text) => ItemSays(line, text) && forall t :: ItemSays(line, t) ==> t == text
            case Err(e) => e == ExpectedListItem && NoItem(line)
  {
    hide Trims, TrimSpace, Scalar;
    var trimmed := TrimSpace(line);
    TrimSpaceTrims(line);
    forall item | IsItemLine(line, item) ensures StringItem(line) == Ok(Scalar(item)) {
      var rest :| Trims(line, "- " + rest) && Trims(rest, item);
      TrimsUnique(line, "- " + rest, trimmed);
      TrimSpaceExact(rest, item);
      assert trimmed[2..] == rest && trimmed[..2] == "- ";
    }
    if IsItem(trimmed) {
      assert trimmed == "- " + trimmed[2..];
      TrimSpaceTrims(trimmed[2..]);
      assert IsItemLine(line, TrimSpace(trimmed[2..]));
    }
  }

  /** Line by line what the items of a block say, or an error if some line is no item. */
  lemma {:induction false} StringListExact(lines: seq<string>, i: nat, done: seq<string>)
    requires i <= |lines|
    ensures match StringList(lines, i, done)
            case Ok(read) =>
              && |read| == |done| + |lines| - i && read[..|done|] == done
              && forall k :: i <= k < |lines| ==> ItemSays(lines[k], read[|done| + k - i])
            case Err(e) => e == ExpectedListItem && exists k :: i <= k < |lines| && NoItem(lines[k])
    decreases |lines| - i
  {
    hide ItemSays, StringItem, NoItem;
    if i < |lines| {
      StringItemExact(lines[i]);
      match StringItem(lines[i])
      case Err(e) =>
      case Ok(item) =>
        StringListExact(lines, i + 1, done + [item]);
        assert (done + [item])[..|done|] == done;
        if StringList(lines, i + 1, done + [item]).Ok? {
          var read := StringList(lines, i + 1, done + [item]).value;
          assert read[..|done|] == read[..|done + [item]|][..|done|];
          assert read[|done|] == read[..|done + [item]|][|done|];
        }
    }
  }

  // ---- selectors ---------------------------------------------------------------------------------

  /** The line, after `start`, is a field of a selector. */
  ghost predicate FieldSays(line: string, start: string, key: string, value: string) {
    exists rest, field :: Trims(line, start + rest) && Trims(rest, field) && Says(field, key, value)
  }

  ghost predicate NoField(line: string, start: string) {
    forall key, value :: !FieldSays(line, start, key, value)
  }

  /** The value given last for a key, without its outer quotes; nothing if none is given. */
  function LastGiven(fields: seq<KeyValue>, key: string): string {
    if fields == [] then ""
    else
      var last := fields[|fields| - 1];
      if last.key == key then Scalar(last.value) else LastGiven(fields[..|fields| - 1], key)
  }

  predicate KnownFields(fields: seq<KeyValue>) {
    forall i :: 0 <= i < |fields| ==> fields[i].key in {"apiGroup", "kind"}
  }

  function GivenSelector(fields: seq<KeyValue>): ResourceSelector {
    ResourceSelector(LastGiven(fields, "apiGroup"), LastGiven(fields, "kind"))
  }

  lemma FieldAdded(fields: seq<KeyValue>, pair: KeyValue)
    ensures match WithField(GivenSelector(fields), pair.key, pair.value)
            case Ok(selector) => pair.key in {"apiGroup", "kind"} && selector == GivenSelector(fields + [pair])
            case Err(e) => pair.key !in {"apiGroup", "kind"} && e == UnsupportedSelectorField(pair.key)
  {
    hide Scalar;
    assert (fields + [pair])[..|fields|] == fields;
  }

  lemma FieldLine(line: string, start: string, text: string, key: string, value: string)
    requires Trims(line, start + text)
    ensures SplitPair(TrimSpace(text)) == Some(KeyValue(key, value)) <==> FieldSays(line, start, key, value)
  {
    hide Trims, TrimSpace, SplitPair, Says;
    TrimSpaceTrims(text);
    SplitPairSays(TrimSpace(text), key, value);
    if FieldSays(line, start, key, value) {
      var rest, field :| Trims(line, start + rest) && Trims(rest, field) && Says(field, key, value);
      TrimsUnique(line, start + rest, start + text);
      assert rest == (start + rest)[|start|..] && text == (start + text)[|start|..];
      TrimSpaceExact(text, field);
    }
  }

  /** One more line of a selector. */
  lemma WithLineExact(fields: seq<KeyValue>, line: string)
    ensures match WithLine(GivenSelector(fields), line)
            case Ok(selector) =>
              exists pair: KeyValue :: FieldSays(line, "", pair.key, pair.value) && pair.key in {"apiGroup", "kind"}
                                       && selector == GivenSelector(fields + [pair])
            case Err(UnsupportedSelectorField(key)) =>
              key !in {"apiGroup", "kind"} && exists value :: FieldSays(line, "", key, value)
            case Err(e) => e == InvalidSelectorField && NoField(line, "")
  {
    hide Trims, TrimSpace, SplitPair, FieldSays, GivenSelector, WithField;
    var text := TrimSpace(line);
    TrimSpaceTrims(line);
    assert "" + text == text;
    TrimmedKept(line, text);
    forall key, value ensures SplitPair(text) == Some(KeyValue(key, value)) <==> FieldSays(line, "", key, value) {
      FieldLine(line, "", text, key, value);
    }
    match SplitPair(text)
    case None =>
    case Some(pair) => FieldAdded(fields, pair);
  }

  /** The line that begins a selector. */
  lemma ItemFieldExact(line: string)
    ensures match ItemField(line)
            case Ok(selector) =>
              exists pair: KeyValue :: FieldSays(line, "- ", pair.key, pair.value) && pair.key in {"apiGroup", "kind"}
                                       && selector == GivenSelector([pair])
            case Err(UnsupportedSelectorField(key)) =>
              key !in {"apiGroup", "kind"} && exists value :: FieldSays(line, "- ", key, value)
            case Err(ExpectedSelectorItem) => NoItem(line)
            case Err(e) => e == InvalidSelectorItem && !NoItem(line) && NoField(line, "- ")
  {
    hide Trims, TrimSpace, SplitPair, FieldSays, WithField, ItemSays;
    var trimmed := TrimSpace(line);
    TrimSpaceTrims(line);
    StringItemExact(line);
    if IsItem(trimmed) {
      var text := trimmed[2..];
      assert trimmed == "- " + text;
      forall key, value
        ensures SplitPair(TrimSpace(text)) == Some(KeyValue(key, value)) <==> FieldSays(line, "- ", key, value)
      {
        FieldLine(line, "- ", text, key, value);
      }
      NothingGiven();
      match SplitPair(TrimSpace(text))
      case None =>
      case Some(pair) =>
        FieldAdded([], pair);
        assert [] + [pair] == [pair];
    }
  }

  lemma NothingGiven()
    ensures GivenSelector([]) == ResourceSelector("", "")
  {
  }

  /** The lines from `i` to `m` are deeper than the item, and give these fields. */
  ghost predicate Fields(lines: seq<string>, i: nat, m: nat, indent: nat, fields: seq<KeyValue>)
    requires i <= m <= |lines|
  {
    && |fields| == m - i && KnownFields(fields)
    && forall k :: i <= k < m ==>
         Indent(lines[k]) > indent && FieldSays(lines[k], "", fields[k - i].key, fields[k - i].value)
  }

  lemma {:induction false} DeeperFieldsExact(lines: seq<string>, i: nat, m: nat, indent: nat, given: seq<KeyValue>,
                                             fields: seq<KeyValue>)
    requires i <= m <= |lines| && Fields(lines, i, m, indent, fields)
    requires m < |lines| ==> Indent(lines[m]) <= indent
    ensures DeeperFields(GivenSelector(given), lines, i, indent) == Ok(Taken(GivenSelector(given + fields), m))
    decreases m - i
  {
    hide FieldSays, GivenSelector, WithLine, Indent;
    if i == m {
      assert given + fields == given;
    } else {
      LineTaken(given, lines[i], fields[0]);
      DeeperFieldsExact(lines, i + 1, m, indent, given + [fields[0]], fields[1..]);
      assert given + [fields[0]] + fields[1..] == given + fields;
    }
  }

  lemma LineTaken(given: seq<KeyValue>, line: string, pair: KeyValue)
    requires FieldSays(line, "", pair.key, pair.value) && pair.key in {"apiGroup", "kind"}
    ensures WithLine(GivenSelector(given), line) == Ok(GivenSelector(given + [pair]))
  {
    hide Trims, TrimSpace, SplitPair, FieldSays, GivenSelector, WithField;
    var text := TrimSpace(line);
    TrimSpaceTrims(line);
    assert "" + text == text;
    TrimmedKept(line, text);
    FieldLine(line, "", text, pair.key, pair.value);
    FieldAdded(given, pair);
  }

  /** A selector is its item and the deeper lines after it, whatever their indentation and
      order; of two values for one field the later counts, and the kind is required. */
  lemma SelectorItemExact(lines: seq<string>, i: nat, m: nat, first: KeyValue, fields: seq<KeyValue>)
    requires i < m <= |lines|
    requires FieldSays(lines[i], "- ", first.key, first.value) && first.key in {"apiGroup", "kind"}
    requires Fields(lines, i + 1, m, Indent(lines[i]), fields)
    requires m < |lines| ==> Indent(lines[m]) <= Indent(lines[i])
    ensures var selector := GivenSelector([first] + fields);
            SelectorItem(lines, i) == if selector.kind == "" then Err(SelectorKindRequired) else Ok(Taken(selector, m))
  {
    hide FieldSays, GivenSelector, ItemField, Indent, DeeperFields, Fields;
    ItemTaken(lines[i], first);
    DeeperFieldsExact(lines, i + 1, m, Indent(lines[i]), [first], fields);
  }

  lemma ItemTaken(line: string, pair: KeyValue)
    requires FieldSays(line, "- ", pair.key, pair.value) && pair.key in {"apiGroup", "kind"}
    ensures ItemField(line) == Ok(GivenSelector([pair]))
  {
    hide Trims, TrimSpace, SplitPair, WithField, Says, GivenSelector;
    var rest, field :| Trims(line, "- " + rest) && Trims(rest, field) && Says(field, pair.key, pair.value);
    var trimmed := TrimSpace(line);
    TrimSpaceExact(line, "- " + rest);
    assert trimmed[2..] == rest && trimmed[..2] == "- ";
    FieldLine(line, "- ", rest, pair.key, pair.value);
    FieldAdded([], pair);
    NothingGiven();
    assert [] + [pair] == [pair];
  }

  // ---- where parsing gives up -----------------------------------------------------------------

  /** A line that begins a new key. */
  ghost predicate AtTheLeft(line: string) {
    Sanitized(line) != "" && Indent(Sanitized(line)) == 0
  }

  lemma {:induction false} GatheredWithinPrefix(lines: seq<string>, at: nat, i: nat, block: seq<string>)
    requires i <= at < |lines| && AtTheLeft(lines[at])
    ensures Gathered(lines, i, 0, block) == Gathered(lines[..at], i, 0, block)
    decreases at - i
  {
    hide Sanitized, Indent;
    if i < at {
      var line := Sanitized(lines[i]);
      if line == "" {
        GatheredWithinPrefix(lines, at, i + 1, block);
      } else if Indent(line) > 0 {
        GatheredWithinPrefix(lines, at, i + 1, block + [line]);
      }
    }
  }

  /** Up to a line at the left, parsing does as if the text ended there: it fails with the
      same problem at the same line, or goes on with what was read. */
  lemma {:induction false} ParsedPrefix(lines: seq<string>, at: nat, i: nat, spec: RawSpec)
    requires i <= at < |lines| && AtTheLeft(lines[at])
    ensures ParsedFrom(lines, i, spec) == match ParsedFrom(lines[..at], i, spec)
                                          case Err(e) => Err(e)
                                          case Ok(read) => ParsedFrom(lines, at, read)
    decreases at - i
  {
    hide Sanitized, TopLevel, Assigned, Gathered, AtTheLeft;
    if i < at {
      var line := Sanitized(lines[i]);
      if line == "" {
        ParsedPrefix(lines, at, i + 1, spec);
      } else if TopLevel(line).Ok? {
        var pair, block := TopLevel(line).value, Gathered(lines, i + 1, 0, []);
        GatheredWithinPrefix(lines, at, i + 1, []);
        var next := Assigned(spec, pair, block.lines);
        if next.Ok? {
          ParsedPrefix(lines, at, if pair.value != "" then i + 1 else block.next, next.value);
        }
      }
    }
  }

  /** After lines that say something, parsing goes on with what they say. */
  lemma AfterSections(lines: seq<string>, at: nat, ss: seq<Section>)
    requires at < |lines| && AtTheLeft(lines[at])
    requires AllWritable(ss) && LaidOut(lines[..at], AllLines(ss))
    ensures ParsedFrom(lines, 0, EMPTY_SPEC) == ParsedFrom(lines, at, Said(EMPTY_SPEC, ss))
  {
    hide AllLines, Said, Writable, LaidOut, AllClean, AllCommentable, Solid, AtTheLeft, ParsedFrom, Clean, ParsedClean;
    SectionsShape(ss);
    SectionsCommentable(ss);
    LaidOutClean(lines[..at], AllLines(ss));
    SectionsRead(ss, EMPTY_SPEC);
    ParsedAgrees(lines[..at], 0, EMPTY_SPEC);
    NothingCounted(lines[..at]);
    ParsedPrefix(lines, at, 0, EMPTY_SPEC);
  }

  lemma NothingCounted(lines: seq<string>)
    ensures CleanCount(lines, 0) == 0
  {
  }

  /** What is wrong with a line at the left, by itself. */
  ghost predicate Faulty(line: string, problem: Problem) {
    match problem
    case TabsNotSupported => '\t' in line
    case ExpectedKeyValue => '\t' !in line && forall key, value :: !Says(line, key, value)
    case UnsupportedKey(key) =>
      '\t' !in line && !InlineKey(key) && exists value :: value != "" && Says(line, key, value)
    case UnsupportedBlockKey(key) => '\t' !in line && !BlockKey(key) && Says(line, key, "")
    case InvalidPriority =>
      '\t' !in line && exists value :: value != "" && Says(line, "priority", value) && Atoi(value).None?
    case ExpectedInlineList =>
      '\t' !in line && exists key, value ::
        IsListKey(key) && value != "" && Says(line, key, value) && !Bracketed(value)
    case _ => false
  }

  lemma FaultFound(line: string, problem: Problem, spec: RawSpec, block: seq<string>)
    requires Untrimmable(line) && Indent(line) == 0 && Faulty(line, problem)
    ensures match TopLevel(line)
            case Err(e) => e == problem
            case Ok(pair) => Assigned(spec, pair, block) == Err(problem)
  {
    hide Says, SplitPair, Indent, WithInline, StringList, SelectorList, InlineList, Scalar, Trims;
    TrimSpaceKeeps(line);
    forall key, value ensures SplitPair(line) == Some(KeyValue(key, value)) <==> Says(line, key, value) {
      SplitPairSays(line, key, value);
    }
    if SplitPair(line).Some? {
      var pair := SplitPair(line).value;
      ListKeysExact(spec, pair.key, []);
      ValueTrims(line, pair.key, pair.value);
      if pair.value != "" {
        InlineFaults(spec, pair.key, pair.value);
        InlineRefused(spec, pair.key, pair.value);
      }
    }
  }

  lemma ValueTrims(line: string, key: string, value: string)
    requires SplitPair(line) == Some(KeyValue(key, value))
    ensures Trims(value, value)
  {
    hide Trims, SplitPair, AllProper, Spelled;
    SplitPairSays(line, key, value);
    var ps, rest :| AllProper(ps, ':') && line == Spelled(ps) + ":" + rest
      && Trims(Spelled(ps), key) && Trims(rest, value);
    TrimmedKept(rest, value);
    TrimSpaceTrims(value);
  }

  lemma InlineRefused(spec: RawSpec, key: string, value: string)
    requires Trims(value, value) && value != ""
    ensures !InlineKey(key) ==> WithInline(spec, key, value) == Err(UnsupportedKey(key))
    ensures key == "priority" && Atoi(value).None? ==> WithInline(spec, key, value) == Err(InvalidPriority)
    ensures IsListKey(key) && !Bracketed(value) ==> WithInline(spec, key, value) == Err(ExpectedInlineList)
  {
    hide WithInline, Trims, Atoi;
    InlineFaults(spec, key, value);
  }

  /** After any sections in any layout, a faulty line is reported with its problem and its own
      line number, whatever comes after it. */
  lemma FaultLocated(text: string, at: nat, ss: seq<Section>, line: string, problem: Problem)
    requires at < |SplitLines(text)| && AllWritable(ss) && LaidOut(SplitLines(text)[..at], AllLines(ss))
    requires Shows(SplitLines(text)[at], line) && Commentable(line) && Untrimmable(line)
    requires Faulty(line, problem)
    ensures ParsedSpec(text) == Err(SpecError(at + 1, problem))
  {
    hide AllLines, Said, Writable, LaidOut, Faulty, Commentable, Ignored, SplitLines, TopLevel, Assigned, Gathered,
      Indent, Sanitized;
    var lines := SplitLines(text);
    LineShown(lines[at], line);
    AfterSections(lines, at, ss);
    FaultFound(line, problem, Said(EMPTY_SPEC, ss), Gathered(lines, at + 1, 0, []).lines);
  }

  lemma LineShown(shown: string, line: string)
    requires Shows(shown, line) && Commentable(line) && Untrimmable(line)
    ensures Sanitized(shown) == line && AtTheLeft(shown) && Indent(line) == 0
  {
    hide Commentable, Ignored, Sanitized;
    assert shown == line + shown[|line|..];
    TailIgnored(line, shown[|line|..]);
    QuotedHashKept(line);
  }

  /** The lines below a key. */
  ghost predicate BlockBetween(lines: seq<string>, i: nat, m: nat, body: seq<string>) {
    && i <= m <= |lines| && LaidOut(lines[i..m], body) && AllClean(body) && AllCommentable(body)
    && (forall k :: 0 <= k < |body| ==> Indent(body[k]) > 0)
    && (m < |lines| ==> AtTheLeft(lines[m]))
  }

  /** A block is what stands below its key, up to the next line at the left. */
  lemma BlockGathered(lines: seq<string>, i: nat, m: nat, body: seq<string>)
    requires BlockBetween(lines, i, m, body)
    ensures Gathered(lines, i, 0, []).lines == body
  {
    hide Sanitized, Indent, LaidOut, AllCommentable, Clean, GatheredClean, Gathered;
    var before, after := Clean(lines[..i]), Clean(lines[m..]);
    LaidOutClean(lines[i..m], body);
    CleanJoin(lines[..i], lines[i..m]);
    CleanJoin(lines[..i] + lines[i..m], lines[m..]);
    assert lines[..i] + lines[i..m] + lines[m..] == lines;
    CountedBefore(lines, i);
    FirstAfter(lines, m);
    var clean := before + body + after;
    forall j | |before| <= j < |before| + |body| ensures Indent(clean[j]) > 0 {
      assert clean[j] == body[j - |before|];
    }
    assert |before| + |body| < |clean| ==> clean[|before| + |body|] == after[0];
    GatheredAgrees(lines, i, 0, []);
    GatheredBody(clean, |before|, |before| + |body|, []);
    assert clean[|before|..|before| + |body|] == body;
  }

  lemma CountedBefore(lines: seq<string>, i: nat)
    requires i <= |lines|
    ensures CleanCount(lines, i) == |Clean(lines[..i])|
  {
    hide Sanitized;
    CleanToSame(lines, lines[..i], i);
  }

  lemma FirstAfter(lines: seq<string>, m: nat)
    requires m <= |lines| && (m < |lines| ==> AtTheLeft(lines[m]))
    ensures Clean(lines[m..]) != [] ==> m < |lines| && Indent(Clean(lines[m..])[0]) == 0
  {
    hide Sanitized, Indent, Clean;
    if m < |lines| {
      CleanSnoc([], lines[m]);
      CleanNothing();
      CleanJoin([lines[m]], lines[m + 1..]);
      assert [lines[m]] + lines[m + 1..] == lines[m..] && [] + [lines[m]] == [lines[m]];
    } else {
      CleanNothing();
      assert lines[m..] == [];
    }
  }

  /** What is wrong with the lines below a key. */
  ghost predicate FaultyBlock(key: string, body: seq<string>, problem: Problem) {
    || (IsListKey(key) && problem == ExpectedListItem && exists k :: 0 <= k < |body| && NoItem(body[k]))
    || (key == "selectors" && SelectorList(body, 0, []) == Err(problem))
  }

  lemma BlockRefused(spec: RawSpec, key: string, body: seq<string>, problem: Problem)
    requires FaultyBlock(key, body, problem)
    ensures WithBlock(spec, key, body) == Err(problem)
  {
    hide SelectorList, StringList, ItemSays, NoItem;
    ListKeysExact(spec, key, []);
    if key != "selectors" {
      StringListExact(body, 0, []);
      var k :| 0 <= k < |body| && NoItem(body[k]);
      NoItemSaysNothing(body[k]);
    }
  }

  lemma NoItemSaysNothing(line: string)
    requires NoItem(line)
    ensures forall text :: !ItemSays(line, text)
  {
  }

  /** A faulty block is reported at the line of its key, whatever comes after it. */
  lemma BlockFaultLocated(text: string, at: nat, m: nat, ss: seq<Section>, line: string, key: string,
                          body: seq<string>, problem: Problem)
    requires at < |SplitLines(text)| && AllWritable(ss) && LaidOut(SplitLines(text)[..at], AllLines(ss))
    requires Shows(SplitLines(text)[at], line) && Commentable(line) && Untrimmable(line)
    requires Says(line, key, "") && '\t' !in line
    requires BlockBetween(SplitLines(text), at + 1, m, body) && FaultyBlock(key, body, problem)
    ensures ParsedSpec(text) == Err(SpecError(at + 1, problem))
  {
    hide AllLines, Said, Writable, LaidOut, Commentable, Ignored, SplitLines, Gathered, Indent, Sanitized, SplitPair,
      Says, BlockBetween, WithBlock, FaultyBlock;
    var lines := SplitLines(text);
    LineShown(lines[at], line);
    AfterSections(lines, at, ss);
    SplitPairSays(line, key, "");
    TrimSpaceKeeps(line);
    BlockGathered(lines, at + 1, m, body);
    BlockRefused(Said(EMPTY_SPEC, ss), key, body, problem);
  }

  // ---- indented lines -------------------------------------------------------------------------

  /** A section on a single line. */
  predicate OnOneLine(s: Section) {
    match s
    case ListIs(_, _, inline) => inline
    case SelectorsAre(_) => false
    case _ => true
  }

  lemma ValueTop(key: string, item: string, quoted: bool)
    requires PlainKey(key) && ValueOk(item, quoted)
    ensures TopLevel(key + ": " + ValueText(item, quoted)) == Ok(KeyValue(key, ValueText(item, quoted)))
    ensures ValueText(item, quoted) != ""
  {
    hide TopLevel, WrittenValue, Sanitized, Scalar, ValueOk, ValueText;
    var value := ValueText(item, quoted);
    ValueWritten(item, quoted);
    WrittenNonEmpty(value, item);
    TopLine(key, value, item);
  }

  lemma OneLineTop(s: Section) returns (pair: KeyValue)
    requires Writable(s) && OnOneLine(s)
    ensures |LinesOf(s)| == 1 && TopLevel(LinesOf(s)[0]) == Ok(pair) && pair.value != ""
  {
    hide TopLevel, Decimal, InlineForm, WrittenValue, Sanitized, Scalar, AllQuotable, InlineItemsOk, ValueOk, ValueText,
      IsListKey;
    match s
    case ModeIs(mode, quoted) =>
      pair := KeyValue("mode", ValueText(mode, quoted));
      ValueTop("mode", mode, quoted);
    case PriorityIs(n) =>
      pair := KeyValue("priority", Decimal(n));
      NumberWritten(n);
      WrittenNonEmpty(pair.value, pair.value);
      TopLine("priority", pair.value, pair.value);
      assert "priority" + ": " == "priority: ";
    case BypassIs(bypass, quoted) =>
      pair := KeyValue("bypass", ValueText(bypass, quoted));
      ValueTop("bypass", bypass, quoted);
    case ListIs(key, items, _) =>
      pair := KeyValue(key, InlineForm(items));
      ListKeyKnown(key, items, EMPTY_SPEC);
      NotEmptyForm(items);
      InlineLineTop(key, items);
  }

  lemma OneLineAssigned(s: Section, pair: KeyValue, spec: RawSpec, block: seq<string>)
    requires Writable(s) && OnOneLine(s) && |LinesOf(s)| == 1
    requires TopLevel(LinesOf(s)[0]) == Ok(pair) && pair.value != ""
    ensures Assigned(spec, pair, block) == Ok(Applied(spec, s))
  {
    hide TopLevel, LinesOf, WithInline, Applied, Writable;
    var whole := LinesOf(s);
    SectionRead(s, [], spec);
    assert whole + [] == whole;
    assert ParsedClean(whole, 0, spec) == Ok(Applied(spec, s));
    match Assigned(spec, pair, block)
    case Err(_) =>
    case Ok(next) => assert ParsedClean(whole, 1, next) == Ok(next);
  }

  lemma {:induction false} BlankPassed(lines: seq<string>, i: nat, m: nat, spec: RawSpec)
    requires i <= m <= |lines| && forall k :: i <= k < m ==> Blank(lines[k])
    ensures ParsedFrom(lines, i, spec) == ParsedFrom(lines, m, spec)
    decreases m - i
  {
    hide Sanitized, Blank, TopLevel, Assigned, Gathered;
    if i < m {
      BlankIgnored(lines[i]);
      BlankPassed(lines, i + 1, m, spec);
    }
  }

  /** An indented line below a value is reported, with its own line number. */
  lemma IndentedLocated(text: string, at: nat, below: nat, ss: seq<Section>, s: Section, line: string)
    requires at < below < |SplitLines(text)| && AllWritable(ss) && LaidOut(SplitLines(text)[..at], AllLines(ss))
    requires Writable(s) && OnOneLine(s) && |LinesOf(s)| == 1 && Shows(SplitLines(text)[at], LinesOf(s)[0])
    requires forall k :: at < k < below ==> Blank(SplitLines(text)[k])
    requires Shows(SplitLines(text)[below], line) && Commentable(line) && !AllSpace(line) && '\t' !in line
    requires Indent(line) > 0
    ensures ParsedSpec(text) == Err(SpecError(below + 1, ExpectedTopLevelKey))
  {
    hide AllLines, Said, Writable, LaidOut, Ignored, Commentable, SplitLines, Indent, Sanitized, LinesOf, Blank,
      Applied, AllSpace, ParsedFrom, TopLevel, AllWritable;
    var lines, spec := SplitLines(text), Said(EMPTY_SPEC, ss);
    OneLineShown(lines[at], s);
    AfterSections(lines, at, ss);
    OneLinePassed(lines, at, s, spec);
    BlankPassed(lines, at + 1, below, Applied(spec, s));
    IndentedShown(lines[below], line);
    IndentedFails(lines, below, Applied(spec, s));
  }

  lemma OneLinePassed(lines: seq<string>, at: nat, s: Section, spec: RawSpec)
    requires at < |lines| && Writable(s) && OnOneLine(s) && |LinesOf(s)| == 1
    requires Sanitized(lines[at]) == LinesOf(s)[0] && AtTheLeft(lines[at])
    ensures ParsedFrom(lines, at, spec) == ParsedFrom(lines, at + 1, Applied(spec, s))
  {
    hide Writable, Gathered, Indent, Sanitized, LinesOf, Applied, ParsedFrom, TopLevel, Assigned, OnOneLine;
    var pair := OneLineTop(s);
    OneLineAssigned(s, pair, spec, Gathered(lines, at + 1, 0, []).lines);
    StepPassed(lines, at, pair, spec, Applied(spec, s));
  }

  lemma OneLineShown(shown: string, s: Section)
    requires Writable(s) && OnOneLine(s) && |LinesOf(s)| == 1 && Shows(shown, LinesOf(s)[0])
    ensures Sanitized(shown) == LinesOf(s)[0] && AtTheLeft(shown)
  {
    hide Writable, LinesOf, Commentable, Ignored, Sanitized;
    var line := LinesOf(s)[0];
    SectionShape(s);
    SectionCommentable(s);
    assert shown == line + shown[|line|..];
    TailIgnored(line, shown[|line|..]);
  }

  lemma StepPassed(lines: seq<string>, at: nat, pair: KeyValue, spec: RawSpec, next: RawSpec)
    requires at < |lines| && AtTheLeft(lines[at]) && TopLevel(Sanitized(lines[at])) == Ok(pair) && pair.value != ""
    requires Assigned(spec, pair, Gathered(lines, at + 1, 0, []).lines) == Ok(next)
    ensures ParsedFrom(lines, at, spec) == ParsedFrom(lines, at + 1, next)
  {
    hide TopLevel, Sanitized, Assigned, Gathered, Indent;
  }

  lemma IndentedShown(shown: string, line: string)
    requires Shows(shown, line) && Commentable(line) && !AllSpace(line)
    ensures Sanitized(shown) == line != ""
  {
    hide Commentable, Ignored, Sanitized;
    assert shown == line + shown[|line|..];
    TailIgnored(line, shown[|line|..]);
    QuotedHashKept(line);
  }

  lemma IndentedFails(lines: seq<string>, i: nat, spec: RawSpec)
    requires i < |lines| && Sanitized(lines[i]) != "" && '\t' !in Sanitized(lines[i]) && Indent(Sanitized(lines[i])) > 0
    ensures ParsedFrom(lines, i, spec) == Err(SpecError(i + 1, ExpectedTopLevelKey))
  {
    hide Sanitized, Indent;
  }
}
