/** The sections of a rule text in the documented form, read back one at a time. */
module RuleTextSections {
  import opened Text
  import opened Rules
  import opened RuleText
  import opened RuleTextLaws

  // ---- the written form ---------------------------------------------------------

  function ItemLines(items: seq<string>): (lines: seq<string>)
    ensures |lines| == |items|
  {
    seq(|items|, i requires 0 <= i < |items| => "  - " + Quoted(items[i]))
  }

  function ListLines(key: string, items: seq<string>): seq<string> {
    [key + ":"] + ItemLines(items)
  }

  function GroupLine(selector: ResourceSelector): string {
    "  - apiGroup: " + Quoted(selector.apiGroup)
  }

  function KindLine(selector: ResourceSelector): string {
    "    kind: " + Quoted(selector.kind)
  }

  /** Two lines for each selector. */
  function SelectorBody(selectors: seq<ResourceSelector>): (lines: seq<string>)
    ensures |lines| == 2 * |selectors|
  {
    if selectors == [] then []
    else
      var last := selectors[|selectors| - 1];
      SelectorBody(selectors[..|selectors| - 1]) + [GroupLine(last), KindLine(last)]
  }

  function SelectorLines(selectors: seq<ResourceSelector>): seq<string> {
    ["selectors:"] + SelectorBody(selectors)
  }

  predicate Quotable(item: string) {
    '"' !in item && '\n' !in item
  }

  predicate AllQuotable(items: seq<string>) {
    forall i :: 0 <= i < |items| ==> Quotable(items[i])
  }

  // ---- sections -------------------------------------------------------------------

  lemma {:induction false} GatheredShift(a: seq<string>, b: seq<string>, k: nat, parent: nat, block: seq<string>)
    requires k <= |b|
    ensures var g := GatheredClean(b, k, parent, block);
            GatheredClean(a + b, |a| + k, parent, block) == Block(g.lines, |a| + g.next)
    decreases |b| - k
  {
    if k < |b| && Indent(b[k]) > parent {
      GatheredShift(a, b, k + 1, parent, block + [b[k]]);
    }
  }

  /** What was read before does not matter. */
  lemma {:induction false} ParsedShift(a: seq<string>, b: seq<string>, k: nat, spec: RawSpec)
    requires k <= |b|
    ensures ParsedClean(a + b, |a| + k, spec) == ParsedClean(b, k, spec)
    decreases |b| - k
  {
    hide TopLevel, Assigned;
    if k < |b| {
      var head := TopLevel(b[k]);
      assert (a + b)[|a| + k] == b[k];
      if head.Ok? {
        var block := GatheredClean(b, k + 1, 0, []);
        GatheredShift(a, b, k + 1, 0, []);
        var next := Assigned(spec, head.value, block.lines);
        if next.Ok? {
          if head.value.value != "" {
            ParsedShift(a, b, k + 1, next.value);
          } else {
            ParsedShift(a, b, block.next, next.value);
          }
        }
      }
    }
  }

  /** The rest of a text that begins with a top-level line. */
  predicate TopFirst(rest: seq<string>) {
    rest != [] ==> Indent(rest[0]) == 0
  }

  lemma {:induction false} GatheredBody(lines: seq<string>, k: nat, m: nat, block: seq<string>)
    requires k <= m <= |lines|
    requires forall j :: k <= j < m ==> Indent(lines[j]) > 0
    requires m < |lines| ==> Indent(lines[m]) == 0
    ensures GatheredClean(lines, k, 0, block) == Block(block + lines[k..m], m)
    decreases m - k
  {
    if k < m {
      GatheredBody(lines, k + 1, m, block + [lines[k]]);
      assert block + [lines[k]] + lines[k + 1..m] == block + lines[k..m];
    }
  }

  /** Parsing goes on in `rest` with the spec of the first section, or fails with it. */
  ghost predicate Continues(whole: seq<string>, rest: seq<string>, spec: RawSpec, next: Result<RawSpec, Problem>) {
    ParsedClean(whole, 0, spec) == match next case Err(e) => Err(e) case Ok(s) => ParsedClean(rest, 0, s)
  }

  lemma InlineSection(key: string, value: string, rest: seq<string>, spec: RawSpec)
    requires TopLevel(key + ": " + value) == Ok(KeyValue(key, value)) && value != ""
    ensures Continues([key + ": " + value] + rest, rest, spec, WithInline(spec, key, value))
  {
    var line := key + ": " + value;
    var whole := [line] + rest;
    assert whole[0] == line;
    if WithInline(spec, key, value).Ok? {
      ParsedShift([line], rest, 0, WithInline(spec, key, value).value);
    }
  }

  lemma BlockSection(key: string, body: seq<string>, rest: seq<string>, spec: RawSpec)
    requires PlainKey(key) && TopFirst(rest)
    requires forall j :: 0 <= j < |body| ==> Indent(body[j]) > 0
    ensures Continues([key + ":"] + body + rest, rest, spec, WithBlock(spec, key, body))
  {
    hide Sanitized, SplitPair, WithBlock, IndentFrom;
    var head := [key + ":"] + body;
    var whole := head + rest;
    HeaderClean(key);
    HeaderSplit(key);
    HeaderTabless(key);
    assert whole[0] == key + ":";
    assert TopLevel(whole[0]) == Ok(KeyValue(key, ""));
    forall j | 1 <= j < |head| ensures Indent(whole[j]) > 0 {
      assert whole[j] == body[j - 1];
    }
    assert |head| < |whole| ==> whole[|head|] == rest[0];
    GatheredBody(whole, 1, |head|, []);
    assert [] + whole[1..|head|] == body;
    if WithBlock(spec, key, body).Ok? {
      ParsedShift(head, rest, 0, WithBlock(spec, key, body).value);
    }
  }

  lemma HeaderTabless(key: string)
    requires PlainKey(key)
    ensures '\t' !in key + ":"
  {
  }

  // ---- lists -----------------------------------------------------------------------

  lemma {:induction false} IndentReached(line: string, i: nat, n: nat)
    requires i <= n < |line| && line[n] != ' '
    requires forall k :: i <= k < n ==> line[k] == ' '
    ensures IndentFrom(line, i) == n
    decreases n - i
  {
    if i < n {
      IndentReached(line, i + 1, n);
    }
  }

  lemma ItemRead(item: string)
    requires Quotable(item)
    ensures StringItem("  - " + Quoted(item)) == Ok(item)
    ensures Indent("  - " + Quoted(item)) == 2
    ensures Sanitized("  - " + Quoted(item)) == "  - " + Quoted(item)
  {
    var text := "- " + Quoted(item);
    assert "  - " + Quoted(item) == "  " + text;
    TrimPadding("  ", text);
    IndentReached("  " + text, 0, 2);
    assert text[..2] == "- " && text[2..] == Quoted(item);
    QuotedScalar(item);
    QuotedWritten(item);
    WrittenLineClean("  - ", Quoted(item), item);
  }

  lemma {:induction false} ItemsRead(items: seq<string>, i: nat)
    requires AllQuotable(items) && i <= |items|
    ensures StringList(ItemLines(items), i, items[..i]) == Ok(items)
    decreases |items| - i
  {
    if i < |items| {
      ItemRead(items[i]);
      assert items[..i] + [items[i]] == items[..i + 1];
      ItemsRead(items, i + 1);
    } else {
      assert items[..i] == items;
    }
  }

  /** The six keys that take a list of strings. */
  predicate IsListKey(key: string) {
    key == "namespaces" || key == "exclude" || key == "labels" || key == "include" || key == "mutable" || key == "users"
  }

  lemma ListKeyKnown(key: string, items: seq<string>, spec: RawSpec)
    requires IsListKey(key)
    ensures PlainKey(key) && WithList(spec, key, items).Some? && key != "selectors"
    ensures key != "mode" && key != "bypass" && key != "priority"
  {
  }

  /** A written list is read back under its key. */
  lemma ListSection(key: string, items: seq<string>, rest: seq<string>, spec: RawSpec)
    requires IsListKey(key) && AllQuotable(items) && TopFirst(rest)
    ensures Continues(ListLines(key, items) + rest, rest, spec, Ok(WithList(spec, key, items).value))
  {
    ListKeyKnown(key, items, spec);
    ListKeyKnown(key, [], spec);
    var body := ItemLines(items);
    forall j | 0 <= j < |body| ensures Indent(body[j]) > 0 {
      ItemRead(items[j]);
    }
    ItemsRead(items, 0);
    BlockSection(key, body, rest, spec);
  }

  // ---- selectors -----------------------------------------------------------------------

  lemma SelectorPair(key: string, value: string)
    requires key == "apiGroup" || key == "kind"
    requires Quotable(value)
    ensures SplitPair(key + ": " + Quoted(value)) == Some(KeyValue(key, Quoted(value)))
    ensures Untrimmable(key + ": " + Quoted(value))
  {
    QuotedWritten(value);
    PairSplit(key, Quoted(value), value);
  }

  lemma GroupLineShape(selector: ResourceSelector)
    requires Quotable(selector.apiGroup)
    ensures var field := "apiGroup: " + Quoted(selector.apiGroup);
            TrimSpace(GroupLine(selector)) == "- " + field && TrimSpace(field) == field
    ensures Indent(GroupLine(selector)) == 2
    ensures Sanitized(GroupLine(selector)) == GroupLine(selector)
  {
    var field := "apiGroup: " + Quoted(selector.apiGroup);
    var text := "- " + field;
    assert GroupLine(selector) == "  " + text;
    TrimPadding("  ", text);
    IndentReached("  " + text, 0, 2);
    TrimSpaceKeeps(field);
    QuotedWritten(selector.apiGroup);
    WrittenLineClean("  - apiGroup: ", Quoted(selector.apiGroup), selector.apiGroup);
  }

  lemma GroupRead(selector: ResourceSelector)
    requires Quotable(selector.apiGroup)
    ensures ItemField(GroupLine(selector)) == Ok(ResourceSelector(selector.apiGroup, ""))
  {
    var field := "apiGroup: " + Quoted(selector.apiGroup);
    GroupLineShape(selector);
    SelectorPair("apiGroup", selector.apiGroup);
    assert "apiGroup" + ": " == "apiGroup: ";
    assert ("- " + field)[..2] == "- " && ("- " + field)[2..] == field;
    QuotedScalar(selector.apiGroup);
  }

  lemma KindLineShape(selector: ResourceSelector)
    requires Quotable(selector.kind)
    ensures TrimSpace(KindLine(selector)) == "kind: " + Quoted(selector.kind)
    ensures Indent(KindLine(selector)) == 4
    ensures Sanitized(KindLine(selector)) == KindLine(selector)
  {
    var field := "kind: " + Quoted(selector.kind);
    assert KindLine(selector) == "    " + field;
    TrimPadding("    ", field);
    IndentReached("    " + field, 0, 4);
    QuotedWritten(selector.kind);
    WrittenLineClean("    kind: ", Quoted(selector.kind), selector.kind);
  }

  lemma KindRead(selector: ResourceSelector)
    requires Quotable(selector.kind)
    ensures WithLine(ResourceSelector(selector.apiGroup, ""), KindLine(selector)) == Ok(selector)
  {
    KindLineShape(selector);
    SelectorPair("kind", selector.kind);
    assert "kind" + ": " == "kind: ";
    QuotedScalar(selector.kind);
  }

  predicate SelectorsWritable(selectors: seq<ResourceSelector>) {
    forall i :: 0 <= i < |selectors| ==>
      Quotable(selectors[i].apiGroup) && Quotable(selectors[i].kind) && selectors[i].kind != ""
  }

  lemma {:induction false} SelectorBodyAt(selectors: seq<ResourceSelector>, j: nat)
    requires j < |selectors|
    ensures SelectorBody(selectors)[2 * j] == GroupLine(selectors[j])
    ensures SelectorBody(selectors)[2 * j + 1] == KindLine(selectors[j])
  {
    if j < |selectors| - 1 {
      SelectorBodyAt(selectors[..|selectors| - 1], j);
    }
  }

  /** Line `i` ends the fields of the selector before it. */
  lemma FieldsEnd(selectors: seq<ResourceSelector>, j: nat, selector: ResourceSelector)
    requires SelectorsWritable(selectors) && j <= |selectors|
    ensures DeeperFields(selector, SelectorBody(selectors), 2 * j, 2) == Ok(Taken(selector, 2 * j))
  {
    if j < |selectors| {
      SelectorBodyAt(selectors, j);
      GroupLineShape(selectors[j]);
    }
  }

  lemma KindTaken(selectors: seq<ResourceSelector>, j: nat)
    requires SelectorsWritable(selectors) && j < |selectors|
    ensures DeeperFields(ResourceSelector(selectors[j].apiGroup, ""), SelectorBody(selectors), 2 * j + 1, 2)
         == Ok(Taken(selectors[j], 2 * j + 2))
  {
    hide SelectorBody, WithLine, Indent, GroupLine, KindLine;
    SelectorBodyAt(selectors, j);
    KindLineShape(selectors[j]);
    KindRead(selectors[j]);
    FieldsEnd(selectors, j + 1, selectors[j]);
  }

  lemma SelectorRead(selectors: seq<ResourceSelector>, j: nat)
    requires SelectorsWritable(selectors) && j < |selectors|
    ensures SelectorItem(SelectorBody(selectors), 2 * j) == Ok(Taken(selectors[j], 2 * j + 2))
  {
    hide SelectorBody, SelectorItem, ItemField, DeeperFields, Indent, Quotable;
    GroupTaken(selectors, j);
    KindTaken(selectors, j);
    SelectorTaken(SelectorBody(selectors), 2 * j, selectors[j]);
  }

  lemma GroupTaken(selectors: seq<ResourceSelector>, j: nat)
    requires SelectorsWritable(selectors) && j < |selectors|
    ensures ItemField(SelectorBody(selectors)[2 * j]) == Ok(ResourceSelector(selectors[j].apiGroup, ""))
    ensures Indent(SelectorBody(selectors)[2 * j]) == 2
  {
    hide ItemField, Indent, SelectorBody, GroupLine;
    SelectorBodyAt(selectors, j);
    GroupLineShape(selectors[j]);
    GroupRead(selectors[j]);
  }

  lemma SelectorTaken(lines: seq<string>, i: nat, selector: ResourceSelector)
    requires i < |lines| && selector.kind != ""
    requires ItemField(lines[i]) == Ok(ResourceSelector(selector.apiGroup, "")) && Indent(lines[i]) == 2
    requires DeeperFields(ResourceSelector(selector.apiGroup, ""), lines, i + 1, 2) == Ok(Taken(selector, i + 2))
    ensures SelectorItem(lines, i) == Ok(Taken(selector, i + 2))
  {
    hide ItemField, DeeperFields, Indent;
  }

  lemma {:induction false} SelectorsRead(selectors: seq<ResourceSelector>, j: nat)
    requires SelectorsWritable(selectors) && j <= |selectors|
    ensures SelectorList(SelectorBody(selectors), 2 * j, selectors[..j]) == Ok(selectors)
    decreases |selectors| - j
  {
    hide SelectorItem, SelectorBody;
    if j < |selectors| {
      SelectorRead(selectors, j);
      assert selectors[..j] + [selectors[j]] == selectors[..j + 1];
      SelectorsRead(selectors, j + 1);
    } else {
      assert selectors[..j] == selectors;
    }
  }

  lemma SelectorBodyDeep(selectors: seq<ResourceSelector>, j: nat)
    requires SelectorsWritable(selectors) && j < 2 * |selectors|
    ensures Indent(SelectorBody(selectors)[j]) > 0
    ensures Sanitized(SelectorBody(selectors)[j]) == SelectorBody(selectors)[j] != ""
  {
    hide Sanitized, Indent, SelectorBody, GroupLine, KindLine;
    var i := j / 2;
    SelectorBodyAt(selectors, i);
    GroupLineShape(selectors[i]);
    KindLineShape(selectors[i]);
    assert j == 2 * i || j == 2 * i + 1;
  }

  lemma SelectorBlockRead(selectors: seq<ResourceSelector>, spec: RawSpec)
    requires SelectorsWritable(selectors)
    ensures WithBlock(spec, "selectors", SelectorBody(selectors)) == Ok(spec.(selectors := selectors))
  {
    SelectorsRead(selectors, 0);
    assert selectors[..0] == [];
  }

  lemma SelectorSection(selectors: seq<ResourceSelector>, rest: seq<string>, spec: RawSpec)
    requires SelectorsWritable(selectors) && TopFirst(rest)
    ensures Continues(SelectorLines(selectors) + rest, rest, spec, Ok(spec.(selectors := selectors)))
  {
    hide SelectorBody, SelectorList, WithBlock;
    var body := SelectorBody(selectors);
    forall j | 0 <= j < |body| ensures Indent(body[j]) > 0 {
      SelectorBodyDeep(selectors, j);
    }
    SelectorBlockRead(selectors, spec);
    BlockSection("selectors", body, rest, spec);
    assert "selectors" + ":" == "selectors:";
  }

  // ---- values on the key's own line ------------------------------------------------

  lemma TopLine(key: string, value: string, item: string)
    requires PlainKey(key) && WrittenValue(value, item) && '\t' !in value
    ensures TopLevel(key + ": " + value) == Ok(KeyValue(key, value))
    ensures Sanitized(key + ": " + value) == key + ": " + value
  {
    hide FindUnquoted;
    var line := key + ": " + value;
    assert line[0] == key[0] && line[|line| - 1] == value[|value| - 1];
    TrimSpaceKeeps(line);
    PairSplit(key, value, item);
    forall k | 0 <= k < |line| ensures line[k] != '\t' {
      assert line[k] == if k < |key| then key[k] else if k < |key| + 2 then ": "[k - |key|] else value[k - |key| - 2];
    }
    assert Plain(key + ": ", '#', 0, |key + ": "|);
    WrittenLineClean(key + ": ", value, item);
  }

  lemma PlainScalar(value: string)
    requires WrittenValue(value, value) && !IsQuote(value[0])
    ensures Scalar(value) == value
  {
    ValueTrimmed(value, value);
  }

  /** A text that needs no quotes on a key's own line. */
  predicate PlainWord(item: string) {
    && Untrimmable(item)
    && forall k :: 0 <= k < |item| ==> !IsQuote(item[k]) && item[k] !in "#\t\r\n"
  }

  function ValueText(item: string, quoted: bool): string {
    if quoted then Quoted(item) else item
  }

  predicate ValueOk(item: string, quoted: bool) {
    if quoted then Quotable(item) && '\t' !in item else PlainWord(item)
  }

  lemma ValueWritten(item: string, quoted: bool)
    requires ValueOk(item, quoted)
    ensures var value := ValueText(item, quoted);
            WrittenValue(value, item) && '\t' !in value && Scalar(value) == item
  {
    if quoted {
      QuotedWritten(item);
      QuotedScalar(item);
    } else {
      PlainScalar(item);
    }
  }

  /** The mode and the bypass key. */
  lemma ValueSection(key: string, item: string, quoted: bool, rest: seq<string>, spec: RawSpec)
    requires (key == "mode" || key == "bypass") && ValueOk(item, quoted)
    ensures Continues([key + ": " + ValueText(item, quoted)] + rest, rest, spec,
                      Ok(if key == "mode" then spec.(mode := item) else spec.(bypass := item)))
    ensures AllClean([key + ": " + ValueText(item, quoted)])
  {
    hide Scalar, WrittenValue, Sanitized, TopLevel, ValueText, ValueOk;
    var value := ValueText(item, quoted);
    ValueWritten(item, quoted);
    WrittenNonEmpty(value, item);
    TopLine(key, value, item);
    InlineSection(key, value, rest, spec);
  }

  lemma WrittenNonEmpty(value: string, item: string)
    requires WrittenValue(value, item)
    ensures value != "" && '\n' !in value && !IsSpace(value[|value| - 1])
  {
  }

  lemma NumberWritten(n: int)
    ensures WrittenValue(Decimal(n), Decimal(n)) && '\t' !in Decimal(n)
  {
    DecimalChars(n);
    var s := Decimal(n);
    forall k | 0 <= k < |s|
      ensures !IsQuote(s[k]) && s[k] != '#' && s[k] != '\r' && s[k] != '\n' && s[k] != '\t' && !IsSpace(s[k])
    {
    }
  }

  lemma PrioritySection(n: int, rest: seq<string>, spec: RawSpec)
    requires IsInt(n)
    ensures Continues(["priority: " + Decimal(n)] + rest, rest, spec, Ok(spec.(priority := n)))
    ensures AllClean(["priority: " + Decimal(n)])
  {
    hide Decimal, TopLevel, Sanitized, Atoi, WrittenValue;
    NumberWritten(n);
    WrittenNonEmpty(Decimal(n), Decimal(n));
    TopLine("priority", Decimal(n), Decimal(n));
    assert "priority" + ": " == "priority: ";
    ValueTrimmed(Decimal(n), Decimal(n));
    AtoiDecimal(n);
    InlineSection("priority", Decimal(n), rest, spec);
  }

  // ---- lines and text ---------------------------------------------------------------------

  /** Lines that sanitizing leaves as they are. */
  ghost predicate AllClean(lines: seq<string>) {
    forall i :: 0 <= i < |lines| ==> Sanitized(lines[i]) == lines[i] && lines[i] != "" && '\n' !in lines[i]
  }

  lemma AllCleanJoin(a: seq<string>, b: seq<string>)
    requires AllClean(a) && AllClean(b)
    ensures AllClean(a + b)
  {
    hide Sanitized;
  }

  lemma {:induction false} CleanOfClean(lines: seq<string>, n: nat)
    requires AllClean(lines) && n <= |lines|
    ensures CleanTo(lines, n) == lines[..n]
  {
    hide Sanitized;
    if n > 0 {
      CleanOfClean(lines, n - 1);
      assert lines[..n] == lines[..n - 1] + [lines[n - 1]];
    }
  }

  lemma QuotedNoBreak(before: string, item: string)
    requires '\n' !in before && Quotable(item)
    ensures '\n' !in before + Quoted(item)
  {
    var s := before + Quoted(item);
    forall k | 0 <= k < |s| ensures s[k] != '\n' {
      if k < |before| {
        assert before[k] in before;
      } else if |before| < k < |s| - 1 {
        assert s[k] == item[k - |before| - 1];
        assert item[k - |before| - 1] in item;
      }
    }
  }

  lemma ListClean(key: string, items: seq<string>)
    requires IsListKey(key) && AllQuotable(items)
    ensures AllClean(ListLines(key, items))
  {
    hide Sanitized, Indent, StringItem;
    var lines := ListLines(key, items);
    ListKeyKnown(key, items, EMPTY_SPEC);
    HeaderClean(key);
    forall i | 0 <= i < |lines| ensures Sanitized(lines[i]) == lines[i] && lines[i] != "" && '\n' !in lines[i] {
      if i > 0 {
        ItemRead(items[i - 1]);
        QuotedNoBreak("  - ", items[i - 1]);
      }
    }
  }

  lemma SelectorsClean(selectors: seq<ResourceSelector>)
    requires SelectorsWritable(selectors)
    ensures AllClean(SelectorLines(selectors))
  {
    hide Sanitized, Indent, SelectorBody;
    var lines := SelectorLines(selectors);
    HeaderClean("selectors");
    assert "selectors" + ":" == "selectors:";
    forall i | 0 <= i < |lines| ensures Sanitized(lines[i]) == lines[i] && lines[i] != "" && '\n' !in lines[i] {
      if i > 0 {
        var j := (i - 1) / 2;
        SelectorBodyDeep(selectors, i - 1);
        SelectorBodyAt(selectors, j);
        QuotedNoBreak("  - apiGroup: ", selectors[j].apiGroup);
        QuotedNoBreak("    kind: ", selectors[j].kind);
        assert i - 1 == 2 * j || i - 1 == 2 * j + 1;
      }
    }
  }

  /** Lines put together with line breaks. */
  function Joined(lines: seq<string>): string {
    if lines == [] then ""
    else if |lines| == 1 then lines[0]
    else lines[0] + "\n" + Joined(lines[1..])
  }

  lemma NoBreak(line: string)
    requires '\n' !in line
    ensures IndexOf(line, '\n', 0) == |line|
  {
  }

  lemma SplitFirst(line: string, rest: string)
    requires '\n' !in line
    ensures SplitLines(line + "\n" + rest) == [line] + SplitLines(rest)
  {
    var text := line + "\n" + rest;
    forall k | 0 <= k < |line| ensures text[k] != '\n' {
      assert line[k] in line;
    }
    IndexOfUnique(text, '\n', 0, |line|);
    assert text[..|line|] == line && text[|line| + 1..] == rest;
  }

  lemma {:induction false} SplitJoined(lines: seq<string>)
    requires lines != [] && forall i :: 0 <= i < |lines| ==> '\n' !in lines[i]
    ensures SplitLines(Joined(lines)) == lines
  {
    if |lines| == 1 {
      NoBreak(lines[0]);
    } else {
      SplitJoined(lines[1..]);
      SplitFirst(lines[0], Joined(lines[1..]));
      assert lines == [lines[0]] + lines[1..];
    }
  }

  lemma {:induction false} TrimRightBreak(text: string)
    requires text != "" && !IsSpace(text[0]) && !IsSpace(text[|text| - 1])
    ensures TrimSpace(text + "\n") == text
  {
    var padded := text + "\n";
    assert TrimLeft(padded) == padded;
    assert padded[..|padded| - 1] == text;
    assert TrimRight(padded) == TrimRight(text);
  }

  lemma {:induction false} JoinedEnds(lines: seq<string>)
    requires lines != [] && lines[0] != "" && lines[|lines| - 1] != ""
    ensures Joined(lines) != "" && Joined(lines)[0] == lines[0][0]
    ensures Joined(lines)[|Joined(lines)| - 1] == lines[|lines| - 1][|lines[|lines| - 1]| - 1]
  {
    if |lines| > 1 {
      if lines[1] == "" || |lines| > 2 {
        JoinedLast(lines[1..]);
      } else {
        JoinedEnds(lines[1..]);
      }
    }
  }

  lemma {:induction false} JoinedLast(lines: seq<string>)
    requires lines != [] && lines[|lines| - 1] != ""
    ensures Joined(lines) != ""
    ensures Joined(lines)[|Joined(lines)| - 1] == lines[|lines| - 1][|lines[|lines| - 1]| - 1]
  {
    if |lines| > 1 {
      JoinedLast(lines[1..]);
    }
  }
}
