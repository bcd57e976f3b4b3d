/** The text form of a rule: the line scanner and the parser of `pkg/rules/config.go`. */
module RuleText {
  import opened Text
  import opened Rules

  datatype Problem =
    | TabsNotSupported
    | ExpectedTopLevelKey
    | ExpectedKeyValue
    | InvalidPriority
    | UnsupportedKey(key: string)
    | UnsupportedBlockKey(key: string)
    | ExpectedInlineList
    | ExpectedListItem
    | ExpectedSelectorItem
    | InvalidSelectorItem
    | InvalidSelectorField
    | UnsupportedSelectorField(key: string)
    | SelectorKindRequired

  /** A problem and the line it was found at, counted from 1. */
  datatype SpecError = SpecError(line: nat, problem: Problem)

  datatype RawSpec = RawSpec(
    mode: string,
    priority: int,
    namespaces: seq<string>,
    selectors: seq<ResourceSelector>,
    labels: seq<string>,
    exclude: seq<string>,
    includes: seq<string>,
    mutable: seq<string>,
    users: seq<string>,
    bypass: string)

  const EMPTY_SPEC: RawSpec := RawSpec("", 0, [], [], [], [], [], [], [], "")

  // ---- one line ----------------------------------------------------------------

  predicate IsQuote(c: char) {
    c == '\'' || c == '"'
  }

  /** The open quote after reading a quote character. */
  function Toggle(open: Option<char>, c: char): Option<char> {
    if open.None? then Some(c) else if open.value == c then None else open
  }

  /** Position of the first `c` outside quotes at or after `i`, or the length of the text;
      `open` is the quote that is open at `i`. */
  function FindUnquoted(s: string, c: char, i: nat, open: Option<char>): (n: nat)
    requires i <= |s|
    ensures i <= n <= |s|
    decreases |s| - i
  {
    if i == |s| then i
    else if IsQuote(s[i]) then FindUnquoted(s, c, i + 1, Toggle(open, s[i]))
    else if s[i] == c && open.None? then i
    else FindUnquoted(s, c, i + 1, open)
  }

  function WithoutComment(line: string): string {
    var i := FindUnquoted(line, '#', 0, None);
    if i < |line| then TrimRightChar(line[..i], ' ') else line
  }

  function Sanitized(line: string): string {
    var text := WithoutComment(TrimRightChar(line, '\r'));
    if TrimSpace(text) == "" then "" else text
  }

  function IndentFrom(line: string, i: nat): (n: nat)
    requires i <= |line|
    ensures i <= n <= |line|
    decreases |line| - i
  {
    if i < |line| && line[i] == ' ' then IndentFrom(line, i + 1) else i
  }

  /** Number of leading spaces. */
  function Indent(line: string): nat {
    IndentFrom(line, 0)
  }

  datatype KeyValue = KeyValue(key: string, value: string)

  function SplitPair(line: string): Option<KeyValue> {
    var i := FindUnquoted(line, ':', 0, None);
    if i == |line| || TrimSpace(line[..i]) == "" then None
    else Some(KeyValue(TrimSpace(line[..i]), TrimSpace(line[i + 1..])))
  }

  /** `parseScalar`, which never fails. */
  function Scalar(value: string): string {
    var trimmed := TrimSpace(value);
    if |trimmed| >= 2 && IsQuote(trimmed[0]) && trimmed[|trimmed| - 1] == trimmed[0] then trimmed[1..|trimmed| - 1]
    else trimmed
  }

  /** Splits at commas outside quotes: `items` are complete, the next one begins at `start`,
      and reading stands at `i` with the quote `open`. */
  function InlineItems(content: string, start: nat, i: nat, open: Option<char>, items: seq<string>): seq<string>
    requires start <= i <= |content|
    decreases |content| - i
  {
    if i == |content| then items + [Scalar(TrimSpace(content[start..]))]
    else if IsQuote(content[i]) then InlineItems(content, start, i + 1, Toggle(open, content[i]), items)
    else if content[i] == ',' && open.None? then
      InlineItems(content, i + 1, i + 1, None, items + [Scalar(TrimSpace(content[start..i]))])
    else InlineItems(content, start, i + 1, open, items)
  }

  function InlineList(value: string): Result<seq<string>, Problem> {
    var trimmed := TrimSpace(value);
    if trimmed == "[]" then Ok([])
    else if trimmed == "" || trimmed[0] != '[' || trimmed[|trimmed| - 1] != ']' then Err(ExpectedInlineList)
    else
      var content := TrimSpace(trimmed[1..|trimmed| - 1]);
      if content == "" then Ok([]) else Ok(InlineItems(content, 0, 0, None, []))
  }

  // ---- blocks ---------------------------------------------------------------------

  predicate IsItem(trimmed: string) {
    |trimmed| >= 2 && trimmed[..2] == "- "
  }

  function StringItem(line: string): Result<string, Problem> {
    var trimmed := TrimSpace(line);
    if IsItem(trimmed) then Ok(Scalar(TrimSpace(trimmed[2..]))) else Err(ExpectedListItem)
  }

  /** Appends the items on the lines from `i` on. */
  function StringList(lines: seq<string>, i: nat, items: seq<string>): Result<seq<string>, Problem>
    requires i <= |lines|
    decreases |lines| - i
  {
    if i == |lines| then Ok(items)
    else match StringItem(lines[i])
      case Err(e) => Err(e)
      case Ok(item) => StringList(lines, i + 1, items + [item])
  }

  function WithField(selector: ResourceSelector, key: string, value: string): Result<ResourceSelector, Problem> {
    if key == "apiGroup" then Ok(selector.(apiGroup := Scalar(value)))
    else if key == "kind" then Ok(selector.(kind := Scalar(value)))
    else Err(UnsupportedSelectorField(key))
  }

  /** A selector and the line after the last one it was read from. */
  datatype Taken = Taken(selector: ResourceSelector, next: nat)

  function WithLine(selector: ResourceSelector, line: string): Result<ResourceSelector, Problem> {
    match SplitPair(TrimSpace(line))
    case None => Err(InvalidSelectorField)
    case Some(pair) => WithField(selector, pair.key, pair.value)
  }

  /** Assigns the fields on the lines from `i` on that are indented deeper than `indent`. */
  function DeeperFields(selector: ResourceSelector, lines: seq<string>, i: nat, indent: nat)
    : (r: Result<Taken, Problem>)
    requires i <= |lines|
    ensures r.Ok? ==> i <= r.value.next <= |lines|
    decreases |lines| - i
  {
    if i == |lines| || Indent(lines[i]) <= indent then Ok(Taken(selector, i))
    else match WithLine(selector, lines[i])
      case Err(e) => Err(e)
      case Ok(next) => DeeperFields(next, lines, i + 1, indent)
  }

  /** The first field of a selector, which stands on the item line itself. */
  function ItemField(line: string): Result<ResourceSelector, Problem> {
    var trimmed := TrimSpace(line);
    if !IsItem(trimmed) then Err(ExpectedSelectorItem)
    else match SplitPair(TrimSpace(trimmed[2..]))
      case None => Err(InvalidSelectorItem)
      case Some(pair) => WithField(ResourceSelector("", ""), pair.key, pair.value)
  }

  /** The selector whose item stands at line `i`. */
  function SelectorItem(lines: seq<string>, i: nat): (r: Result<Taken, Problem>)
    requires i < |lines|
    ensures r.Ok? ==> i < r.value.next <= |lines|
  {
    match ItemField(lines[i])
    case Err(e) => Err(e)
    case Ok(first) =>
      match DeeperFields(first, lines, i + 1, Indent(lines[i]))
      case Err(e) => Err(e)
      case Ok(t) => if t.selector.kind == "" then Err(SelectorKindRequired) else Ok(t)
  }

  /** Appends the selectors on the lines from `i` on. */
  function SelectorList(lines: seq<string>, i: nat, selectors: seq<ResourceSelector>)
    : Result<seq<ResourceSelector>, Problem>
    requires i <= |lines|
    decreases |lines| - i
  {
    if i == |lines| then Ok(selectors)
    else match SelectorItem(lines, i)
      case Err(e) => Err(e)
      case Ok(t) => SelectorList(lines, t.next, selectors + [t.selector])
  }

  // ---- keys -----------------------------------------------------------------------

  /** Stores a list under its key; None if the key takes no list of strings. */
  function WithList(spec: RawSpec, key: string, items: seq<string>): Option<RawSpec> {
    if key == "namespaces" then Some(spec.(namespaces := items))
    else if key == "exclude" then Some(spec.(exclude := items))
    else if key == "labels" then Some(spec.(labels := items))
    else if key == "include" then Some(spec.(includes := items))
    else if key == "mutable" then Some(spec.(mutable := items))
    else if key == "users" then Some(spec.(users := items))
    else None
  }

  function WithInline(spec: RawSpec, key: string, value: string): Result<RawSpec, Problem> {
    if key == "mode" then Ok(spec.(mode := Scalar(value)))
    else if key == "bypass" then Ok(spec.(bypass := Scalar(value)))
    else if key == "priority" then
      match Atoi(TrimSpace(value))
      case None => Err(InvalidPriority)
      case Some(n) => Ok(spec.(priority := n))
    else if WithList(spec, key, []).None? then Err(UnsupportedKey(key))
    else match InlineList(value)
      case Err(e) => Err(e)
      case Ok(items) => Ok(WithList(spec, key, items).value)
  }

  function WithBlock(spec: RawSpec, key: string, block: seq<string>): Result<RawSpec, Problem> {
    if key == "selectors" then
      match SelectorList(block, 0, [])
      case Err(e) => Err(e)
      case Ok(items) => Ok(spec.(selectors := items))
    else if WithList(spec, key, []).None? then Err(UnsupportedBlockKey(key))
    else match StringList(block, 0, [])
      case Err(e) => Err(e)
      case Ok(items) => Ok(WithList(spec, key, items).value)
  }

  // ---- whole texts ------------------------------------------------------------------

  function SplitLines(s: string): (lines: seq<string>)
    ensures lines != []
    decreases |s|
  {
    var i := IndexOf(s, '\n', 0);
    if i == |s| then [s] else [s[..i]] + SplitLines(s[i + 1..])
  }

  datatype Block = Block(lines: seq<string>, next: nat)

  /** Appends the sanitized lines from `i` on that are indented deeper than `parent`, passing
      over blank lines; says where the block ends. */
  function Gathered(lines: seq<string>, i: nat, parent: nat, block: seq<string>): (b: Block)
    requires i <= |lines|
    ensures i <= b.next <= |lines|
    decreases |lines| - i
  {
    if i == |lines| then Block(block, i)
    else
      var line := Sanitized(lines[i]);
      if line == "" then Gathered(lines, i + 1, parent, block)
      else if Indent(line) <= parent then Block(block, i)
      else Gathered(lines, i + 1, parent, block + [line])
  }

  /** A top-level line: a key, with a value or with a block below it. */
  function TopLevel(line: string): Result<KeyValue, Problem> {
    if '\t' in line then Err(TabsNotSupported)
    else if Indent(line) != 0 then Err(ExpectedTopLevelKey)
    else match SplitPair(TrimSpace(line))
      case None => Err(ExpectedKeyValue)
      case Some(pair) => Ok(pair)
  }

  function Assigned(spec: RawSpec, pair: KeyValue, block: seq<string>): Result<RawSpec, Problem> {
    if pair.value != "" then WithInline(spec, pair.key, pair.value) else WithBlock(spec, pair.key, block)
  }

  /** Parses the lines from `i` on into `spec`. */
  function ParsedFrom(lines: seq<string>, i: nat, spec: RawSpec): Result<RawSpec, SpecError>
    requires i <= |lines|
    decreases |lines| - i
  {
    if i == |lines| then Ok(spec)
    else if Sanitized(lines[i]) == "" then ParsedFrom(lines, i + 1, spec)
    else match TopLevel(Sanitized(lines[i]))
      case Err(problem) => Err(SpecError(i + 1, problem))
      case Ok(pair) =>
        var block := Gathered(lines, i + 1, 0, []);
        match Assigned(spec, pair, block.lines)
        case Err(problem) => Err(SpecError(i + 1, problem))
        case Ok(next) => ParsedFrom(lines, if pair.value != "" then i + 1 else block.next, next)
  }

  function ParsedSpec(text: string): Result<RawSpec, SpecError> {
    ParsedFrom(SplitLines(text), 0, EMPTY_SPEC)
  }

  // ---- the scanners -------------------------------------------------------------------

  method StripComment(line: string) returns (text: string)
    ensures text == WithoutComment(line)
  {
    var inQuotes := false;
    var quoteChar := '\0';
    for i := 0 to |line|
      invariant FindUnquoted(line, '#', 0, None)
             == FindUnquoted(line, '#', i, if inQuotes then Some(quoteChar) else None)
    {
      if line[i] == '\'' || line[i] == '"' {
        if !inQuotes {
          inQuotes, quoteChar := true, line[i];
        } else if quoteChar == line[i] {
          inQuotes := false;
        }
      } else if line[i] == '#' {
        if !inQuotes {
          return TrimRightChar(line[..i], ' ');
        }
      }
    }
    return line;
  }

  method SanitizeLine(line: string) returns (text: string)
    ensures text == Sanitized(line)
  {
    text := StripComment(TrimRightChar(line, '\r'));
    if TrimSpace(text) == "" {
      return "";
    }
  }

  method CountIndent(line: string) returns (count: nat)
    ensures count == Indent(line)
  {
    count := 0;
    while count < |line|
      invariant count <= |line|
      invariant Indent(line) == IndentFrom(line, count)
    {
      if line[count] != ' ' {
        break;
      }
      count := count + 1;
    }
  }

  method SplitKeyValue(line: string) returns (pair: Option<KeyValue>)
    ensures pair == SplitPair(line)
  {
    var inQuotes := false;
    var quoteChar := '\0';
    for i := 0 to |line|
      invariant FindUnquoted(line, ':', 0, None)
             == FindUnquoted(line, ':', i, if inQuotes then Some(quoteChar) else None)
    {
      if line[i] == '\'' || line[i] == '"' {
        if !inQuotes {
          inQuotes, quoteChar := true, line[i];
        } else if quoteChar == line[i] {
          inQuotes := false;
        }
      } else if line[i] == ':' {
        if !inQuotes {
          var key, value := TrimSpace(line[..i]), TrimSpace(line[i + 1..]);
          if key == "" {
            return None;
          }
          return Some(KeyValue(key, value));
        }
      }
    }
    return None;
  }

  method ParseInlineList(value: string) returns (r: Result<seq<string>, Problem>)
    ensures r == InlineList(value)
  {
    var trimmed := TrimSpace(value);
    if trimmed == "[]" {
      return Ok([]);
    }
    if trimmed == "" || trimmed[0] != '[' || trimmed[|trimmed| - 1] != ']' {
      return Err(ExpectedInlineList);
    }
    var content := TrimSpace(trimmed[1..|trimmed| - 1]);
    if content == "" {
      return Ok([]);
    }
    var items := SplitItems(content);
    return Ok(items);
  }

  method SplitItems(content: string) returns (items: seq<string>)
    ensures items == InlineItems(content, 0, 0, None, [])
  {
    items := [];
    var start := 0;
    var inQuotes := false;
    var quoteChar := '\0';
    for i := 0 to |content|
      invariant start <= i
      invariant InlineItems(content, 0, 0, None, [])
             == InlineItems(content, start, i, if inQuotes then Some(quoteChar) else None, items)
    {
      if content[i] == '\'' || content[i] == '"' {
        if !inQuotes {
          inQuotes, quoteChar := true, content[i];
        } else if quoteChar == content[i] {
          inQuotes := false;
        }
      } else if content[i] == ',' {
        if !inQuotes {
          items := items + [Scalar(TrimSpace(content[start..i]))];
          start := i + 1;
        }
      }
    }
    items := items + [Scalar(TrimSpace(content[start..]))];
  }

  method GatherIndentedBlock(lines: seq<string>, start: nat, parentIndent: nat) returns (block: seq<string>, next: nat)
    requires start <= |lines|
    ensures Block(block, next) == Gathered(lines, start, parentIndent, [])
  {
    block := [];
    next := start;
    while next < |lines|
      invariant start <= next <= |lines|
      invariant Gathered(lines, start, parentIndent, []) == Gathered(lines, next, parentIndent, block)
    {
      var line := SanitizeLine(lines[next]);
      if line == "" {
        next := next + 1;
        continue;
      }
      var indent := CountIndent(line);
      if indent <= parentIndent {
        break;
      }
      block := block + [line];
      next := next + 1;
    }
  }

  method ParseStringList(lines: seq<string>) returns (r: Result<seq<string>, Problem>)
    ensures r == StringList(lines, 0, [])
  {
    var result: seq<string> := [];
    for i := 0 to |lines|
      invariant StringList(lines, 0, []) == StringList(lines, i, result)
    {
      var trimmed := TrimSpace(lines[i]);
      if !IsItem(trimmed) {
        return Err(ExpectedListItem);
      }
      var value := Scalar(TrimSpace(trimmed[2..]));
      result := result + [value];
    }
    return Ok(result);
  }

  /** Assigns one field of the selector that the caller points to. */
  method AssignSelectorField(selector: ResourceSelector, key: string, value: string)
    returns (r: Result<ResourceSelector, Problem>)
    ensures r == WithField(selector, key, value)
  {
    var scalar := Scalar(value);
    match key
    case "apiGroup" => return Ok(selector.(apiGroup := scalar));
    case "kind" => return Ok(selector.(kind := scalar));
    case _ => return Err(UnsupportedSelectorField(key));
  }

  method AssignSelectorLine(selector: ResourceSelector, line: string) returns (r: Result<ResourceSelector, Problem>)
    ensures r == WithLine(selector, line)
  {
    var pair := SplitKeyValue(TrimSpace(line));
    if pair.None? {
      return Err(InvalidSelectorField);
    }
    r := AssignSelectorField(selector, pair.value.key, pair.value.value);
  }

  /** Reads the deeper lines from line `start` on into the selector. */
  method TakeDeeper(first: ResourceSelector, lines: seq<string>, start: nat, itemIndent: nat)
    returns (r: Result<Taken, Problem>)
    requires start <= |lines|
    ensures r == DeeperFields(first, lines, start, itemIndent)
  {
    var selector := first;
    var i := start;
    while i < |lines|
      invariant start <= i <= |lines|
      invariant DeeperFields(first, lines, start, itemIndent) == DeeperFields(selector, lines, i, itemIndent)
    {
      var indent := CountIndent(lines[i]);
      if indent <= itemIndent {
        break;
      }
      var next := AssignSelectorLine(selector, lines[i]);
      if next.Err? {
        return Err(next.error);
      }
      selector, i := next.value, i + 1;
    }
    return Ok(Taken(selector, i));
  }

  /** The selector item at line `i`. */
  method ParseSelectorItem(lines: seq<string>, i: nat) returns (r: Result<Taken, Problem>)
    requires i < |lines|
    ensures r == SelectorItem(lines, i)
  {
    var first := ParseItemField(lines[i]);
    if first.Err? {
      return Err(first.error);
    }
    var itemIndent := CountIndent(lines[i]);
    var taken := TakeDeeper(first.value, lines, i + 1, itemIndent);
    if taken.Err? {
      return Err(taken.error);
    }
    if taken.value.selector.kind == "" {
      return Err(SelectorKindRequired);
    }
    return taken;
  }

  method ParseItemField(line: string) returns (r: Result<ResourceSelector, Problem>)
    ensures r == ItemField(line)
  {
    var trimmed := TrimSpace(line);
    if !IsItem(trimmed) {
      return Err(ExpectedSelectorItem);
    }
    var pair := SplitKeyValue(TrimSpace(trimmed[2..]));
    if pair.None? {
      return Err(InvalidSelectorItem);
    }
    r := AssignSelectorField(ResourceSelector("", ""), pair.value.key, pair.value.value);
  }

  method ParseSelectorList(lines: seq<string>) returns (r: Result<seq<ResourceSelector>, Problem>)
    ensures r == SelectorList(lines, 0, [])
  {
    var selectors: seq<ResourceSelector> := [];
    var i := 0;
    while i < |lines|
      invariant i <= |lines|
      invariant SelectorList(lines, 0, []) == SelectorList(lines, i, selectors)
    {
      var item := ParseSelectorItem(lines, i);
      if item.Err? {
        return Err(item.error);
      }
      selectors, i := selectors + [item.value.selector], item.value.next;
    }
    return Ok(selectors);
  }

  /** The spec under construction. */
  class SpecFields {
    var spec: RawSpec

    constructor ()
      ensures spec == EMPTY_SPEC
    {
      spec := EMPTY_SPEC;
    }

    /** Stores a list of strings under its key. */
    method AssignList(key: string, items: seq<string>)
      requires WithList(spec, key, []).Some?
      modifies this
      ensures Some(spec) == WithList(old(spec), key, items)
    {
      match key
      case "namespaces" => spec := spec.(namespaces := items);
      case "exclude" => spec := spec.(exclude := items);
      case "labels" => spec := spec.(labels := items);
      case "include" => spec := spec.(includes := items);
      case "mutable" => spec := spec.(mutable := items);
      case _ => spec := spec.(users := items);
    }

    method AssignInlineValue(key: string, value: string) returns (problem: Option<Problem>)
      modifies this
      ensures match WithInline(old(spec), key, value)
              case Err(e) => problem == Some(e)
              case Ok(next) => problem == None && spec == next
    {
      problem := None;
      if key == "mode" {
        spec := spec.(mode := Scalar(value));
      } else if key == "priority" {
        var number := Atoi(TrimSpace(value));
        if number.None? {
          return Some(InvalidPriority);
        }
        spec := spec.(priority := number.value);
      } else if key == "bypass" {
        spec := spec.(bypass := Scalar(value));
      } else if key in ["namespaces", "exclude", "labels", "include", "mutable", "users"] {
        var items := ParseInlineList(value);
        if items.Err? {
          return Some(items.error);
        }
        AssignList(key, items.value);
      } else {
        return Some(UnsupportedKey(key));
      }
    }

    method AssignBlockValue(key: string, block: seq<string>) returns (problem: Option<Problem>)
      modifies this
      ensures match WithBlock(old(spec), key, block)
              case Err(e) => problem == Some(e)
              case Ok(next) => problem == None && spec == next
    {
      problem := None;
      if key in ["namespaces", "exclude", "labels", "include", "mutable", "users"] {
        var items := ParseStringList(block);
        if items.Err? {
          return Some(items.error);
        }
        AssignList(key, items.value);
      } else if key == "selectors" {
        var items := ParseSelectorList(block);
        if items.Err? {
          return Some(items.error);
        }
        spec := spec.(selectors := items.value);
      } else {
        return Some(UnsupportedBlockKey(key));
      }
    }
  }

  method ParseRuleSpec(text: string) returns (r: Result<RawSpec, SpecError>)
    ensures r == ParsedSpec(text)
  {
    var lines := SplitLines(text);
    var parsed := new SpecFields();
    var i := 0;
    while i < |lines|
      invariant i <= |lines|
      invariant ParsedSpec(text) == ParsedFrom(lines, i, parsed.spec)
    {
      var line := SanitizeLine(lines[i]);
      if line == "" {
        i := i + 1;
        continue;
      }
      if '\t' in line {
        return Err(SpecError(i + 1, TabsNotSupported));
      }
      var indent := CountIndent(line);
      if indent != 0 {
        return Err(SpecError(i + 1, ExpectedTopLevelKey));
      }
      var pair := SplitKeyValue(TrimSpace(line));
      if pair.None? {
        return Err(SpecError(i + 1, ExpectedKeyValue));
      }
      if pair.value.value != "" {
        var problem := parsed.AssignInlineValue(pair.value.key, pair.value.value);
        if problem.Some? {
          return Err(SpecError(i + 1, problem.value));
        }
        i := i + 1;
        continue;
      }
      var block, next := GatherIndentedBlock(lines, i + 1, indent);
      var problem := parsed.AssignBlockValue(pair.value.key, block);
      if problem.Some? {
        return Err(SpecError(i + 1, problem.value));
      }
      i := next;
    }
    return Ok(parsed.spec);
  }

  // ---- rule ConfigMaps ------------------------------------------------------------------

  datatype ConfigMap = ConfigMap(
    name: string,
    namespace: string,
    annotations: map<string, string>,
    data: map<string, string>)

  /** Looking up a missing key of a Go map gives the empty string. */
  function ValueAt(m: map<string, string>, key: string): string {
    if key in m then m[key] else ""
  }

  predicate IsRuleConfigMap(cm: ConfigMap) {
    IsTrueText(ValueAt(cm.annotations, RULE_ANNOTATION_KEY))
  }

  datatype RuleError =
    | NotAnnotated
    | MissingSpec
    | Unparsable(error: SpecError)
    | InvalidMode(mode: string)
    | NoNamespaces
    | NoSelectors
    | InvalidNamespacePattern(pattern: string)

  /** The first pattern that globbing rejects. */
  function FirstInvalid(glob: Glob, patterns: seq<string>): Option<string> {
    if patterns == [] then None
    else if glob(patterns[0], "").None? then Some(patterns[0])
    else FirstInvalid(glob, patterns[1..])
  }

  function RuleOf(cm: ConfigMap, spec: RawSpec): Rule {
    Rule(cm.name, cm.namespace, spec.priority, spec.mode, spec.namespaces, spec.selectors, spec.labels, spec.exclude,
         spec.includes, spec.mutable, spec.users, if spec.bypass == "" then DEFAULT_BYPASS_ANNOTATION else spec.bypass)
  }

  function Checked(glob: Glob, cm: ConfigMap, spec: RawSpec): Result<Rule, RuleError> {
    if !IsValidMode(spec.mode) then Err(InvalidMode(spec.mode))
    else if spec.namespaces == [] then Err(NoNamespaces)
    else if spec.selectors == [] then Err(NoSelectors)
    else match FirstInvalid(glob, spec.namespaces)
      case Some(pattern) => Err(InvalidNamespacePattern(pattern))
      case None => Ok(RuleOf(cm, spec))
  }

  function ParsedRule(glob: Glob, cm: ConfigMap): Result<Rule, RuleError> {
    var text := TrimSpace(ValueAt(cm.data, "spec"));
    if !IsRuleConfigMap(cm) then Err(NotAnnotated)
    else if text == "" then Err(MissingSpec)
    else match ParsedSpec(text)
      case Err(e) => Err(Unparsable(e))
      case Ok(spec) => Checked(glob, cm, spec)
  }

  method ParseConfigMap(glob: Glob, cm: ConfigMap) returns (r: Result<Rule, RuleError>)
    ensures r == ParsedRule(glob, cm)
  {
    if !IsRuleConfigMap(cm) {
      return Err(NotAnnotated);
    }
    var specText := TrimSpace(ValueAt(cm.data, "spec"));
    if specText == "" {
      return Err(MissingSpec);
    }
    var parsed := ParseRuleSpec(specText);
    if parsed.Err? {
      return Err(Unparsable(parsed.error));
    }
    var spec := parsed.value;
    if !IsValidMode(spec.mode) {
      return Err(InvalidMode(spec.mode));
    }
    if |spec.namespaces| == 0 {
      return Err(NoNamespaces);
    }
    if |spec.selectors| == 0 {
      return Err(NoSelectors);
    }
    for i := 0 to |spec.namespaces|
      invariant FirstInvalid(glob, spec.namespaces) == FirstInvalid(glob, spec.namespaces[i..])
    {
      assert spec.namespaces[i..][1..] == spec.namespaces[i + 1..];
      var outcome := glob(spec.namespaces[i], "");
      if outcome.None? {
        return Err(InvalidNamespacePattern(spec.namespaces[i]));
      }
    }
    return Ok(RuleOf(cm, spec));
  }
}
