/** Rule texts in the documented form: whatever their sections say is read back. */
module RuleTextRoundTrip {
  import opened Text
  import opened TextLaws
  import Sorting
  import opened Rules
  import opened RuleText
  import opened RuleTextLaws
  import opened RuleTextSections
  import opened RuleTextForms
  import opened ScannerLaws
  import opened CommentLaws
  import opened ParseLaws

  // ---- the written form ---------------------------------------------------------------

  /** One top-level key of a rule text with what stands under it. */
  datatype Section =
    | ModeIs(mode: string, quoted: bool)
    | PriorityIs(priority: int)
    | BypassIs(bypass: string, quoted: bool)
    | ListIs(key: string, items: seq<string>, inline: bool)
    | SelectorsAre(selectors: seq<ResourceSelector>)

  /** What the written form can carry. */
  predicate Writable(s: Section) {
    match s
    case ModeIs(mode, quoted) => ValueOk(mode, quoted)
    case PriorityIs(n) => IsInt(n)
    case BypassIs(bypass, quoted) => ValueOk(bypass, quoted)
    case ListIs(key, items, inline) => IsListKey(key) && AllQuotable(items) && (inline ==> InlineItemsOk(items))
    case SelectorsAre(selectors) => SelectorsWritable(selectors)
  }

  predicate AllWritable(ss: seq<Section>) {
    forall i :: 0 <= i < |ss| ==> Writable(ss[i])
  }

  function LinesOf(s: Section): seq<string> {
    match s
    case ModeIs(mode, quoted) => ["mode" + ": " + ValueText(mode, quoted)]
    case PriorityIs(n) => ["priority: " + Decimal(n)]
    case BypassIs(bypass, quoted) => ["bypass" + ": " + ValueText(bypass, quoted)]
    case ListIs(key, items, inline) => if inline then [InlineLine(key, items)] else ListLines(key, items)
    case SelectorsAre(selectors) => SelectorLines(selectors)
  }

  /** Any sections, in any order. */
  function AllLines(ss: seq<Section>): seq<string> {
    if ss == [] then [] else LinesOf(ss[0]) + AllLines(ss[1..])
  }

  // ---- what a section says ----------------------------------------------------------------

  function Applied(spec: RawSpec, s: Section): RawSpec {
    match s
    case ModeIs(mode, _) => spec.(mode := mode)
    case PriorityIs(n) => spec.(priority := n)
    case BypassIs(bypass, _) => spec.(bypass := bypass)
    case ListIs("namespaces", items, _) => spec.(namespaces := items)
    case ListIs("labels", items, _) => spec.(labels := items)
    case ListIs("users", items, _) => spec.(users := items)
    case ListIs("exclude", items, _) => spec.(exclude := items)
    case ListIs("include", items, _) => spec.(includes := items)
    case ListIs("mutable", items, _) => spec.(mutable := items)
    case ListIs(_, _, _) => spec
    case SelectorsAre(selectors) => spec.(selectors := selectors)
  }

  /** A list is stored under its own key. */
  lemma ListApplied(spec: RawSpec, key: string, items: seq<string>, inline: bool)
    requires IsListKey(key)
    ensures WithList(spec, key, items) == Some(Applied(spec, ListIs(key, items, inline)))
  {
  }

  /** What sections say together; of two for one key the later counts. */
  function Said(spec: RawSpec, ss: seq<Section>): RawSpec
    decreases |ss|
  {
    if ss == [] then spec else Said(Applied(spec, ss[0]), ss[1..])
  }

  function KeyOf(s: Section): string {
    match s
    case ModeIs(_, _) => "mode"
    case PriorityIs(_) => "priority"
    case BypassIs(_, _) => "bypass"
    case ListIs(key, _, _) => key
    case SelectorsAre(_) => "selectors"
  }

  // ---- one section ------------------------------------------------------------------------------

  /** The lines start at the left and end without white space. */
  predicate Solid(lines: seq<string>) {
    && lines != [] && lines[0] != "" && !IsSpace(lines[0][0])
    && var last := lines[|lines| - 1]; last != "" && !IsSpace(last[|last| - 1])
  }

  lemma SolidTop(lines: seq<string>, rest: seq<string>)
    requires Solid(lines)
    ensures TopFirst(lines + rest)
  {
    assert (lines + rest)[0] == lines[0];
  }

  lemma InlineSolid(key: string, items: seq<string>)
    requires IsListKey(key)
    ensures Solid([InlineLine(key, items)])
  {
    ListKeyKnown(key, items, EMPTY_SPEC);
    var form := InlineForm(items);
    assert InlineLine(key, items)[0] == key[0] && form[|form| - 1] == ']';
  }

  lemma ListSolid(key: string, items: seq<string>)
    requires IsListKey(key)
    ensures Solid(ListLines(key, items))
  {
    ListKeyKnown(key, items, EMPTY_SPEC);
    var lines := ListLines(key, items);
    assert lines[0] == key + ":" && lines[0][0] == key[0];
    if items != [] {
      assert lines[|lines| - 1] == "  - " + Quoted(items[|items| - 1]);
    }
  }

  lemma SelectorsSolid(selectors: seq<ResourceSelector>)
    ensures Solid(SelectorLines(selectors))
  {
    if selectors != [] {
      var last := selectors[|selectors| - 1];
      assert SelectorLines(selectors)[2 * |selectors|] == KindLine(last);
    }
  }

  lemma ValueSolid(key: string, item: string, quoted: bool)
    requires (key == "mode" || key == "bypass") && ValueOk(item, quoted)
    ensures Solid([key + ": " + ValueText(item, quoted)])
  {
    var value := ValueText(item, quoted);
    var line := key + ": " + value;
    assert line[0] == key[0] && line[|line| - 1] == value[|value| - 1];
  }

  lemma PrioritySolid(n: int)
    ensures Solid(["priority: " + Decimal(n)])
  {
    hide Decimal;
    NumberWritten(n);
    WrittenNonEmpty(Decimal(n), Decimal(n));
    var line := "priority: " + Decimal(n);
    assert line[|line| - 1] == Decimal(n)[|Decimal(n)| - 1];
  }

  /** The shape of a section's lines. */
  lemma SectionShape(s: Section)
    requires Writable(s)
    ensures Solid(LinesOf(s)) && AllClean(LinesOf(s))
  {
    hide Solid, Decimal, ListLines, SelectorLines, ValueText, InlineLine, ValueOk, IsListKey, InlineItemsOk,
      AllQuotable, Continues;
    match s
    case ModeIs(mode, quoted) =>
      ValueSection("mode", mode, quoted, [], EMPTY_SPEC);
      ValueSolid("mode", mode, quoted);
    case PriorityIs(n) =>
      PrioritySection(n, [], EMPTY_SPEC);
      PrioritySolid(n);
    case BypassIs(bypass, quoted) =>
      ValueSection("bypass", bypass, quoted, [], EMPTY_SPEC);
      ValueSolid("bypass", bypass, quoted);
    case ListIs(key, items, inline) =>
      if inline {
        InlineClean(key, items);
        InlineSolid(key, items);
      } else {
        ListClean(key, items);
        ListSolid(key, items);
      }
    case SelectorsAre(selectors) =>
      SelectorsClean(selectors);
      SelectorsSolid(selectors);
  }

  /** One section, whatever follows at the left, is read back. */
  lemma SectionRead(s: Section, rest: seq<string>, spec: RawSpec)
    requires Writable(s) && TopFirst(rest)
    ensures Continues(LinesOf(s) + rest, rest, spec, Ok(Applied(spec, s)))
  {
    hide Decimal, ListLines, SelectorLines, ValueText, InlineLine, ValueOk, WithList, ParsedClean, TopFirst;
    match s
    case ModeIs(mode, quoted) => ValueSection("mode", mode, quoted, rest, spec);
    case PriorityIs(n) => PrioritySection(n, rest, spec);
    case BypassIs(bypass, quoted) => ValueSection("bypass", bypass, quoted, rest, spec);
    case ListIs(key, items, inline) =>
      ListKeyKnown(key, items, spec);
      ListApplied(spec, key, items, inline);
      ListSection(key, items, rest, spec);
      if inline {
        FormsAgree(key, items, rest, spec);
      }
    case SelectorsAre(selectors) => SelectorSection(selectors, rest, spec);
  }

  // ---- all sections ---------------------------------------------------------------------------

  /** On clean lines: any sections in any order are read as what they say. */
  lemma {:induction false} SectionsRead(ss: seq<Section>, spec: RawSpec)
    requires AllWritable(ss)
    ensures TopFirst(AllLines(ss)) && ParsedClean(AllLines(ss), 0, spec) == Ok(Said(spec, ss))
  {
    hide LinesOf, Applied, Writable, Solid, Indent;
    if ss != [] {
      var rest := AllLines(ss[1..]);
      SectionsRead(ss[1..], Applied(spec, ss[0]));
      SectionShape(ss[0]);
      SolidTop(LinesOf(ss[0]), rest);
      SectionRead(ss[0], rest, spec);
    }
  }

  lemma {:induction false} SectionsShape(ss: seq<Section>)
    requires AllWritable(ss)
    ensures AllClean(AllLines(ss)) && (ss != [] ==> Solid(AllLines(ss)))
  {
    hide LinesOf, Writable, AllClean;
    if ss == [] {
      NothingClean();
    } else {
      SectionsShape(ss[1..]);
      SectionShape(ss[0]);
      AllCleanJoin(LinesOf(ss[0]), AllLines(ss[1..]));
    }
  }

  lemma NothingClean()
    ensures AllClean([])
  {
  }

  // ---- layout and comments ------------------------------------------------------------------

  lemma BareThenValue(before: string, value: string, item: string)
    requires WrittenValue(value, item) && Plain(before, '#', 0, |before|)
    ensures Commentable(before + value)
  {
    var line := before + value;
    assert line[|line| - 1] == value[|value| - 1];
    var piece := if value == Quoted(item) && '"' !in item then Literal('"', item) else Bare(value);
    assert Spell(piece) == value;
    FirstPiece(Bare(before), [piece]);
    OnePiece(piece);
    assert AllProper([Bare(before)] + [piece], '#');
  }

  lemma HeaderCommentable(key: string)
    requires PlainKey(key)
    ensures Commentable(key + ":")
  {
    OneBare(key + ":", '#');
  }

  lemma InlineCommentable(key: string, items: seq<string>)
    requires PlainKey(key) && AllQuotable(items)
    ensures Commentable(InlineLine(key, items))
  {
    hide Spelled, Separated;
    var line := InlineLine(key, items);
    var ps := InlinePieces(key, items);
    assert line[|line| - 1] == ']';
  }

  /** Every line of a section may be followed by a comment. */
  lemma SectionCommentable(s: Section)
    requires Writable(s)
    ensures AllCommentable(LinesOf(s))
  {
    hide Commentable, Decimal, InlineLine, WrittenValue, Quotable;
    match s
    case ModeIs(mode, quoted) =>
      ValueWritten(mode, quoted);
      BareThenValue("mode" + ": ", ValueText(mode, quoted), mode);
    case PriorityIs(n) =>
      NumberWritten(n);
      BareThenValue("priority: ", Decimal(n), Decimal(n));
    case BypassIs(bypass, quoted) =>
      ValueWritten(bypass, quoted);
      BareThenValue("bypass" + ": ", ValueText(bypass, quoted), bypass);
    case ListIs(key, items, inline) =>
      ListKeyKnown(key, items, EMPTY_SPEC);
      if inline {
        InlineCommentable(key, items);
      } else {
        ListCommentable(key, items);
      }
    case SelectorsAre(selectors) => SelectorsCommentable(selectors);
  }

  lemma ListCommentable(key: string, items: seq<string>)
    requires PlainKey(key) && AllQuotable(items)
    ensures AllCommentable(ListLines(key, items))
  {
    hide Commentable, PlainKey;
    var lines := ListLines(key, items);
    HeaderCommentable(key);
    forall i | 0 <= i < |lines| ensures Commentable(lines[i]) {
      if i > 0 {
        QuotedWritten(items[i - 1]);
        BareThenValue("  - ", Quoted(items[i - 1]), items[i - 1]);
      }
    }
  }

  lemma SelectorsCommentable(selectors: seq<ResourceSelector>)
    requires SelectorsWritable(selectors)
    ensures AllCommentable(SelectorLines(selectors))
  {
    hide Commentable, SelectorBody;
    var lines := SelectorLines(selectors);
    HeaderCommentable("selectors");
    assert "selectors" + ":" == "selectors:";
    forall i | 0 <= i < |lines| ensures Commentable(lines[i]) {
      if i > 0 {
        var j := (i - 1) / 2;
        SelectorBodyAt(selectors, j);
        QuotedWritten(selectors[j].apiGroup);
        QuotedWritten(selectors[j].kind);
        BareThenValue("  - apiGroup: ", Quoted(selectors[j].apiGroup), selectors[j].apiGroup);
        BareThenValue("    kind: ", Quoted(selectors[j].kind), selectors[j].kind);
        assert i - 1 == 2 * j || i - 1 == 2 * j + 1;
      }
    }
  }

  /** Every written line may be followed by a comment, in inline and in block form. */
  lemma {:induction false} SectionsCommentable(ss: seq<Section>)
    requires AllWritable(ss)
    ensures AllCommentable(AllLines(ss))
  {
    hide Commentable, LinesOf, Writable;
    if ss != [] {
      SectionsCommentable(ss[1..]);
      SectionCommentable(ss[0]);
    }
  }

  /** A text in any layout: blank lines, comments and carriage returns between and after the
      lines make no difference. */
  lemma TextRead(text: string, ss: seq<Section>)
    requires AllWritable(ss) && LaidOut(SplitLines(text), AllLines(ss))
    ensures ParsedSpec(text) == Ok(Said(EMPTY_SPEC, ss))
  {
    hide AllLines, Said, Clean, Writable, SplitLines, LaidOut, AllClean, AllCommentable, ParsedSpec, Solid;
    SectionsShape(ss);
    SectionsCommentable(ss);
    LaidOutClean(SplitLines(text), AllLines(ss));
    CleanTextRead(text, ss);
  }

  lemma CleanTextRead(text: string, ss: seq<Section>)
    requires AllWritable(ss) && Clean(SplitLines(text)) == AllLines(ss)
    ensures ParsedSpec(text) == Ok(Said(EMPTY_SPEC, ss))
  {
    hide AllLines, Said, Clean, ParsedClean, ParsedFrom, Writable;
    SectionsRead(ss, EMPTY_SPEC);
    ParsedAgrees(SplitLines(text), 0, EMPTY_SPEC);
    NothingBefore(SplitLines(text));
  }

  lemma JoinedClean(ss: seq<Section>)
    requires AllWritable(ss)
    ensures Clean(SplitLines(Joined(AllLines(ss)))) == AllLines(ss)
  {
    hide AllLines, Joined, Sanitized, Solid, Writable;
    var lines := AllLines(ss);
    SectionsShape(ss);
    if lines == [] {
      NothingJoined();
    } else {
      SplitJoined(lines);
      CleanOfClean(lines, |lines|);
      assert lines[..|lines|] == lines;
    }
  }

  lemma NothingJoined()
    ensures Joined([]) == "" && Clean(SplitLines("")) == []
  {
    assert SplitLines("") == [""];
    assert Sanitized("") == "";
    CleanSnoc([], "");
    assert [] + [""] == [""];
  }

  /** The sections themselves, line by line. */
  lemma SectionsRoundTrip(ss: seq<Section>)
    requires AllWritable(ss)
    ensures ParsedSpec(Joined(AllLines(ss))) == Ok(Said(EMPTY_SPEC, ss))
  {
    hide AllLines, Joined, Said, Clean, ParsedSpec, Writable;
    JoinedClean(ss);
    CleanTextRead(Joined(AllLines(ss)), ss);
  }

  // ---- rules ----------------------------------------------------------------------------------

  /** A ConfigMap whose text has these sections, in any layout, becomes the rule they say,
      field by field, or the first check that fails. */
  lemma RuleRead(glob: Glob, cm: ConfigMap, text: string, ss: seq<Section>)
    requires Annotated(cm) && SpecText(cm, text)
    requires AllWritable(ss) && ss != [] && LaidOut(SplitLines(text), AllLines(ss))
    ensures var spec := Said(EMPTY_SPEC, ss);
            Outcomes(glob, cm, spec, ParsedRule(glob, cm)) && (ParsedRule(glob, cm).Ok? <==> Acceptable(glob, spec))
  {
    hide AllLines, Said, ParsedSpec, Writable, Annotated, SpecText, SplitLines, Outcomes, Acceptable, AllClean, Solid,
      ParsedRule, LaidOut;
    TextRead(text, ss);
    WrittenNotEmpty(text, ss);
    ParsedExact(glob, cm, text);
  }

  lemma WrittenNotEmpty(text: string, ss: seq<Section>)
    requires AllWritable(ss) && ss != [] && LaidOut(SplitLines(text), AllLines(ss))
    ensures text != ""
  {
    hide AllLines, Writable, SplitLines, LaidOut, AllClean, AllCommentable, Clean, Solid;
    SectionsShape(ss);
    SolidNonEmpty(AllLines(ss));
    SectionsCommentable(ss);
    LaidOutClean(SplitLines(text), AllLines(ss));
    NothingJoined();
  }

  lemma SolidNonEmpty(lines: seq<string>)
    requires Solid(lines)
    ensures lines != []
  {
  }

  /** The text of a block scalar: its lines, and a line break at the end. */
  lemma RuleRoundTrip(glob: Glob, cm: ConfigMap, ss: seq<Section>)
    requires Annotated(cm) && AllWritable(ss) && ss != []
    requires ValueAt(cm.data, "spec") == Joined(AllLines(ss)) + "\n"
    ensures var spec := Said(EMPTY_SPEC, ss);
            Outcomes(glob, cm, spec, ParsedRule(glob, cm)) && (ParsedRule(glob, cm).Ok? <==> Acceptable(glob, spec))
  {
    hide AllLines, Joined, Said, ParsedSpec, Writable, Annotated, TrimSpace, AllClean, Outcomes, Acceptable, ParsedRule,
      Trims;
    var lines, text := AllLines(ss), Joined(AllLines(ss));
    SectionsShape(ss);
    JoinedEnds(lines);
    TrimRightBreak(text);
    TrimSpaceTrims(text + "\n");
    SectionsRoundTrip(ss);
    ParsedExact(glob, cm, text);
  }

  // ---- every spec can be written --------------------------------------------------------------

  /** A list; when empty, left out or written as a bare key. */
  function ListPart(key: string, items: seq<string>, bare: bool): seq<Section> {
    if items == [] && !bare then [] else [ListIs(key, items, false)]
  }

  /** The documented order, with empty lists left out or written as bare keys. */
  function SectionsOf(spec: RawSpec, bare: bool): seq<Section> {
    [ModeIs(spec.mode, !PlainWord(spec.mode)), PriorityIs(spec.priority)]
      + ListPart("namespaces", spec.namespaces, bare) + [SelectorsAre(spec.selectors)]
      + ListPart("labels", spec.labels, bare) + ListPart("users", spec.users, bare)
      + ListPart("exclude", spec.exclude, bare) + ListPart("include", spec.includes, bare)
      + ListPart("mutable", spec.mutable, bare)
      + [BypassIs(spec.bypass, true)]
  }

  /** A spec whose texts can be quoted. */
  predicate SpecWritable(spec: RawSpec) {
    && Quotable(spec.mode) && '\t' !in spec.mode && IsInt(spec.priority)
    && Quotable(spec.bypass) && '\t' !in spec.bypass
    && AllQuotable(spec.namespaces) && AllQuotable(spec.labels) && AllQuotable(spec.users)
    && AllQuotable(spec.exclude) && AllQuotable(spec.includes) && AllQuotable(spec.mutable)
    && SelectorsWritable(spec.selectors)
  }

  lemma {:induction false} SaidJoin(spec: RawSpec, ss: seq<Section>, ts: seq<Section>)
    ensures Said(spec, ss + ts) == Said(Said(spec, ss), ts)
    decreases |ss|
  {
    hide Applied;
    if ss == [] {
      assert ss + ts == ts;
    } else {
      assert (ss + ts)[1..] == ss[1..] + ts;
      SaidJoin(Applied(spec, ss[0]), ss[1..], ts);
    }
  }

  /** A left-out list says what the empty one does, to a spec where it is still empty. */
  lemma ListPartSaid(spec: RawSpec, ss: seq<Section>, key: string, items: seq<string>, bare: bool)
    requires WithList(Said(spec, ss), key, []) == Some(Said(spec, ss))
    ensures Said(spec, ss + ListPart(key, items, bare)) == WithList(Said(spec, ss), key, items).GetOr(spec)
  {
    SaidJoin(spec, ss, ListPart(key, items, bare));
  }

  lemma OneSaid(spec: RawSpec, ss: seq<Section>, s: Section)
    ensures Said(spec, ss + [s]) == Applied(Said(spec, ss), s)
  {
    hide Applied;
    SaidJoin(spec, ss, [s]);
    assert [s][1..] == [];
  }

  lemma SectionsOfSay(spec: RawSpec, bare: bool)
    ensures Said(EMPTY_SPEC, SectionsOf(spec, bare)) == spec
  {
    hide Said, ListPart, PlainWord;
    var e := EMPTY_SPEC;
    var s1: seq<Section> := [ModeIs(spec.mode, !PlainWord(spec.mode)), PriorityIs(spec.priority)];
    HeadSaid(spec);
    var s2 := s1 + ListPart("namespaces", spec.namespaces, bare);
    ListPartSaid(e, s1, "namespaces", spec.namespaces, bare);
    var s3 := s2 + [SelectorsAre(spec.selectors)];
    OneSaid(e, s2, SelectorsAre(spec.selectors));
    var s4 := s3 + ListPart("labels", spec.labels, bare);
    ListPartSaid(e, s3, "labels", spec.labels, bare);
    var s5 := s4 + ListPart("users", spec.users, bare);
    ListPartSaid(e, s4, "users", spec.users, bare);
    var s6 := s5 + ListPart("exclude", spec.exclude, bare);
    ListPartSaid(e, s5, "exclude", spec.exclude, bare);
    var s7 := s6 + ListPart("include", spec.includes, bare);
    ListPartSaid(e, s6, "include", spec.includes, bare);
    var s8 := s7 + ListPart("mutable", spec.mutable, bare);
    ListPartSaid(e, s7, "mutable", spec.mutable, bare);
    OneSaid(e, s8, BypassIs(spec.bypass, true));
  }

  lemma HeadSaid(spec: RawSpec)
    ensures Said(EMPTY_SPEC, [ModeIs(spec.mode, !PlainWord(spec.mode)), PriorityIs(spec.priority)])
         == EMPTY_SPEC.(mode := spec.mode, priority := spec.priority)
  {
    hide PlainWord;
    var mode, priority := ModeIs(spec.mode, !PlainWord(spec.mode)), PriorityIs(spec.priority);
    OneSaid(EMPTY_SPEC, [], mode);
    OneSaid(EMPTY_SPEC, [mode], priority);
    assert [] + [mode] == [mode] && [mode] + [priority] == [mode, priority];
  }

  /** Every spec that can be quoted has a text in the documented form that is read back field
      by field, with its empty lists left out or written as bare keys. */
  lemma SpecRoundTrip(spec: RawSpec, bare: bool)
    requires SpecWritable(spec)
    ensures ParsedSpec(Joined(AllLines(SectionsOf(spec, bare)))) == Ok(spec)
  {
    hide AllLines, Joined, Said, ParsedSpec, PlainWord, ListPart, SectionsOf;
    SectionsOfWritable(spec, bare);
    SectionsOfSay(spec, bare);
    SectionsRoundTrip(SectionsOf(spec, bare));
  }

  lemma SectionsOfWritable(spec: RawSpec, bare: bool)
    requires SpecWritable(spec)
    ensures AllWritable(SectionsOf(spec, bare))
  {
    hide PlainWord, Quotable, AllQuotable, SelectorsWritable;
    forall s | s in SectionsOf(spec, bare) ensures Writable(s) {
    }
  }

  // ---- order -----------------------------------------------------------------------------------

  /** Sections for different keys may change places. */
  lemma SectionsCommute(spec: RawSpec, s: Section, t: Section)
    requires KeyOf(s) != KeyOf(t)
    requires Writable(s) && Writable(t)
    ensures Applied(Applied(spec, s), t) == Applied(Applied(spec, t), s)
  {
    hide ValueOk, AllQuotable, InlineItemsOk, SelectorsWritable, WithList, IsListKey;
    if s.ListIs? && t.ListIs? {
      ListsCommute(spec, s.key, s.items, t.key, t.items);
    } else if s.ListIs? {
      ListCommutes(spec, s.key, s.items, t);
    } else if t.ListIs? {
      ListCommutes(spec, t.key, t.items, s);
    }
  }

  lemma ListsCommute(spec: RawSpec, key: string, items: seq<string>, key': string, items': seq<string>)
    requires key != key' && IsListKey(key) && IsListKey(key')
    ensures WithList(WithList(spec, key, items).GetOr(spec), key', items').Some?
    ensures WithList(WithList(spec, key', items').GetOr(spec), key, items).Some?
    ensures WithList(WithList(spec, key, items).GetOr(spec), key', items')
         == WithList(WithList(spec, key', items').GetOr(spec), key, items)
  {
  }

  lemma ListCommutes(spec: RawSpec, key: string, items: seq<string>, t: Section)
    requires IsListKey(key) && !t.ListIs?
    ensures WithList(spec, key, items).Some? && WithList(Applied(spec, t), key, items).Some?
    ensures Applied(WithList(spec, key, items).value, t) == WithList(Applied(spec, t), key, items).value
  {
  }

  /** No key is given twice. */
  predicate OneEach(ss: seq<Section>) {
    forall i, j :: 0 <= i < j < |ss| ==> KeyOf(ss[i]) != KeyOf(ss[j])
  }

  /** A section may be read first. */
  lemma {:induction false} SaidFirst(spec: RawSpec, before: seq<Section>, s: Section, after: seq<Section>)
    requires AllWritable(before) && Writable(s)
    requires forall i :: 0 <= i < |before| ==> KeyOf(before[i]) != KeyOf(s)
    ensures Said(spec, before + [s] + after) == Said(Applied(spec, s), before + after)
    decreases |before|
  {
    hide Applied, Writable, KeyOf;
    if before == [] {
      assert before + [s] + after == [s] + after && before + after == after;
    } else {
      assert (before + [s] + after)[1..] == before[1..] + [s] + after;
      assert (before + after)[1..] == before[1..] + after;
      SaidFirst(Applied(spec, before[0]), before[1..], s, after);
      SectionsCommute(spec, before[0], s);
    }
  }

  /** Sections say the same in any order if no key is given twice. */
  lemma {:induction false} SaidInAnyOrder(spec: RawSpec, ss: seq<Section>, ts: seq<Section>)
    requires multiset(ss) == multiset(ts) && AllWritable(ss) && AllWritable(ts) && OneEach(ts)
    ensures Said(spec, ss) == Said(spec, ts)
    decreases |ss|
  {
    hide Applied, Writable, AllWritable, OneEach, KeyOf;
    Sorting.SameElements(ss, ts);
    if ss != [] {
      var s, rest := ss[0], ss[1..];
      assert ss == [s] + rest && s in ss;
      var i :| 0 <= i < |ts| && ts[i] == s;
      var before, after := ts[..i], ts[i + 1..];
      assert ts == before + [s] + after;
      WithoutOne(ss, [], s, rest);
      WithoutOne(ts, before, s, after);
      EachKeyOnce(before, s, after);
      SaidFirst(spec, before, s, after);
      SaidInAnyOrder(Applied(spec, s), rest, before + after);
    }
  }

  lemma WithoutOne(ss: seq<Section>, before: seq<Section>, s: Section, after: seq<Section>)
    requires ss == before + [s] + after
    ensures multiset(before + after) == multiset(ss) - multiset{s}
    ensures AllWritable(ss) ==> AllWritable(before) && Writable(s) && AllWritable(before + after)
    ensures before == [] ==> before + after == after
  {
    hide Writable;
    assert AllWritable(ss) ==> Writable(ss[|before|]);
    forall i | 0 <= i < |before + after| && AllWritable(ss) ensures Writable((before + after)[i]) {
      assert (before + after)[i] == ss[if i < |before| then i else i + 1];
    }
    forall i | 0 <= i < |before| && AllWritable(ss) ensures Writable(before[i]) {
      assert before[i] == ss[i];
    }
  }

  lemma EachKeyOnce(before: seq<Section>, s: Section, after: seq<Section>)
    requires OneEach(before + [s] + after)
    ensures forall i :: 0 <= i < |before| ==> KeyOf(before[i]) != KeyOf(s)
    ensures OneEach(before + after)
  {
    hide KeyOf;
    var ts := before + [s] + after;
    forall i | 0 <= i < |before| ensures KeyOf(before[i]) != KeyOf(s) {
      assert ts[i] == before[i] && ts[|before|] == s;
    }
    var rest := before + after;
    forall i, j | 0 <= i < j < |rest| ensures KeyOf(rest[i]) != KeyOf(rest[j]) {
      assert rest[i] == ts[if i < |before| then i else i + 1] && rest[j] == ts[if j < |before| then j else j + 1];
    }
  }
}
