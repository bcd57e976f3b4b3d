/** The inline and the block form of a list mean the same. */
module RuleTextForms {
  import opened Text
  import opened RuleText
  import opened ScannerLaws
  import opened RuleTextLaws
  import opened RuleTextSections

  /** Quoted items separated by a comma and a space. */
  function Separated(items: seq<string>): string {
    if items == [] then ""
    else if |items| == 1 then Quoted(items[0])
    else Quoted(items[0]) + ", " + Separated(items[1..])
  }

  function InlineForm(items: seq<string>): string {
    "[" + Separated(items) + "]"
  }

  // ---- items ---------------------------------------------------------------------------

  /** The items as they stand between the commas. */
  function PiecesOf(items: seq<string>, padded: bool): (all: seq<seq<Piece>>)
    ensures |all| == |items|
    decreases |items|
  {
    if items == [] then []
    else [(if padded then [Bare(" ")] else []) + [Literal('"', items[0])]] + PiecesOf(items[1..], true)
  }

  lemma ItemPieces(item: string, padded: bool)
    requires '"' !in item
    ensures var ps := (if padded then [Bare(" ")] else []) + [Literal('"', item)];
            && AllProper(ps, ',') && Spelled(ps) == (if padded then " " else "") + Quoted(item)
            && Scalar(Spelled(ps)) == item
  {
    hide Scalar, TrimSpace;
    var literal := Literal('"', item);
    OnePiece(literal);
    assert Spell(literal) == Quoted(item);
    if padded {
      FirstPiece(Bare(" "), [literal]);
      TrimPadding(" ", Quoted(item));
      ScalarTrimmed(" " + Quoted(item));
    } else {
      assert [] + [literal] == [literal] && "" + Quoted(item) == Quoted(item);
    }
    QuotedScalar(item);
  }

  lemma {:induction false} ItemsSeparated(items: seq<string>, padded: bool)
    requires items != [] && forall i :: 0 <= i < |items| ==> '"' !in items[i]
    ensures var all := PiecesOf(items, padded);
            && Itemized(all) && Commas(all) == (if padded then " " else "") + Separated(items)
            && ScalarsOf(all, items)
    decreases |items|
  {
    hide AllProper, Spelled, Scalar;
    var all := PiecesOf(items, padded);
    ItemPieces(items[0], padded);
    if |items| > 1 {
      ItemsSeparated(items[1..], true);
      assert all[1..] == PiecesOf(items[1..], true);
    }
  }

  lemma {:induction false} SeparatedEnds(items: seq<string>)
    requires items != []
    ensures var s := Separated(items); |s| >= 2 && s[0] == '"' && s[|s| - 1] == '"'
  {
    if |items| > 1 {
      SeparatedEnds(items[1..]);
    }
  }

  /** The inline form of a list is read back item by item. */
  lemma InlineRead(items: seq<string>)
    requires forall i :: 0 <= i < |items| ==> '"' !in items[i]
    ensures InlineList(InlineForm(items)) == Ok(items)
  {
    hide InlineItems, Scalar;
    var form := InlineForm(items);
    TrimSpaceKeeps(form);
    if items != [] {
      SeparatedEnds(items);
      var content := Separated(items);
      assert form[1..|form| - 1] == content && form[1] == content[0];
      TrimSpaceKeeps(content);
      ItemsSeparated(items, false);
      assert content[0..] == content && "" + content == content;
      var read := InlineItemsRead(content, 0, PiecesOf(items, false), []);
      SameScalars(PiecesOf(items, false), read, items);
      assert [] + items == items;
    }
  }

  lemma SameScalars(all: seq<seq<Piece>>, read: seq<string>, items: seq<string>)
    requires ScalarsOf(all, read) && ScalarsOf(all, items)
    ensures read == items
  {
  }

  // ---- lines ------------------------------------------------------------------------------

  lemma {:induction false} SeparatedTabless(items: seq<string>)
    requires forall i :: 0 <= i < |items| ==> '\t' !in items[i]
    ensures '\t' !in Separated(items)
    decreases |items|
  {
    if items != [] {
      if |items| > 1 {
        SeparatedTabless(items[1..]);
      }
      var s := Separated(items);
      var q := Quoted(items[0]);
      forall k | 0 <= k < |q| ensures q[k] != '\t' {
        assert 0 < k < |q| - 1 ==> q[k] == items[0][k - 1];
      }
      assert '\t' !in q;
    }
  }

  predicate InlineItemsOk(items: seq<string>) {
    forall i :: 0 <= i < |items| ==> '"' !in items[i] && '\t' !in items[i]
  }

  lemma InlineLineTop(key: string, items: seq<string>)
    requires PlainKey(key) && InlineItemsOk(items)
    ensures TopLevel(key + ": " + InlineForm(items)) == Ok(KeyValue(key, InlineForm(items)))
    ensures Sanitized(key + ": " + InlineForm(items)) == key + ": " + InlineForm(items)
  {
    hide FindUnquoted, InlineForm, SplitPair, TrimSpace, InlineItemsOk;
    var value := InlineForm(items);
    var line := key + ": " + value;
    InlineFormShape(items);
    assert line[0] == key[0] && line[|line| - 1] == ']';
    TrimSpaceKeeps(line);
    TrimPadding(" ", value);
    ColonSplit(key, " " + value);
    assert key + ":" + (" " + value) == line;
    forall k | 0 <= k < |line| ensures line[k] != '\t' {
      assert line[k] == if k < |key| then key[k] else if k < |key| + 2 then ": "[k - |key|] else value[k - |key| - 2];
    }
    InlineUncommented(key, items);
    NotBlank(line);
  }

  lemma InlineFormShape(items: seq<string>)
    requires InlineItemsOk(items)
    ensures var form := InlineForm(items); |form| >= 2 && form[0] == '[' && form[|form| - 1] == ']' && '\t' !in form
  {
    SeparatedTabless(items);
  }

  lemma {:induction false} SeparatedPieces(items: seq<string>) returns (ps: seq<Piece>)
    requires forall i :: 0 <= i < |items| ==> '"' !in items[i]
    ensures AllProper(ps, '#') && Spelled(ps) == Separated(items)
    decreases |items|
  {
    hide Spelled, Spell;
    if items == [] {
      ps := [Bare("")];
      OneBare("", '#');
    } else {
      var first := Literal('"', items[0]);
      LiteralSpelled('"', items[0], '#');
      OnePiece(first);
      if |items| == 1 {
        ps := [first];
      } else {
        var rest := SeparatedPieces(items[1..]);
        OneBare(", ", '#');
        ps := [first] + ([Bare(", ")] + rest);
        SpelledJoin([first], [Bare(", ")] + rest);
        SpelledJoin([Bare(", ")], rest);
      }
    }
  }

  /** An inline list is made of plain text and quoted items. */
  lemma InlinePieces(key: string, items: seq<string>) returns (ps: seq<Piece>)
    requires PlainKey(key) && forall i :: 0 <= i < |items| ==> '"' !in items[i]
    ensures AllProper(ps, '#') && Spelled(ps) == InlineLine(key, items)
  {
    hide Spelled, Separated;
    var between := SeparatedPieces(items);
    OneBare(key + ": [", '#');
    OneBare("]", '#');
    SpelledJoin([Bare(key + ": [")], between + [Bare("]")]);
    SpelledJoin(between, [Bare("]")]);
    ps := [Bare(key + ": [")] + (between + [Bare("]")]);
  }

  lemma InlineUncommented(key: string, items: seq<string>)
    requires PlainKey(key) && InlineItemsOk(items)
    ensures var line := key + ": " + InlineForm(items); FindUnquoted(line, '#', 0, None) == |line|
  {
    hide Separated, FindUnquoted;
    var ps := InlinePieces(key, items);
    FindUnquotedExact(ps, Complete, '#');
    assert Spelled(ps) + "" == Spelled(ps);
  }

  /** On clean lines, a list of double-quoted items means the same on the key's own line and
      as a block below it, if no indented line follows. */
  lemma FormsAgree(key: string, items: seq<string>, rest: seq<string>, spec: RawSpec)
    requires IsListKey(key) && InlineItemsOk(items) && AllQuotable(items) && TopFirst(rest)
    ensures ParsedClean([InlineLine(key, items)] + rest, 0, spec) == ParsedClean(ListLines(key, items) + rest, 0, spec)
  {
    hide ParsedClean, ListLines, InlineForm, TopLevel, WithList;
    ListKeyKnown(key, items, spec);
    ListKeyKnown(key, [], spec);
    InlineLineTop(key, items);
    InlineRead(items);
    NotEmptyForm(items);
    InlineSection(key, InlineForm(items), rest, spec);
    ListSection(key, items, rest, spec);
  }

  function InlineLine(key: string, items: seq<string>): string {
    key + ": " + InlineForm(items)
  }

  lemma NotEmptyForm(items: seq<string>)
    ensures InlineForm(items) != ""
  {
  }

  // ---- whole texts ------------------------------------------------------------------------

  lemma {:induction false} CleanJoin(a: seq<string>, b: seq<string>)
    ensures Clean(a + b) == Clean(a) + Clean(b)
  {
    hide Sanitized;
    if b == [] {
      assert a + b == a;
    } else {
      var init, last := b[..|b| - 1], b[|b| - 1];
      CleanJoin(a, init);
      CleanSnoc(a + init, last);
      CleanSnoc(init, last);
      assert a + b == a + init + [last] && b == init + [last];
    }
  }

  lemma CleanSnoc(init: seq<string>, last: string)
    ensures Clean(init + [last]) == Clean(init) + if Sanitized(last) == "" then [] else [Sanitized(last)]
  {
    hide Sanitized;
    CleanToSame(init + [last], init, |init|);
  }

  /** A block ends before a top-level line. */
  lemma {:induction false} GatheredWithin(a: seq<string>, x: seq<string>, k: nat, block: seq<string>)
    requires k <= |a| && x != [] && TopFirst(x)
    ensures GatheredClean(a + x, k, 0, block) == GatheredClean(a, k, 0, block)
    decreases |a| - k
  {
    hide Indent;
    if k < |a| && Indent(a[k]) > 0 {
      GatheredWithin(a, x, k + 1, block + [a[k]]);
    } else if k == |a| {
      assert (a + x)[k] == x[0];
    }
  }

  /** What stands before two endings that mean the same does not tell them apart. */
  lemma {:induction false} ParsedBefore(a: seq<string>, x: seq<string>, y: seq<string>, k: nat, spec: RawSpec)
    requires k <= |a| && x != [] && y != [] && TopFirst(x) && TopFirst(y)
    requires forall s :: ParsedClean(x, 0, s) == ParsedClean(y, 0, s)
    ensures ParsedClean(a + x, k, spec) == ParsedClean(a + y, k, spec)
    decreases |a| - k
  {
    hide Indent, TopLevel, Assigned, GatheredClean;
    if k == |a| {
      ParsedShift(a, x, 0, spec);
      ParsedShift(a, y, 0, spec);
    } else if TopLevel(a[k]).Ok? {
      GatheredWithin(a, x, k + 1, []);
      GatheredWithin(a, y, k + 1, []);
      var pair, block := TopLevel(a[k]).value, GatheredClean(a, k + 1, 0, []);
      var next := Assigned(spec, pair, block.lines);
      if next.Ok? {
        ParsedBefore(a, x, y, if pair.value != "" then k + 1 else block.next, next.value);
      }
    }
  }

  lemma FormsClean(key: string, items: seq<string>)
    requires IsListKey(key) && InlineItemsOk(items) && AllQuotable(items)
    ensures Clean([InlineLine(key, items)]) == [InlineLine(key, items)] && Indent(InlineLine(key, items)) == 0
    ensures ListLines(key, items) != []
    ensures Clean(ListLines(key, items)) == ListLines(key, items) && Indent(ListLines(key, items)[0]) == 0
  {
    hide Sanitized, Indent, ListLines, InlineForm;
    ListKeyKnown(key, items, EMPTY_SPEC);
    InlineLineTop(key, items);
    CleanSnoc([], InlineLine(key, items));
    assert [] + [InlineLine(key, items)] == [InlineLine(key, items)];
    ListClean(key, items);
    CleanOfClean(ListLines(key, items), |ListLines(key, items)|);
    ListHead(key, items);
  }

  lemma InlineClean(key: string, items: seq<string>)
    requires IsListKey(key) && InlineItemsOk(items) && AllQuotable(items)
    ensures AllClean([InlineLine(key, items)])
  {
    hide Sanitized, TopLevel;
    ListKeyKnown(key, items, EMPTY_SPEC);
    InlineLineTop(key, items);
    SeparatedUnbroken(items);
  }

  lemma {:induction false} SeparatedUnbroken(items: seq<string>)
    requires AllQuotable(items)
    ensures '\n' !in Separated(items)
    decreases |items|
  {
    if items != [] {
      QuotedNoBreak("", items[0]);
      assert "" + Quoted(items[0]) == Quoted(items[0]);
      SeparatedUnbroken(items[1..]);
    }
  }

  lemma ListHead(key: string, items: seq<string>)
    requires PlainKey(key)
    ensures ListLines(key, items) != [] && Indent(ListLines(key, items)[0]) == 0
  {
    hide Sanitized;
    HeaderClean(key);
  }

  /** In any text, whatever its layout, replacing one form of a list by the other changes
      neither the parsed spec nor the problem found, if the next line that is not blank is
      not indented. */
  lemma FormsInterchangeable(text: string, other: string, before: seq<string>, key: string, items: seq<string>,
                             rest: seq<string>)
    requires IsListKey(key) && InlineItemsOk(items) && AllQuotable(items) && TopFirst(Clean(rest))
    requires SplitLines(text) == before + [InlineLine(key, items)] + rest
    requires SplitLines(other) == before + ListLines(key, items) + rest
    ensures Outcome(ParsedSpec(text)) == Outcome(ParsedSpec(other))
  {
    hide Sanitized, Indent, ListLines, InlineLine, ParsedClean, ParsedFrom, Clean;
    ParsedAgrees(SplitLines(text), 0, EMPTY_SPEC);
    ParsedAgrees(SplitLines(other), 0, EMPTY_SPEC);
    NothingBefore(SplitLines(text));
    NothingBefore(SplitLines(other));
    FormsClean(key, items);
    CleanJoin(before + [InlineLine(key, items)], rest);
    CleanJoin(before, [InlineLine(key, items)]);
    CleanJoin(before + ListLines(key, items), rest);
    CleanJoin(before, ListLines(key, items));
    var x, y := [InlineLine(key, items)] + Clean(rest), ListLines(key, items) + Clean(rest);
    forall s ensures ParsedClean(x, 0, s) == ParsedClean(y, 0, s) {
      FormsAgree(key, items, Clean(rest), s);
    }
    ParsedBefore(Clean(before), x, y, 0, EMPTY_SPEC);
    assert Clean(before) + [InlineLine(key, items)] + Clean(rest) == Clean(before) + x;
    assert Clean(before) + ListLines(key, items) + Clean(rest) == Clean(before) + y;
  }

  lemma NothingBefore(lines: seq<string>)
    ensures CleanCount(lines, 0) == 0
  {
  }

  /** Nothing may be indented below the inline form. */
  lemma InlineFails(key: string, items: seq<string>, rest: seq<string>, spec: RawSpec)
    requires IsListKey(key) && InlineItemsOk(items) && !TopFirst(rest)
    ensures ParsedClean([InlineLine(key, items)] + rest, 0, spec).Err?
  {
    hide Sanitized, InlineForm, WithList, GatheredClean;
    ListKeyKnown(key, items, spec);
    InlineLineTop(key, items);
    InlineRead(items);
    NotEmptyForm(items);
    InlineSection(key, InlineForm(items), rest, spec);
  }

  /** On clean lines, with nothing assumed of what follows: whenever the inline form parses,
      the block form means the same. */
  lemma InlineMeansBlock(key: string, items: seq<string>, rest: seq<string>, spec: RawSpec)
    requires IsListKey(key) && InlineItemsOk(items) && AllQuotable(items)
    ensures var inline := ParsedClean([InlineLine(key, items)] + rest, 0, spec);
            inline.Ok? ==> TopFirst(rest) && ParsedClean(ListLines(key, items) + rest, 0, spec) == inline
  {
    hide ParsedClean, InlineLine, ListLines, InlineItemsOk, AllQuotable;
    if TopFirst(rest) {
      FormsAgree(key, items, rest, spec);
    } else {
      InlineFails(key, items, rest, spec);
    }
  }

  /** What stands before an ending that never parses does not help it. */
  lemma {:induction false} FailsBefore(a: seq<string>, x: seq<string>, k: nat, spec: RawSpec)
    requires k <= |a| && x != [] && TopFirst(x) && forall s :: ParsedClean(x, 0, s).Err?
    ensures ParsedClean(a + x, k, spec).Err?
    decreases |a| - k
  {
    hide Indent, TopLevel, Assigned, GatheredClean;
    if k == |a| {
      ParsedShift(a, x, 0, spec);
    } else if TopLevel(a[k]).Ok? {
      GatheredWithin(a, x, k + 1, []);
      var pair, block := TopLevel(a[k]).value, GatheredClean(a, k + 1, 0, []);
      var next := Assigned(spec, pair, block.lines);
      if next.Ok? {
        FailsBefore(a, x, if pair.value != "" then k + 1 else block.next, next.value);
      }
    }
  }

  /** In any text: whenever the text with the inline form parses, the block form gives the
      same spec. */
  lemma InlineTextMeansBlock(text: string, other: string, before: seq<string>, key: string, items: seq<string>,
                             rest: seq<string>)
    requires IsListKey(key) && InlineItemsOk(items) && AllQuotable(items)
    requires SplitLines(text) == before + [InlineLine(key, items)] + rest
    requires SplitLines(other) == before + ListLines(key, items) + rest
    ensures ParsedSpec(text).Ok? ==> TopFirst(Clean(rest)) && ParsedSpec(other) == ParsedSpec(text)
  {
    hide Sanitized, Indent, ListLines, InlineLine, ParsedClean, ParsedFrom, Clean, SplitLines;
    if TopFirst(Clean(rest)) {
      FormsInterchangeable(text, other, before, key, items, rest);
    } else {
      ParsedAgrees(SplitLines(text), 0, EMPTY_SPEC);
      NothingBefore(SplitLines(text));
      FormsClean(key, items);
      CleanJoin(before + [InlineLine(key, items)], rest);
      CleanJoin(before, [InlineLine(key, items)]);
      var x := [InlineLine(key, items)] + Clean(rest);
      forall s ensures ParsedClean(x, 0, s).Err? {
        InlineFails(key, items, Clean(rest), s);
      }
      FailsBefore(Clean(before), x, 0, EMPTY_SPEC);
      assert Clean(before) + [InlineLine(key, items)] + Clean(rest) == Clean(before) + x;
    }
  }

  /** An indented line after the list does tell the forms apart: below the block it is one
      more item, below the inline form it is an error. */
  lemma IndentedLineSeparates(key: string, items: seq<string>, item: string, spec: RawSpec)
    requires IsListKey(key) && InlineItemsOk(items) && AllQuotable(items) && Quotable(item)
    ensures var line := "  - " + Quoted(item);
            && ParsedClean([InlineLine(key, items)] + [line], 0, spec).Err?
            && ParsedClean(ListLines(key, items) + [line], 0, spec) == Ok(WithList(spec, key, items + [item]).value)
  {
    hide Sanitized, InlineForm, WithList, StringItem, GatheredClean, SplitPair, IndentFrom;
    var line := "  - " + Quoted(item);
    ListKeyKnown(key, items, spec);
    ListKeyKnown(key, [], spec);
    InlineLineTop(key, items);
    InlineRead(items);
    NotEmptyForm(items);
    InlineSection(key, InlineForm(items), [line], spec);
    ItemRead(item);
    ListKeyKnown(key, items + [item], spec);
    ListSection(key, items + [item], [], spec);
    assert ItemLines(items + [item]) == ItemLines(items) + [line];
    assert ListLines(key, items) + [line] == ListLines(key, items + [item]) + [];
  }
}
