/** Comments, blank lines and carriage returns change nothing in what a rule text says. */
module CommentLaws {
  import opened Text
  import opened TextLaws
  import opened RuleText
  import opened RuleTextLaws
  import opened RuleTextSections
  import opened RuleTextForms
  import opened ScannerLaws

  // ---- one line -------------------------------------------------------------------------------

  /** A line of plain text and closed strings that ends in neither a space nor a carriage
      return. A hash may stand in its strings. */
  ghost predicate Commentable(line: string) {
    && (line != "" ==> line[|line| - 1] != ' ' && line[|line| - 1] != '\r')
    && exists ps :: AllProper(ps, '#') && Spelled(ps) == line
  }

  /** Spaces, a hash, and anything. */
  predicate IsComment(tail: string) {
    exists n :: 0 <= n < |tail| && AllOf(tail[..n], ' ') && tail[n] == '#'
  }

  /** What may stand after a line: a comment, or carriage returns. */
  predicate Ignored(tail: string) {
    IsComment(tail) || AllOf(tail, '\r')
  }

  lemma ProperSpaces(ps: seq<Piece>, spaces: string)
    requires AllProper(ps, '#') && AllOf(spaces, ' ')
    ensures AllProper(ps + [Bare(spaces)], '#') && Spelled(ps + [Bare(spaces)]) == Spelled(ps) + spaces
  {
    hide Spelled;
    SpelledJoin(ps, [Bare(spaces)]);
    OneBare(spaces, '#');
  }

  /** A comment is cut together with the spaces before it. */
  lemma CommentCut(line: string, spaces: string, comment: string)
    requires Commentable(line) && AllOf(spaces, ' ')
    ensures Sanitized(line + spaces + "#" + comment) == Sanitized(line)
  {
    hide TrimSpace, WithoutComment, AllProper, Spelled;
    var left := HashKept(line + spaces, comment);
    var ps :| AllProper(ps, '#') && Spelled(ps) == line;
    ProperSpaces(ps, spaces);
    var qs := ps + [Bare(spaces)];
    WithoutCommentExact(qs, Stopped(left));
    WithoutCommentExact(ps, Complete);
    assert line + spaces + "#" + left == Spelled(qs) + EndText(Stopped(left), '#');
    assert line + "" == line;
    TrimRightCharExact(line + spaces, ' ');
    assert (line + spaces)[|line|..] == spaces;
    assert TrimsEnd(line + spaces, ' ', line);
  }

  lemma ReturnsCut(line: string, returns': string)
    requires (line != "" ==> line[|line| - 1] != '\r') && AllOf(returns', '\r')
    ensures Sanitized(line + returns') == Sanitized(line)
  {
    hide TrimSpace, WithoutComment;
    TrimRightCharExact(line + returns', '\r');
    assert (line + returns')[|line|..] == returns';
    assert TrimsEnd(line + returns', '\r', line);
  }

  lemma TailIgnored(line: string, tail: string)
    requires Commentable(line) && Ignored(tail)
    ensures Sanitized(line + tail) == Sanitized(line)
  {
    hide Sanitized, AllProper, Spelled;
    if IsComment(tail) {
      var n :| 0 <= n < |tail| && AllOf(tail[..n], ' ') && tail[n] == '#';
      CommentCut(line, tail[..n], tail[n + 1..]);
      assert line + tail == line + tail[..n] + "#" + tail[n + 1..];
    } else {
      ReturnsCut(line, tail);
    }
  }

  /** A hash inside quotes is kept. */
  lemma QuotedHashKept(line: string)
    requires Commentable(line) && !AllSpace(line)
    ensures Sanitized(line) == line
  {
    hide TrimSpace, WithoutComment, AllProper, Spelled;
    var ps :| AllProper(ps, '#') && Spelled(ps) == line;
    WithoutCommentExact(ps, Complete);
    assert line + "" == line;
    BlankExact(line);
  }

  lemma BlankExact(s: string)
    ensures TrimSpace(s) == "" <==> AllSpace(s)
  {
    hide IsSpace;
    TrimSpaceExact(s, "");
    if AllSpace(s) {
      assert s[0..0] == "" && s[..0] == "" && s[0..] == s;
    }
    if Trims(s, "") {
      var i, j := TrimmedPart(s, "");
    }
  }

  // ---- every text --------------------------------------------------------------------------------

  /** Both lists of lines are the same to the parser. */
  ghost predicate SameLines(lines: seq<string>, other: seq<string>) {
    |lines| == |other| && forall i :: 0 <= i < |lines| ==> Sanitized(lines[i]) == Sanitized(other[i])
  }

  lemma {:induction false} GatheredSame(lines: seq<string>, other: seq<string>, i: nat, parent: nat, block: seq<string>)
    requires SameLines(lines, other) && i <= |lines|
    ensures Gathered(lines, i, parent, block) == Gathered(other, i, parent, block)
    decreases |lines| - i
  {
    hide Sanitized, Indent;
    if i < |lines| {
      var line := Sanitized(lines[i]);
      if line == "" {
        GatheredSame(lines, other, i + 1, parent, block);
      } else if Indent(line) > parent {
        GatheredSame(lines, other, i + 1, parent, block + [line]);
      }
    }
  }

  lemma {:induction false} ParsedSame(lines: seq<string>, other: seq<string>, i: nat, spec: RawSpec)
    requires SameLines(lines, other) && i <= |lines|
    ensures ParsedFrom(lines, i, spec) == ParsedFrom(other, i, spec)
    decreases |lines| - i
  {
    hide Sanitized, TopLevel, Assigned, Gathered;
    if i < |lines| {
      var line := Sanitized(lines[i]);
      if line == "" {
        ParsedSame(lines, other, i + 1, spec);
      } else if TopLevel(line).Ok? {
        var pair, block := TopLevel(line).value, Gathered(lines, i + 1, 0, []);
        GatheredSame(lines, other, i + 1, 0, []);
        var next := Assigned(spec, pair, block.lines);
        if next.Ok? {
          ParsedSame(lines, other, if pair.value != "" then i + 1 else block.next, next.value);
        }
      }
    }
  }

  /** A text is its lines with line breaks between them. */
  lemma {:induction false} JoinedSplit(text: string)
    ensures Joined(SplitLines(text)) == text
    ensures forall i :: 0 <= i < |SplitLines(text)| ==> '\n' !in SplitLines(text)[i]
    decreases |text|
  {
    var i := IndexOf(text, '\n', 0);
    if i < |text| {
      var rest := text[i + 1..];
      JoinedSplit(rest);
      assert ([text[..i]] + SplitLines(rest))[1..] == SplitLines(rest);
      assert text == text[..i] + "\n" + rest;
    }
  }

  /** Commenting any line of any text changes neither the parsed spec nor the problem, nor the
      line it is found at. */
  lemma TrailingComment(text: string, at: nat, tail: string)
    requires at < |SplitLines(text)| && Commentable(SplitLines(text)[at])
    requires Ignored(tail) && '\n' !in tail
    ensures var lines := SplitLines(text);
            ParsedSpec(Joined(lines[at := lines[at] + tail])) == ParsedSpec(text)
  {
    hide Sanitized, Commentable, Ignored, Joined, SplitLines, ParsedFrom;
    var lines := SplitLines(text);
    var other := lines[at := lines[at] + tail];
    JoinedSplit(text);
    forall i | 0 <= i < |other| ensures '\n' !in other[i] {
      if i == at {
        assert other[i] == lines[at] + tail;
      }
    }
    SplitJoined(other);
    TailIgnored(lines[at], tail);
    assert SameLines(lines, other);
    ParsedSame(lines, other, 0, EMPTY_SPEC);
  }

  // ---- layout --------------------------------------------------------------------------------------

  /** White space, or white space and a comment. */
  predicate Blank(line: string) {
    AllSpace(line) || exists n :: 0 <= n < |line| && AllSpace(line[..n]) && line[n] == '#'
  }

  lemma SpacesKept(spaces: string, c: char)
    requires AllSpace(spaces)
    ensures AllSpace(TrimRightChar(spaces, c))
  {
    hide IsSpace;
    TrimRightCharExact(spaces, c);
    var r := TrimRightChar(spaces, c);
    forall k | 0 <= k < |r| ensures IsSpace(r[k]) {
      assert r[k] == spaces[k];
    }
  }

  lemma BareSpaces(spaces: string)
    requires AllSpace(spaces)
    ensures AllProper([Bare(spaces)], '#') && Spelled([Bare(spaces)]) == spaces
  {
    OneBare(spaces, '#');
  }

  lemma BlankIgnored(line: string)
    requires Blank(line)
    ensures Sanitized(line) == ""
  {
    hide TrimSpace, WithoutComment, AllProper, Spelled, AllSpace, TrimRightChar, TrimsEnd;
    if AllSpace(line) {
      var cut := TrimRightChar(line, '\r');
      SpacesKept(line, '\r');
      BareSpaces(cut);
      WithoutCommentExact([Bare(cut)], Complete);
      assert cut + "" == cut;
      BlankExact(cut);
    } else {
      var n :| 0 <= n < |line| && AllSpace(line[..n]) && line[n] == '#';
      var spaces := line[..n];
      assert line == spaces + "#" + line[n + 1..];
      var left := HashKept(spaces, line[n + 1..]);
      BareSpaces(spaces);
      WithoutCommentExact([Bare(spaces)], Stopped(left));
      TrimRightCharExact(spaces, ' ');
      SpacesKept(spaces, ' ');
      assert spaces + "#" + left == Spelled([Bare(spaces)]) + EndText(Stopped(left), '#');
      BlankExact(TrimRightChar(spaces, ' '));
      assert TrimsEnd(spaces, ' ', TrimRightChar(spaces, ' '));
    }
  }

  /** The line shows the written one, with nothing after it that counts. */
  predicate Shows(line: string, written: string) {
    written <= line && Ignored(line[|written|..])
  }

  /** The lines show the written ones in order, with blank ones between them. */
  predicate LaidOut(lines: seq<string>, written: seq<string>)
    decreases |lines|
  {
    if lines == [] then written == []
    else
      var last := lines[|lines| - 1];
      || (Blank(last) && LaidOut(lines[..|lines| - 1], written))
      || (&& written != [] && Shows(last, written[|written| - 1])
          && LaidOut(lines[..|lines| - 1], written[..|written| - 1]))
  }

  ghost predicate AllCommentable(lines: seq<string>) {
    forall i :: 0 <= i < |lines| ==> Commentable(lines[i])
  }

  lemma {:induction false} LaidOutClean(lines: seq<string>, written: seq<string>)
    requires LaidOut(lines, written) && AllClean(written) && AllCommentable(written)
    ensures Clean(lines) == written
    decreases |lines|
  {
    hide Sanitized, Commentable, Blank, Ignored, Clean;
    if lines == [] {
      CleanNothing();
    } else {
      var init, last := lines[..|lines| - 1], lines[|lines| - 1];
      assert lines == init + [last];
      CleanSnoc(init, last);
      if Blank(last) && LaidOut(init, written) {
        LaidOutClean(init, written);
        BlankIgnored(last);
        assert written + [] == written;
      } else {
        var start, end := written[..|written| - 1], written[|written| - 1];
        LaidOutClean(init, start);
        TailIgnored(end, last[|end|..]);
        assert last == end + last[|end|..];
        assert written == start + [end];
      }
    }
  }

  lemma CleanNothing()
    ensures Clean([]) == []
  {
  }
}
