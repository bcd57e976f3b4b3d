/** Printing and re-parsing a path: exactly which paths survive, and what that means for
    classifying a printed path against patterns. */
module PathText {
  import opened Text
  import opened Paths

  /** A segment the printer writes so that the scanner can read it back. */
  predicate IsFaithful(segment: Segment) {
    match segment
    case Field(key) => '\'' !in key
    case Index(n) => IsInt(n)
    case _ => true
  }

  predicate Faithful(path: Path) {
    forall i :: 0 <= i < |path| ==> IsFaithful(path[i])
  }

  predicate EndsToken(rest: string) {
    rest != "" ==> rest[0] == '.' || rest[0] == '['
  }

  lemma RestEndsToken(letters: Alphabet, previous: Segment, path: Path)
    ensures EndsToken(RenderedFrom(letters, Some(previous), path))
  {
  }

  lemma {:induction false} EscapeUnquoted(key: string)
    requires '\'' !in key
    ensures Escape(key) == key
  {
    if key != "" {
      EscapeUnquoted(key[1..]);
    }
  }

  /** Up to its first single quote a key is printed as it is, then comes a backslash. */
  lemma {:induction false} EscapeQuoted(key: string) returns (q: nat)
    requires '\'' in key
    ensures q < |key| && key[q] == '\'' && '\'' !in key[..q]
    ensures |Escape(key)| >= q + 2 && Escape(key)[..q + 2] == key[..q] + "\\'"
  {
    if key[0] == '\'' {
      q := 0;
    } else {
      var rest := EscapeQuoted(key[1..]);
      q := rest + 1;
      assert key[..q] == [key[0]] + key[1..][..rest];
      assert Escape(key) == [key[0]] + Escape(key[1..]);
      assert Escape(key)[..q + 2] == [key[0]] + Escape(key[1..])[..rest + 2];
      assert [key[0]] + (key[1..][..rest] + "\\'") == ([key[0]] + key[1..][..rest]) + "\\'";
    }
  }

  lemma {:induction false} TokenLengthOf(token: string, rest: string)
    requires forall i :: 0 <= i < |token| ==> token[i] != '.' && token[i] != '['
    requires EndsToken(rest)
    ensures TokenLength(token + rest) == |token|
  {
    if token == "" {
      assert token + rest == rest;
    } else {
      assert (token + rest)[1..] == token[1..] + rest;
      TokenLengthOf(token[1..], rest);
    }
  }

  lemma TokenParsed(token: string, rest: string)
    requires token != "" && EndsToken(rest)
    requires forall i :: 0 <= i < |token| ==> token[i] != '.' && token[i] != '['
    ensures Segments(token + rest) == Prepend([TokenSegment(token)], Segments(rest))
  {
    TokenLengthOf(token, rest);
    assert (token + rest)[..|token|] == token && (token + rest)[|token|..] == rest;
  }

  lemma DotSkipped(s: string)
    ensures Segments("." + s) == Segments(s)
  {
    assert ("." + s)[1..] == s;
  }

  lemma BracketParsed(text: string, segment: Segment, rest: string)
    requires text != "" && text[0] == '['
    requires Bracket(text + rest) == Ok(Scanned(segment, |text|))
    ensures Segments(text + rest) == Prepend([segment], Segments(rest))
  {
    assert (text + rest)[|text|..] == rest;
  }

  lemma BracketOfIndex(n: int, rest: string)
    requires IsInt(n)
    ensures Bracket("[" + Decimal(n) + "]" + rest) == Ok(Scanned(Index(n), |Decimal(n)| + 2))
  {
    var s := "[" + Decimal(n) + "]" + rest;
    var end := |Decimal(n)| + 1;
    DecimalChars(n);
    forall j | 1 <= j < end ensures s[j] == Decimal(n)[j - 1] {}
    IndexOfUnique(s, ']', 1, end);
    assert s[1..end] == Decimal(n);
    AtoiDecimal(n);
  }

  lemma BracketOfLargeIndex(n: int, rest: string)
    requires !IsInt(n)
    ensures Bracket("[" + Decimal(n) + "]" + rest) == Err(InvalidIndex)
  {
    var s := "[" + Decimal(n) + "]" + rest;
    var end := |Decimal(n)| + 1;
    DecimalChars(n);
    forall j | 1 <= j < end ensures s[j] == Decimal(n)[j - 1] {}
    IndexOfUnique(s, ']', 1, end);
    assert s[1..end] == Decimal(n);
    AtoiDecimal(n);
  }

  lemma BracketOfKey(key: string, rest: string)
    requires '\'' !in key
    ensures Bracket(Quoted(key) + rest) == Ok(Scanned(Field(key), |Quoted(key)|))
  {
    EscapeUnquoted(key);
    var s := Quoted(key) + rest;
    var end := |key| + 2;
    forall j | 2 <= j < end ensures s[j] == key[j - 2] {}
    IndexOfUnique(s, '\'', 2, end);
    assert s[2..end] == key;
  }

  /** A key with a single quote never comes back as itself. */
  lemma BracketOfBadKey(key: string, rest: string)
    requires '\'' in key
    ensures Bracket(Quoted(key) + rest).Ok? ==> Bracket(Quoted(key) + rest).value.segment != Field(key)
  {
    var q := EscapeQuoted(key);
    var s := Quoted(key) + rest;
    var end := q + 3;
    assert s[2..end + 1] == Escape(key)[..q + 2];
    forall j | 2 <= j < end ensures s[j] != '\'' {
      assert s[j] == s[2..end + 1][j - 2];
      assert j - 2 < q ==> key[..q][j - 2] in key[..q];
    }
    assert s[end] == s[2..end + 1][q + 1];
    IndexOfUnique(s, '\'', 2, end);
    assert s[2..end][q] == s[2..end + 1][q] == '\\';
    assert key[q] == '\'';
  }

  lemma KeyParsed(letters: Alphabet, previous: Option<Segment>, key: string, rest: string)
    requires '\'' !in key && EndsToken(rest)
    ensures Segments(Rendered(letters, previous, Field(key)) + rest) == Prepend([Field(key)], Segments(rest))
  {
    if IsBare(letters, key) {
      TokenParsed(key, rest);
      DotSkipped(key + rest);
      assert "." + (key + rest) == "." + key + rest;
      assert "" + key == key;
    } else {
      var text := Quoted(key);
      BracketOfKey(key, rest);
      BracketParsed(text, Field(key), rest);
      DotSkipped(text + rest);
      assert "." + (text + rest) == "." + text + rest;
      assert "" + text == text;
    }
  }

  lemma OtherParsed(letters: Alphabet, previous: Option<Segment>, segment: Segment, rest: string)
    requires !segment.Field? && IsFaithful(segment) && EndsToken(rest)
    ensures Segments(Rendered(letters, previous, segment) + rest) == Prepend([segment], Segments(rest))
  {
    match segment
    case FieldWildcard =>
      TokenParsed("*", rest);
      DotSkipped("*" + rest);
      assert "." + ("*" + rest) == ".*" + rest;
    case Index(n) =>
      BracketOfIndex(n, rest);
      BracketParsed("[" + Decimal(n) + "]", segment, rest);
    case IndexWildcard =>
      var s := "[*]" + rest;
      assert s[1] == '*' && s[2] == ']';
      BracketParsed("[*]", segment, rest);
  }

  /** The head of what a printed path parses to. */
  lemma SegmentParsed(letters: Alphabet, previous: Option<Segment>, segment: Segment, rest: string)
    requires IsFaithful(segment) && EndsToken(rest)
    ensures Segments(Rendered(letters, previous, segment) + rest) == Prepend([segment], Segments(rest))
  {
    if segment.Field? {
      KeyParsed(letters, previous, segment.key, rest);
    } else {
      OtherParsed(letters, previous, segment, rest);
    }
  }

  lemma SegmentMisparsed(letters: Alphabet, previous: Option<Segment>, segment: Segment, rest: string)
    requires !IsFaithful(segment)
    ensures var r := Segments(Rendered(letters, previous, segment) + rest);
            r.Ok? ==> r.value != [] && r.value[0] != segment
  {
    match segment
    case Field(key) =>
      BracketOfBadKey(key, rest);
      DotSkipped(Quoted(key) + rest);
      assert !IsBare(letters, key);
      assert "." + (Quoted(key) + rest) == "." + Quoted(key) + rest;
      assert "" + Quoted(key) == Quoted(key);
      assert (Quoted(key) + rest)[0] == '[';
    case Index(n) =>
      BracketOfLargeIndex(n, rest);
  }

  lemma {:induction false} RenderedParsed(letters: Alphabet, previous: Option<Segment>, path: Path)
    ensures Segments(RenderedFrom(letters, previous, path)) == Ok(path) <==> Faithful(path)
    decreases |path|
  {
    if path != [] {
      var rest := RenderedFrom(letters, Some(path[0]), path[1..]);
      RestEndsToken(letters, path[0], path[1..]);
      RenderedParsed(letters, Some(path[0]), path[1..]);
      assert path == [path[0]] + path[1..];
      if IsFaithful(path[0]) {
        SegmentParsed(letters, previous, path[0], rest);
        if Faithful(path[1..]) {
          forall i | 0 <= i < |path| ensures IsFaithful(path[i]) {
            assert i > 0 ==> path[i] == path[1..][i - 1];
          }
        } else if Segments(rest).Ok? {
          assert ([path[0]] + Segments(rest).value)[1..] == Segments(rest).value;
        }
      } else {
        SegmentMisparsed(letters, previous, path[0], rest);
      }
    }
  }

  lemma RenderedUntrimmable(letters: Alphabet, previous: Option<Segment>, segment: Segment)
    ensures Untrimmable(Rendered(letters, previous, segment))
  {
    hide Escape, Decimal;
    if segment.Field? && IsBare(letters, segment.key) {
      assert IsBareCharacter(letters, segment.key[0]);
      assert IsBareCharacter(letters, segment.key[|segment.key| - 1]);
    }
  }

  lemma {:induction false} RenderedFromUntrimmable(letters: Alphabet, previous: Option<Segment>, path: Path)
    requires path != []
    ensures Untrimmable(RenderedFrom(letters, previous, path))
    decreases |path|
  {
    RenderedUntrimmable(letters, previous, path[0]);
    if |path| > 1 {
      RenderedFromUntrimmable(letters, Some(path[0]), path[1..]);
    }
  }

  /** Parsing a printed path gives the path back exactly when it is non-empty, none of
      its keys holds a single quote and its indices are machine integers. */
  lemma RoundTripExact(letters: Alphabet, path: Path)
    ensures Parsed(RenderedPath(letters, path)) == Ok(path) <==> path != [] && Faithful(path)
  {
    if path == [] {
      TrimSpaceKeeps("<root>");
      TokenLengthOf("<root>", "");
      assert "<root>" + "" == "<root>";
      assert Segments("<root>").Ok? ==> Segments("<root>").value != [];
    } else {
      RenderedFromUntrimmable(letters, None, path);
      TrimSpaceKeeps(RenderedFrom(letters, None, path));
      RenderedParsed(letters, None, path);
    }
  }

  lemma RenderedKey(letters: Alphabet, key: string)
    requires !IsBare(letters, key)
    ensures RenderedPath(letters, [Field(key)]) == Quoted(key)
  {
    var path := [Field(key)];
    assert path[1..] == [];
    assert RenderedFrom(letters, Some(path[0]), path[1..]) == "";
    assert Rendered(letters, None, path[0]) == Quoted(key) by {
      assert "" + Quoted(key) == Quoted(key);
    }
    assert Quoted(key) + "" == Quoted(key);
  }

  lemma RenderInjective(letters: Alphabet, p: Path, q: Path)
    requires p != [] && q != [] && Faithful(p) && Faithful(q)
    requires RenderedPath(letters, p) == RenderedPath(letters, q)
    ensures p == q
  {
    RoundTripExact(letters, p);
    RoundTripExact(letters, q);
  }

  /** Printing what was parsed is a normal form of the text: it denotes the same
      segments, exactly when those segments survive printing. */
  lemma NormalForm(letters: Alphabet, text: string)
    requires Parsed(text).Ok?
    ensures var path := Parsed(text).value;
            Parsed(RenderedPath(letters, path)) == Parsed(text) <==> path != [] && Faithful(path)
  {
    RoundTripExact(letters, Parsed(text).value);
  }

  lemma ConcreteMatchesItself(p: Path, q: Path)
    requires Concrete(p)
    ensures Matches(p, q) <==> p == q
  {
    if Matches(p, q) {
      forall i | 0 <= i < |p| ensures p[i] == q[i] {
        assert SegmentsMatch(p[i], q[i]);
      }
    }
  }

  ghost predicate ClassifiedFaithfully(letters: Alphabet, path: Path) {
    forall patterns :: TextMatchesSome(RenderedPath(letters, path), patterns) <==> MatchesSome(path, patterns)
  }

  /** Classifying the printed text agrees with classifying the position, for every list
      of patterns, exactly on the paths that survive printing. */
  lemma ClassificationExact(letters: Alphabet, path: Path)
    requires Concrete(path) && path != []
    ensures ClassifiedFaithfully(letters, path) <==> Faithful(path)
  {
    RoundTripExact(letters, path);
    if !Faithful(path) {
      var patterns := [path];
      ConcreteMatchesItself(path, path);
      assert Matches(patterns[0], path);
      assert MatchesSome(path, patterns);
      var text := RenderedPath(letters, path);
      if TextMatchesSome(text, patterns) {
        ConcreteMatchesItself(path, Parsed(text).value);
      }
      assert !TextMatchesSome(text, patterns);
    }
  }
}
