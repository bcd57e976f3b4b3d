/** What the line scanners do, said of how a line is made up: plain text, quoted strings, and
    what follows the first delimiter outside quotes. */
module ScannerLaws {
  import opened Text
  import opened TextLaws
  import opened RuleText

  // ---- how a line is made up ---------------------------------------------------------------

  /** Plain text, or a string between two quotes of one kind. */
  datatype Piece = Bare(text: string) | Literal(quote: char, text: string)

  function Spell(p: Piece): string {
    match p
    case Bare(text) => text
    case Literal(quote, text) => [quote] + text + [quote]
  }

  function Spelled(ps: seq<Piece>): string {
    if ps == [] then "" else Spell(ps[0]) + Spelled(ps[1..])
  }

  /** Plain text holds neither a quote nor the delimiter; a string may hold both the delimiter
      and the other kind of quote. */
  predicate Proper(p: Piece, stop: char) {
    match p
    case Bare(text) => '\'' !in text && '"' !in text && stop !in text
    case Literal(quote, text) => (quote == '\'' || quote == '"') && quote !in text
  }

  predicate AllProper(ps: seq<Piece>, stop: char) {
    forall i :: 0 <= i < |ps| ==> Proper(ps[i], stop)
  }

  /** How a text ends after its pieces: at once, in a string that is never closed, or with the
      delimiter and anything. */
  datatype Ending = Complete | Unclosed(quote: char, text: string) | Stopped(rest: string)

  predicate ProperEnd(e: Ending) {
    e.Unclosed? ==> (e.quote == '\'' || e.quote == '"') && e.quote !in e.text
  }

  function EndText(e: Ending, stop: char): string {
    match e
    case Complete => ""
    case Unclosed(quote, text) => [quote] + text
    case Stopped(rest) => [stop] + rest
  }

  /** The position of the first delimiter outside quotes, or the length of the text. */
  function StopOf(ps: seq<Piece>, e: Ending, stop: char): nat {
    if e.Stopped? then |Spelled(ps)| else |Spelled(ps) + EndText(e, stop)|
  }

  // ---- scanning ----------------------------------------------------------------------------------

  lemma {:induction false} PassBare(s: string, c: char, i: nat, j: nat)
    requires i <= j <= |s| && forall k :: i <= k < j ==> s[k] != '\'' && s[k] != '"' && s[k] != c
    ensures FindUnquoted(s, c, i, None) == FindUnquoted(s, c, j, None)
    decreases j - i
  {
    if i < j {
      PassBare(s, c, i + 1, j);
    }
  }

  /** Nothing between the quotes counts. */
  lemma {:induction false} PassInside(s: string, c: char, i: nat, j: nat, quote: char)
    requires i <= j <= |s| && (quote == '\'' || quote == '"') && forall k :: i <= k < j ==> s[k] != quote
    ensures FindUnquoted(s, c, i, Some(quote)) == FindUnquoted(s, c, j, Some(quote))
    decreases j - i
  {
    if i < j {
      PassInside(s, c, i + 1, j, quote);
    }
  }

  lemma PassPiece(s: string, stop: char, i: nat, p: Piece)
    requires Proper(p, stop) && i + |Spell(p)| <= |s| && s[i..i + |Spell(p)|] == Spell(p)
    ensures FindUnquoted(s, stop, i, None) == FindUnquoted(s, stop, i + |Spell(p)|, None)
  {
    var t, end := Spell(p), i + |Spell(p)|;
    forall k | i <= k < end ensures s[k] == t[k - i] {
      assert s[i..end][k - i] == s[k];
    }
    match p
    case Bare(text) => PassBare(s, stop, i, end);
    case Literal(quote, text) =>
      assert s[i] == quote && s[end - 1] == quote;
      forall k | i < k < end - 1 ensures s[k] != quote {
        assert s[k] == text[k - i - 1];
      }
      PassInside(s, stop, i + 1, end - 1, quote);
  }

  lemma SliceParts(s: string, i: nat, a: string, b: string)
    requires i + |a| + |b| <= |s| && s[i..i + |a| + |b|] == a + b
    ensures s[i..i + |a|] == a && s[i + |a|..i + |a| + |b|] == b
  {
    assert s[i..i + |a|] == s[i..i + |a| + |b|][..|a|];
    assert s[i + |a|..i + |a| + |b|] == s[i..i + |a| + |b|][|a|..];
  }

  lemma {:induction false} PassPieces(s: string, stop: char, i: nat, ps: seq<Piece>)
    requires AllProper(ps, stop) && i + |Spelled(ps)| <= |s| && s[i..i + |Spelled(ps)|] == Spelled(ps)
    ensures FindUnquoted(s, stop, i, None) == FindUnquoted(s, stop, i + |Spelled(ps)|, None)
    decreases |ps|
  {
    hide FindUnquoted, Spell, Proper;
    if ps != [] {
      var n := |Spell(ps[0])|;
      SliceParts(s, i, Spell(ps[0]), Spelled(ps[1..]));
      PassPiece(s, stop, i, ps[0]);
      PassPieces(s, stop, i + n, ps[1..]);
    }
  }

  /** The scan stops at the first delimiter that stands in no string, and only there. */
  lemma FindUnquotedExact(ps: seq<Piece>, e: Ending, stop: char)
    requires AllProper(ps, stop) && ProperEnd(e) && stop != '\'' && stop != '"'
    ensures FindUnquoted(Spelled(ps) + EndText(e, stop), stop, 0, None) == StopOf(ps, e, stop)
  {
    hide AllProper;
    var s, n := Spelled(ps) + EndText(e, stop), |Spelled(ps)|;
    PassPieces(s, stop, 0, ps);
    if e.Unclosed? {
      assert s[n] == e.quote;
      forall k | n + 1 <= k < |s| ensures s[k] != e.quote {
        assert s[k] == e.text[k - n - 1];
      }
      PassInside(s, stop, n + 1, |s|, e.quote);
    }
  }

  lemma {:induction false} FirstOf(s: string, a: char, b: char, c: char) returns (i: nat)
    ensures i <= |s| && a !in s[..i] && b !in s[..i] && c !in s[..i]
    ensures i < |s| ==> s[i] == a || s[i] == b || s[i] == c
  {
    if s == "" || s[0] == a || s[0] == b || s[0] == c {
      i := 0;
    } else {
      var rest := FirstOf(s[1..], a, b, c);
      i := rest + 1;
      assert s[..i] == [s[0]] + s[1..][..rest];
    }
  }

  /** Every text is made up in this way. */
  lemma {:induction false} MadeUp(s: string, stop: char) returns (ps: seq<Piece>, e: Ending)
    requires stop != '\'' && stop != '"'
    ensures AllProper(ps, stop) && ProperEnd(e) && s == Spelled(ps) + EndText(e, stop)
    decreases |s|
  {
    hide Proper, Spell, Spelled, AllProper;
    var i := FirstOf(s, '\'', '"', stop);
    OneBare(s[..i], stop);
    assert s == s[..i] + s[i..];
    if i == |s| {
      ps, e := [Bare(s[..i])], Complete;
    } else if s[i] == stop {
      ps, e := [Bare(s[..i])], Stopped(s[i + 1..]);
    } else {
      var quote, rest := s[i], s[i + 1..];
      var j := FirstOf(rest, quote, quote, quote);
      assert rest == rest[..j] + rest[j..];
      if j == |rest| {
        ps, e := [Bare(s[..i])], Unclosed(quote, rest);
      } else {
        var qs: seq<Piece>;
        qs, e := MadeUp(rest[j + 1..], stop);
        ps := [Bare(s[..i])] + ([Literal(quote, rest[..j])] + qs);
        BareAndLiteral(s[..i], quote, rest[..j], qs, stop);
        Reassembled(s, i, quote, j, Spelled(qs), EndText(e, stop));
      }
    }
  }

  lemma Reassembled(s: string, i: nat, quote: char, j: nat, spelled: string, end: string)
    requires i < |s| && s[i] == quote && j < |s| - i - 1 && s[i + 1 + j] == quote
    requires s[i + 1..][j + 1..] == spelled + end
    ensures s == s[..i] + (([quote] + s[i + 1..][..j] + [quote]) + spelled) + end
  {
    assert s == s[..i] + [quote] + s[i + 1..];
    assert s[i + 1..] == s[i + 1..][..j] + [quote] + s[i + 1..][j + 1..];
  }

  lemma OneBare(text: string, stop: char)
    requires '\'' !in text && '"' !in text && stop !in text
    ensures AllProper([Bare(text)], stop) && Spelled([Bare(text)]) == text
  {
    OnePiece(Bare(text));
    BareProper(text, stop);
  }

  lemma BareAndLiteral(text: string, quote: char, inner: string, qs: seq<Piece>, stop: char)
    requires '\'' !in text && '"' !in text && stop !in text
    requires (quote == '\'' || quote == '"') && quote !in inner && AllProper(qs, stop)
    ensures var ps := [Bare(text)] + ([Literal(quote, inner)] + qs);
            AllProper(ps, stop) && Spelled(ps) == text + (([quote] + inner + [quote]) + Spelled(qs))
  {
    hide Proper, Spell, Spelled;
    BareProper(text, stop);
    LiteralSpelled(quote, inner, stop);
    FirstPiece(Bare(text), [Literal(quote, inner)] + qs);
    FirstPiece(Literal(quote, inner), qs);
  }

  lemma BareProper(text: string, stop: char)
    requires '\'' !in text && '"' !in text && stop !in text
    ensures Proper(Bare(text), stop) && Spell(Bare(text)) == text
  {
  }

  lemma LiteralSpelled(quote: char, text: string, stop: char)
    requires (quote == '\'' || quote == '"') && quote !in text
    ensures Proper(Literal(quote, text), stop) && Spell(Literal(quote, text)) == [quote] + text + [quote]
  {
  }

  lemma FirstPiece(p: Piece, ps: seq<Piece>)
    ensures Spelled([p] + ps) == Spell(p) + Spelled(ps)
  {
    assert ([p] + ps)[1..] == ps;
  }

  lemma OnePiece(p: Piece)
    ensures Spelled([p]) == Spell(p)
  {
    assert [p][1..] == [];
  }

  lemma {:induction false} SpelledJoin(ps: seq<Piece>, qs: seq<Piece>)
    ensures Spelled(ps + qs) == Spelled(ps) + Spelled(qs)
  {
    hide Spell;
    if ps == [] {
      assert ps + qs == qs;
    } else {
      assert ps + qs == [ps[0]] + (ps[1..] + qs);
      FirstPiece(ps[0], ps[1..] + qs);
      SpelledJoin(ps[1..], qs);
    }
  }

  // ---- comments ------------------------------------------------------------------------------------

  predicate AllOf(s: string, c: char) {
    forall k :: 0 <= k < |s| ==> s[k] == c
  }

  /** `t` is what is left of `s` without the characters `c` at its end. */
  predicate TrimsEnd(s: string, c: char, t: string) {
    t <= s && AllOf(s[|t|..], c) && (t != "" ==> t[|t| - 1] != c)
  }

  lemma LastTrimmed(s: string, c: char, t: string)
    requires t <= s && t != s && AllOf(s[|t|..], c)
    ensures s[|s| - 1] == c
  {
    assert s[|s| - 1] == s[|t|..][|s| - |t| - 1];
  }

  lemma {:induction false} TrimRightCharExact(s: string, c: char)
    ensures TrimsEnd(s, c, TrimRightChar(s, c))
    ensures forall t :: TrimsEnd(s, c, t) ==> t == TrimRightChar(s, c)
  {
    forall t | TrimsEnd(s, c, t) && t != s ensures s != "" && s[|s| - 1] == c {
      LastTrimmed(s, c, t);
    }
    if s != "" && s[|s| - 1] == c {
      var init := s[..|s| - 1];
      TrimRightCharExact(init, c);
      var r := TrimRightChar(init, c);
      forall k | 0 <= k < |s[|r|..]| ensures s[|r|..][k] == c {
        assert k < |init| - |r| ==> s[|r|..][k] == init[|r|..][k];
      }
      forall t | TrimsEnd(s, c, t) ensures t == r {
        assert t != s;
        assert t <= init;
        forall k | 0 <= k < |init[|t|..]| ensures init[|t|..][k] == c {
          assert init[|t|..][k] == s[|t|..][k];
        }
        assert TrimsEnd(init, c, t);
      }
    } else {
      assert forall t :: TrimsEnd(s, c, t) ==> t == s;
    }
  }

  /** A comment is cut with the spaces before it; a hash in a string starts none. */
  lemma WithoutCommentExact(ps: seq<Piece>, e: Ending)
    requires AllProper(ps, '#') && ProperEnd(e)
    ensures var line := Spelled(ps) + EndText(e, '#');
            if e.Stopped? then TrimsEnd(Spelled(ps), ' ', WithoutComment(line)) else WithoutComment(line) == line
  {
    hide AllProper, FindUnquoted;
    FindUnquotedExact(ps, e, '#');
    TrimRightCharExact(Spelled(ps), ' ');
    var line := Spelled(ps) + EndText(e, '#');
    assert line[..|Spelled(ps)|] == Spelled(ps);
  }

  // ---- keys and values --------------------------------------------------------------------------

  /** A pair is split at the first colon outside quotes, if there is one and a key before it. */
  lemma SplitPairExact(ps: seq<Piece>, e: Ending, key: string)
    requires AllProper(ps, ':') && ProperEnd(e) && Trims(Spelled(ps), key)
    ensures match SplitPair(Spelled(ps) + EndText(e, ':'))
            case None => !e.Stopped? || key == ""
            case Some(pair) => e.Stopped? && key != "" && pair.key == key && Trims(e.rest, pair.value)
  {
    hide AllProper, FindUnquoted, TrimSpace, Trims;
    FindUnquotedExact(ps, e, ':');
    TrimSpaceExact(Spelled(ps), key);
    var line := Spelled(ps) + EndText(e, ':');
    assert line[..|Spelled(ps)|] == Spelled(ps);
    if e.Stopped? {
      assert line[|Spelled(ps)| + 1..] == e.rest;
      TrimSpaceTrims(e.rest);
    }
  }

  /** A scalar is what stands between its outer quotes, of either kind, if it has a pair of them. */
  lemma ScalarExact(value: string, text: string)
    requires Trims(value, text)
    ensures forall quote, inner :: (quote == '\'' || quote == '"') && text == [quote] + inner + [quote] ==>
              Scalar(value) == inner
    ensures (forall inner :: text != "'" + inner + "'" && text != "\"" + inner + "\"") ==> Scalar(value) == text
  {
    hide TrimSpace, Trims;
    TrimSpaceExact(value, text);
    if |text| >= 2 && text[|text| - 1] == text[0] {
      assert text == [text[0]] + text[1..|text| - 1] + [text[0]];
    }
  }

  // ---- inline lists -----------------------------------------------------------------------------

  /** Items that hold no comma outside quotes, with commas between them. */
  function Commas(items: seq<seq<Piece>>): string
    requires items != []
  {
    if |items| == 1 then Spelled(items[0]) else Spelled(items[0]) + "," + Commas(items[1..])
  }

  predicate Itemized(items: seq<seq<Piece>>) {
    forall i :: 0 <= i < |items| ==> AllProper(items[i], ',')
  }

  lemma {:induction false} PassItemBare(s: string, start: nat, i: nat, j: nat, done: seq<string>)
    requires start <= i <= j <= |s| && forall k :: i <= k < j ==> s[k] != '\'' && s[k] != '"' && s[k] != ','
    ensures InlineItems(s, start, i, None, done) == InlineItems(s, start, j, None, done)
    decreases j - i
  {
    if i < j {
      PassItemBare(s, start, i + 1, j, done);
    }
  }

  lemma {:induction false} PassItemInside(s: string, start: nat, i: nat, j: nat, quote: char, done: seq<string>)
    requires start <= i <= j <= |s| && (quote == '\'' || quote == '"') && forall k :: i <= k < j ==> s[k] != quote
    ensures InlineItems(s, start, i, Some(quote), done) == InlineItems(s, start, j, Some(quote), done)
    decreases j - i
  {
    if i < j {
      PassItemInside(s, start, i + 1, j, quote, done);
    }
  }

  lemma PassItemPiece(s: string, start: nat, i: nat, p: Piece, done: seq<string>)
    requires Proper(p, ',') && start <= i && i + |Spell(p)| <= |s| && s[i..i + |Spell(p)|] == Spell(p)
    ensures InlineItems(s, start, i, None, done) == InlineItems(s, start, i + |Spell(p)|, None, done)
  {
    hide Scalar, TrimSpace;
    var t, end := Spell(p), i + |Spell(p)|;
    forall k | i <= k < end ensures s[k] == t[k - i] {
      assert s[i..end][k - i] == s[k];
    }
    match p
    case Bare(text) => PassItemBare(s, start, i, end, done);
    case Literal(quote, text) =>
      assert s[i] == quote && s[end - 1] == quote;
      forall k | i < k < end - 1 ensures s[k] != quote {
        assert s[k] == text[k - i - 1];
      }
      PassItemInside(s, start, i + 1, end - 1, quote, done);
  }

  lemma {:induction false} PassItem(s: string, start: nat, i: nat, ps: seq<Piece>, done: seq<string>)
    requires AllProper(ps, ',') && start <= i && i + |Spelled(ps)| <= |s| && s[i..i + |Spelled(ps)|] == Spelled(ps)
    ensures InlineItems(s, start, i, None, done) == InlineItems(s, start, i + |Spelled(ps)|, None, done)
    decreases |ps|
  {
    hide InlineItems, Spell, Proper;
    if ps != [] {
      var n := |Spell(ps[0])|;
      SliceParts(s, i, Spell(ps[0]), Spelled(ps[1..]));
      PassItemPiece(s, start, i, ps[0], done);
      PassItem(s, start, i + n, ps[1..], done);
    }
  }

  /** The list holds one scalar for each item. */
  predicate ScalarsOf(items: seq<seq<Piece>>, read: seq<string>) {
    |read| == |items| && forall i :: 0 <= i < |items| ==> read[i] == Scalar(Spelled(items[i]))
  }

  lemma ScalarTrimmed(value: string)
    ensures Scalar(TrimSpace(value)) == Scalar(value)
  {
    hide Trims;
    var t := TrimSpace(value);
    TrimSpaceTrims(value);
    TrimmedKept(value, t);
  }

  lemma TrimmedKept(value: string, t: string)
    requires Trims(value, t)
    ensures TrimSpace(t) == t
  {
    TrimSpaceKeeps(t);
  }

  lemma {:induction false} InlineItemsRead(s: string, start: nat, items: seq<seq<Piece>>, done: seq<string>)
    returns (read: seq<string>)
    requires items != [] && Itemized(items) && start <= |s| && s[start..] == Commas(items)
    ensures InlineItems(s, start, start, None, done) == done + read && ScalarsOf(items, read)
    decreases |items|
  {
    hide Scalar, TrimSpace, AllProper, Spelled;
    var first := Spelled(items[0]);
    var end := start + |first|;
    assert s[start..end] == s[start..][..|first|] == first;
    PassItem(s, start, start, items[0], done);
    ScalarTrimmed(first);
    if |items| == 1 {
      read := [Scalar(first)];
      assert s[start..] == first;
    } else {
      var rest := Commas(items[1..]);
      assert s[end..] == s[start..][|first|..] == "," + rest;
      assert s[end] == s[end..][0] == ',';
      assert s[end + 1..] == s[end..][1..] == rest;
      var others := InlineItemsRead(s, end + 1, items[1..], done + [Scalar(first)]);
      read := [Scalar(first)] + others;
      assert done + [Scalar(first)] + others == done + read;
    }
  }

  /** Between brackets stands nothing, or items with commas between them, each of which is read
      as a scalar; anything without the brackets is no list. */
  lemma InlineListExact(value: string, text: string, content: string, items: seq<seq<Piece>>)
    requires Trims(value, text)
    ensures !(|text| >= 2 && text[0] == '[' && text[|text| - 1] == ']') ==>
              InlineList(value) == Err(ExpectedInlineList)
    ensures |text| >= 2 && text[0] == '[' && text[|text| - 1] == ']' && Trims(text[1..|text| - 1], content) ==>
              && InlineList(value).Ok?
              && (content == "" ==> InlineList(value).value == [])
              && (content != "" && items != [] && Itemized(items) && content == Commas(items) ==>
                    ScalarsOf(items, InlineList(value).value))
  {
    hide TrimSpace, Trims, Scalar, InlineItems, Itemized;
    TrimSpaceExact(value, text);
    if |text| >= 2 && text[0] == '[' && text[|text| - 1] == ']' && Trims(text[1..|text| - 1], content) {
      TrimSpaceExact(text[1..|text| - 1], content);
      if text == "[]" {
        assert text[1..|text| - 1] == "";
        EmptyTrims(content);
      } else if content != "" && items != [] && Itemized(items) && content == Commas(items) {
        assert content[0..] == content;
        var read := InlineItemsRead(content, 0, items, []);
        assert [] + read == read;
      }
    }
  }

  lemma EmptyTrims(content: string)
    requires Trims("", content)
    ensures content == ""
  {
  }

  // ---- indentation -----------------------------------------------------------------------------

  /** Exactly the spaces at the beginning count. */
  lemma {:induction false} IndentFromExact(line: string, i: nat)
    requires i <= |line|
    ensures forall k :: i <= k < IndentFrom(line, i) ==> line[k] == ' '
    ensures IndentFrom(line, i) < |line| ==> line[IndentFrom(line, i)] != ' '
    decreases |line| - i
  {
    if i < |line| && line[i] == ' ' {
      IndentFromExact(line, i + 1);
    }
  }
}
