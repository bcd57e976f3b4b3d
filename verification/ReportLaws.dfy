/** What a report of changed paths says, and what classifying its texts does. */
module ReportLaws {
  import opened Text
  import opened Sorting
  import opened Paths
  import opened PathText
  import opened Trees
  import opened Compare
  import opened CompareLaws
  import opened Admission
  import opened ScopeLaws

  /** Every position of the object survives printing: no key holds a single quote (and no
      list is longer than a machine integer can count). */
  ghost predicate Printable(o: Fields) {
    forall p :: Lookup(Object(o), p).Some? ==> Faithful(p)
  }

  // ---- texts and positions -----------------------------------------------------

  /** The texts of a diff are exactly the printed positions where the objects part. */
  lemma ChangedTexts(letters: Alphabet, oldObj: Fields, newObj: Fields)
    ensures forall text :: text in Diff(letters, oldObj, newObj).changedPaths <==>
              exists q :: PartsAt(Object(oldObj), Object(newObj), q) && text == RenderedPath(letters, q)
    ensures Sorted(Diff(letters, oldObj, newObj).changedPaths, StringLess)
  {
    var changes := DocumentChanges(oldObj, newObj);
    var texts := RenderedAll(letters, changes);
    CompareExact(oldObj, newObj);
    SortStringsCorrect(texts);
    forall text
      ensures text in texts
         <==> exists q :: PartsAt(Object(oldObj), Object(newObj), q) && text == RenderedPath(letters, q)
    {
      if text in texts {
        var i :| 0 <= i < |texts| && texts[i] == text;
        assert changes[i] in changes;
      }
      if q :| PartsAt(Object(oldObj), Object(newObj), q) && text == RenderedPath(letters, q) {
        assert q in changes;
        var i :| 0 <= i < |changes| && changes[i] == q;
        assert texts[i] == text;
      }
    }
  }

  /** All reported positions can be printed and read back. */
  ghost predicate ReportsFaithfully(v: Fields, w: Fields) {
    forall q :: PartsAt(Object(v), Object(w), q) ==> q != [] && Concrete(q) && Faithful(q)
  }

  lemma PrintableReports(oldObj: Fields, newObj: Fields, scope: Scope)
    requires Printable(oldObj) && Printable(newObj)
    ensures ReportsFaithfully(Scoped(oldObj, scope), Scoped(newObj, scope))
  {
    var v, w := Scoped(oldObj, scope), Scoped(newObj, scope);
    forall q | PartsAt(Object(v), Object(w), q) ensures q != [] && Concrete(q) && Faithful(q) {
      ReportedBelowRoot(v, w, q);
      ReportedPresent(Object(v), Object(w), q);
      if Lookup(Object(v), q).Some? {
        ScopedPositions(oldObj, scope, q);
        LookupConcrete(Object(oldObj), q);
      } else {
        ScopedPositions(newObj, scope, q);
        LookupConcrete(Object(newObj), q);
      }
    }
  }

  lemma TextMatchesPosition(letters: Alphabet, q: Path, patterns: seq<Path>)
    requires q != [] && Faithful(q)
    ensures TextMatchesSome(RenderedPath(letters, q), patterns) <==> MatchesSome(q, patterns)
  {
    RoundTripExact(letters, q);
  }

  lemma {:induction false} ClassifiedContents(changed: seq<string>, patterns: seq<Path>, matching: bool)
    ensures forall x :: x in Classified(changed, patterns, matching) <==>
              x in changed && TextMatchesSome(x, patterns) == matching
  {
    if changed != [] {
      var init, last := changed[..|changed| - 1], changed[|changed| - 1];
      ClassifiedContents(init, patterns, matching);
      assert changed == init + [last];
      assert forall x :: x in changed <==> x in init || x == last;
    }
  }

  // ---- the partition -------------------------------------------------------------

  lemma {:induction false} ClassifiedSums(changed: seq<string>, patterns: seq<Path>)
    ensures multiset(Classified(changed, patterns, true)) + multiset(Classified(changed, patterns, false))
         == multiset(changed)
  {
    if changed != [] {
      var init, last := changed[..|changed| - 1], changed[|changed| - 1];
      var yes, no := Classified(init, patterns, true), Classified(init, patterns, false);
      ClassifiedSums(init, patterns);
      assert changed == init + [last];
      assert multiset(changed) == multiset(init) + multiset{last};
      if TextMatchesSome(last, patterns) {
        assert Classified(changed, patterns, true) == yes + [last] && Classified(changed, patterns, false) == no;
      } else {
        assert Classified(changed, patterns, true) == yes && Classified(changed, patterns, false) == no + [last];
      }
    }
  }

  /** Increasing, hence in order and without repetitions. */
  predicate Increasing(s: seq<string>) {
    forall i, j :: 0 <= i < j < |s| ==> StringLess(s[i], s[j])
  }

  lemma {:induction false} ClassifiedIncreasing(changed: seq<string>, patterns: seq<Path>, matching: bool)
    requires Increasing(changed)
    ensures Increasing(Classified(changed, patterns, matching))
  {
    if changed != [] {
      var init, last := changed[..|changed| - 1], changed[|changed| - 1];
      ClassifiedIncreasing(init, patterns, matching);
      ClassifiedContents(init, patterns, matching);
      var kept := Classified(init, patterns, matching);
      forall i | 0 <= i < |kept| ensures StringLess(kept[i], last) {
        assert kept[i] in kept;
        var j :| 0 <= j < |init| && init[j] == kept[i];
        assert StringLess(changed[j], changed[|changed| - 1]);
      }
    }
  }

  lemma RenderedNoRepeats(letters: Alphabet, paths: seq<Path>)
    requires NoRepeats(paths) && forall q :: q in paths ==> q != [] && Faithful(q)
    ensures NoRepeats(RenderedAll(letters, paths))
  {
    forall i, j | 0 <= i < j < |paths| ensures RenderedPath(letters, paths[i]) != RenderedPath(letters, paths[j]) {
      assert paths[i] in paths && paths[j] in paths;
      if RenderedPath(letters, paths[i]) == RenderedPath(letters, paths[j]) {
        RenderInjective(letters, paths[i], paths[j]);
      }
    }
  }

  lemma {:induction false} CountsOfDistinct(s: seq<string>, x: string)
    requires NoRepeats(s)
    ensures multiset(s)[x] <= 1
  {
    if s != [] {
      var init, last := s[..|s| - 1], s[|s| - 1];
      CountsOfDistinct(init, x);
      assert s == init + [last];
      if x == last {
        assert x !in init;
        assert x !in multiset(init);
      }
    }
  }

  lemma SortedDistinctIncreasing(s: seq<string>, t: seq<string>)
    requires NoRepeats(s) && multiset(s) == multiset(t) && Sorted(t, StringLess)
    ensures Increasing(t)
  {
    forall i, j | 0 <= i < j < |t| ensures StringLess(t[i], t[j]) {
      StringLessTotal(t[i], t[j]);
      if t[i] == t[j] {
        RepeatCounts(t, i, j);
        CountsOfDistinct(s, t[i]);
      }
    }
  }

  /** The changed paths are listed once each, and the two halves of the partition are
      disjoint, in order, together exactly the changed paths, and split them by whether
      the position itself matches a mutable pattern. */
  lemma PartitionExact(letters: Alphabet, v: Fields, w: Fields, patterns: seq<Path>)
    requires ReportsFaithfully(v, w)
    ensures var changed := Diff(letters, v, w).changedPaths;
            var mutable, immutable := Classified(changed, patterns, true), Classified(changed, patterns, false);
            && Increasing(changed) && Increasing(mutable) && Increasing(immutable)
            && multiset(mutable) + multiset(immutable) == multiset(changed)
            && (forall x :: !(x in mutable && x in immutable))
            && (forall q :: PartsAt(Object(v), Object(w), q) ==>
                  if MatchesSome(q, patterns) then RenderedPath(letters, q) in mutable
                  else RenderedPath(letters, q) in immutable)
  {
    var changes := DocumentChanges(v, w);
    var texts := RenderedAll(letters, changes);
    var changed := Diff(letters, v, w).changedPaths;
    CompareExact(v, w);
    RenderedNoRepeats(letters, changes);
    SortStringsCorrect(texts);
    SortedDistinctIncreasing(texts, changed);
    ClassifiedIncreasing(changed, patterns, true);
    ClassifiedIncreasing(changed, patterns, false);
    ClassifiedSums(changed, patterns);
    ClassifiedContents(changed, patterns, true);
    ClassifiedContents(changed, patterns, false);
    ChangedTexts(letters, v, w);
    forall q | PartsAt(Object(v), Object(w), q)
      ensures RenderedPath(letters, q) in changed
      ensures TextMatchesSome(RenderedPath(letters, q), patterns) <==> MatchesSome(q, patterns)
    {
      TextMatchesPosition(letters, q, patterns);
    }
  }

  // ---- what a text is taken for ----------------------------------------------------------

  /** The concrete path that the printed text of a position is taken for, if any. */
  function Reading(letters: Alphabet, q: Path): Option<Path> {
    var r := Parsed(RenderedPath(letters, q));
    if r.Ok? && Concrete(r.value) then Some(r.value) else None
  }

  /** The mutable list is well-formed and accepts every reported text. */
  ghost predicate Accepts(letters: Alphabet, v: Fields, w: Fields, mutable: seq<string>) {
    ParsedAll(mutable).Ok? && Classified(Diff(letters, v, w).changedPaths, ParsedAll(mutable).value, false) == []
  }

  /** Wildcards match no pattern, so only texts of concrete paths are accepted. */
  lemma AcceptedReads(letters: Alphabet, q: Path, patterns: seq<Path>)
    ensures TextMatchesSome(RenderedPath(letters, q), patterns)
       <==> Reading(letters, q).Some? && MatchesSome(Reading(letters, q).value, patterns)
  {
    var r := Parsed(RenderedPath(letters, q));
    if r.Ok? && MatchesSome(r.value, patterns) {
      var i :| 0 <= i < |patterns| && Matches(patterns[i], r.value);
      assert forall k :: 0 <= k < |r.value| ==> SegmentsMatch(patterns[i][k], r.value[k]);
    }
  }

  /** Some reported position whose text is not taken for a path that a mutable pattern matches. */
  ghost predicate ChangeRefused(letters: Alphabet, v: Fields, w: Fields, patterns: seq<Path>) {
    exists q :: PartsAt(Object(v), Object(w), q) &&
      !(Reading(letters, q).Some? && MatchesSome(Reading(letters, q).value, patterns))
  }

  /** For all keys: classifying texts refuses a change iff some text is not taken for a
      matching path. */
  lemma RefusedExact(letters: Alphabet, v: Fields, w: Fields, patterns: seq<Path>)
    ensures Classified(Diff(letters, v, w).changedPaths, patterns, false) != []
       <==> ChangeRefused(letters, v, w, patterns)
  {
    var changed := Diff(letters, v, w).changedPaths;
    var denied := Classified(changed, patterns, false);
    ChangedTexts(letters, v, w);
    ClassifiedContents(changed, patterns, false);
    forall q | PartsAt(Object(v), Object(w), q)
      ensures RenderedPath(letters, q) in denied <==>
                !(Reading(letters, q).Some? && MatchesSome(Reading(letters, q).value, patterns))
    {
      AcceptedReads(letters, q, patterns);
    }
    if denied != [] {
      assert denied[0] in denied;
      var q :| PartsAt(Object(v), Object(w), q) && denied[0] == RenderedPath(letters, q);
    }
  }

  lemma AcceptedExact(letters: Alphabet, v: Fields, w: Fields, mutable: seq<string>)
    requires ParsedAll(mutable).Ok?
    ensures Accepts(letters, v, w, mutable) <==>
              forall q :: PartsAt(Object(v), Object(w), q) ==>
                Reading(letters, q).Some? && MatchesSome(Reading(letters, q).value, ParsedAll(mutable).value)
  {
    hide Classified, Diff, PartsAt, Reading;
    RefusedExact(letters, v, w, ParsedAll(mutable).value);
  }

  /** Printable positions are read as themselves. */
  lemma PrintableReadings(letters: Alphabet, v: Fields, w: Fields)
    requires ReportsFaithfully(v, w)
    ensures forall q :: PartsAt(Object(v), Object(w), q) ==> Reading(letters, q) == Some(q)
  {
    forall q | PartsAt(Object(v), Object(w), q) ensures Reading(letters, q) == Some(q) {
      RoundTripExact(letters, q);
    }
  }

  /** Some reported position matches no mutable pattern. */
  ghost predicate ChangesImmutable(v: Fields, w: Fields, patterns: seq<Path>) {
    exists q :: PartsAt(Object(v), Object(w), q) && !MatchesSome(q, patterns)
  }

  /** With printable positions, classifying texts finds an immutable change iff there is one. */
  lemma ImmutableExact(letters: Alphabet, v: Fields, w: Fields, patterns: seq<Path>)
    requires ReportsFaithfully(v, w)
    ensures ChangeRefused(letters, v, w, patterns) <==> ChangesImmutable(v, w, patterns)
    ensures Classified(Diff(letters, v, w).changedPaths, patterns, false) != [] <==> ChangesImmutable(v, w, patterns)
  {
    hide Classified, Diff, PartsAt, MatchesSome;
    RefusedExact(letters, v, w, patterns);
    PrintableReadings(letters, v, w);
    if ChangesImmutable(v, w, patterns) {
      var q :| PartsAt(Object(v), Object(w), q) && !MatchesSome(q, patterns);
      assert Reading(letters, q) == Some(q);
    }
  }
}
