/** Exactly when a change can slip through as mutable, for all keys. */
module DriftExact {
  import opened Text
  import opened Paths
  import opened PathText
  import opened Trees
  import opened Compare
  import opened CompareLaws
  import opened Admission
  import opened ScopeLaws
  import opened ReportLaws

  /** Every reported text is taken for a concrete path. */
  ghost predicate AllRead(letters: Alphabet, v: Fields, w: Fields) {
    forall q :: PartsAt(Object(v), Object(w), q) ==> Reading(letters, q).Some?
  }

  /** No reported text is taken for a prefix of `q`. */
  ghost predicate Unread(letters: Alphabet, v: Fields, w: Fields, q: Path) {
    forall other :: PartsAt(Object(v), Object(w), other) && Reading(letters, other).Some? ==>
      !(Reading(letters, other).value <= q)
  }

  lemma ParsedElements(texts: seq<string>)
    requires forall text :: text in texts ==> Parsed(text).Ok?
    ensures ParsedAll(texts).Ok?
    ensures forall r :: r in ParsedAll(texts).value <==> exists text :: text in texts && Parsed(text) == Ok(r)
  {
    hide ParsedAll, Parsed;
    ParsedAllPointwise(texts);
    var patterns := ParsedAll(texts).value;
    forall text | text in texts ensures Parsed(text).value in patterns {
      var i :| 0 <= i < |texts| && texts[i] == text;
      assert patterns[i] in patterns;
    }
    forall r | r in patterns ensures exists text :: text in texts && Parsed(text) == Ok(r) {
      var i :| 0 <= i < |patterns| && patterns[i] == r;
      assert texts[i] in texts;
    }
  }

  /** Taken as patterns, the reported texts parse to their own readings. */
  lemma ReadingsParsed(letters: Alphabet, v: Fields, w: Fields) returns (patterns: seq<Path>)
    requires AllRead(letters, v, w)
    ensures ParsedAll(Diff(letters, v, w).changedPaths) == Ok(patterns)
    ensures forall r :: r in patterns ==> exists q :: PartsAt(Object(v), Object(w), q) && Reading(letters, q) == Some(r)
    ensures forall q :: PartsAt(Object(v), Object(w), q) ==> Reading(letters, q).value in patterns
  {
    hide PartsAt, Diff, ParsedAll, Parsed, RenderedPath, Concrete;
    var changed := Diff(letters, v, w).changedPaths;
    ChangedTexts(letters, v, w);
    ParsedElements(changed);
    patterns := ParsedAll(changed).value;
  }

  /** Among concrete patterns, being covered is having one as a prefix. */
  lemma CoveredByConcrete(q: Path, patterns: seq<Path>)
    requires forall r :: r in patterns ==> Concrete(r)
    ensures Covered(q, patterns) <==> exists r :: r in patterns && r <= q
  {
    if Covered(q, patterns) {
      var n :| 0 <= n <= |q| && MatchesSome(q[..n], patterns);
      var i :| 0 <= i < |patterns| && Matches(patterns[i], q[..n]);
      ConcreteMatchesItself(patterns[i], q[..n]);
      assert patterns[i] in patterns;
    }
    if r :| r in patterns && r <= q {
      var i :| 0 <= i < |patterns| && patterns[i] == r;
      ConcreteMatchesItself(r, r);
      PrefixCovers(q, r, patterns);
    }
  }

  lemma PrefixCovers(q: Path, r: Path, patterns: seq<Path>)
    ensures r <= q && MatchesSome(r, patterns) ==> Covered(q, patterns)
  {
    if r <= q {
      assert q[..|r|] == r;
    }
  }

  lemma ReadingConcrete(letters: Alphabet, q: Path)
    ensures Reading(letters, q).Some? ==> Concrete(Reading(letters, q).value)
  {
  }

  lemma DifferenceAt(v: Fields, w: Fields, p: Path) returns (q: Path)
    requires Leaf(Object(v), p) != Leaf(Object(w), p)
    ensures PartsAt(Object(v), Object(w), q) && q <= p
  {
    q := DifferenceReported(Object(v), Object(w), p);
  }

  /** Taken as a mutable list, the reported texts accept the update and cover only what lies
      below their readings. */
  lemma ReadingsAccept(letters: Alphabet, v: Fields, w: Fields, p: Path)
    requires AllRead(letters, v, w) && Unread(letters, v, w, p)
    ensures var mutable := Diff(letters, v, w).changedPaths;
            Accepts(letters, v, w, mutable) && ParsedAll(mutable).Ok? && !Covered(p, ParsedAll(mutable).value)
  {
    hide PartsAt, Diff, Reading, Accepts, ParsedAll;
    var patterns := ReadingsParsed(letters, v, w);
    forall r | r in patterns ensures Concrete(r) && !(r <= p) {
      var other :| PartsAt(Object(v), Object(w), other) && Reading(letters, other) == Some(r);
      ReadingConcrete(letters, other);
    }
    CoveredByConcrete(p, patterns);
    forall other | PartsAt(Object(v), Object(w), other) ensures MatchesSome(Reading(letters, other).value, patterns) {
      var r := Reading(letters, other).value;
      var i :| 0 <= i < |patterns| && patterns[i] == r;
      ConcreteMatchesItself(r, r);
    }
    AcceptedExact(letters, v, w, Diff(letters, v, w).changedPaths);
  }

  /** A list that accepts the update covers whatever lies below a reading. */
  lemma AcceptedUnread(letters: Alphabet, v: Fields, w: Fields, mutable: seq<string>, p: Path)
    requires ParsedAll(mutable).Ok? && Accepts(letters, v, w, mutable) && !Covered(p, ParsedAll(mutable).value)
    ensures AllRead(letters, v, w) && Unread(letters, v, w, p)
  {
    hide PartsAt, Diff, Reading, ParsedAll, Accepts, Covered, MatchesSome;
    AcceptedExact(letters, v, w, mutable);
    forall other | PartsAt(Object(v), Object(w), other) && Reading(letters, other).Some?
      ensures !(Reading(letters, other).value <= p)
    {
      PrefixCovers(p, Reading(letters, other).value, ParsedAll(mutable).value);
    }
  }

  // ---- scalars -----------------------------------------------------------------------------

  /** The rule looks at `p` and the two objects hold different scalars there. */
  predicate Drifts(oldObj: Fields, newObj: Fields, scope: Scope, p: Path) {
    RuleSees(p, scope) && Leaf(Object(oldObj), p) != Leaf(Object(newObj), p)
  }

  /** The list accepts the update and does not cover a scalar that drifts. */
  ghost predicate LetsThrough(letters: Alphabet, oldObj: Fields, newObj: Fields, scope: Scope, mutable: seq<string>,
                              p: Path) {
    && Accepts(letters, Scoped(oldObj, scope), Scoped(newObj, scope), mutable)
    && Drifts(oldObj, newObj, scope, p)
    && !Covered(p, ParsedAll(mutable).value)
  }

  /** The scalar at `p` drifts, and the texts reported about it are taken for other places. */
  ghost predicate Escapes(letters: Alphabet, oldObj: Fields, newObj: Fields, scope: Scope, p: Path) {
    && Drifts(oldObj, newObj, scope, p)
    && AllRead(letters, Scoped(oldObj, scope), Scoped(newObj, scope))
    && Unread(letters, Scoped(oldObj, scope), Scoped(newObj, scope), p)
  }

  /** Some mutable list accepts an update and leaves the scalar at `p` uncovered iff that
      scalar drifts, every reported text is taken for a concrete path, and none of these
      paths is a prefix of `p`. */
  lemma EscapeExact(letters: Alphabet, oldObj: Fields, newObj: Fields, scope: Scope, p: Path)
    ensures (exists mutable :: LetsThrough(letters, oldObj, newObj, scope, mutable, p))
       <==> Escapes(letters, oldObj, newObj, scope, p)
  {
    hide Scoped, Diff, ParsedAll, Drifts, AllRead, Unread, Covered;
    var v, w := Scoped(oldObj, scope), Scoped(newObj, scope);
    if mutable :| LetsThrough(letters, oldObj, newObj, scope, mutable, p) {
      AcceptedUnread(letters, v, w, mutable, p);
    }
    if Escapes(letters, oldObj, newObj, scope, p) {
      ReadingsAccept(letters, v, w, p);
      assert LetsThrough(letters, oldObj, newObj, scope, Diff(letters, v, w).changedPaths, p);
    }
  }

  /** Where scalars drift a path is reported on the way down. */
  lemma DriftReported(oldObj: Fields, newObj: Fields, scope: Scope, p: Path) returns (q: Path)
    requires Drifts(oldObj, newObj, scope, p)
    ensures PartsAt(Object(Scoped(oldObj, scope)), Object(Scoped(newObj, scope)), q) && q <= p
  {
    ScopedLeaves(oldObj, scope, p);
    ScopedLeaves(newObj, scope, p);
    q := DifferenceAt(Scoped(oldObj, scope), Scoped(newObj, scope), p);
  }

  /** Where reported positions are printable nothing escapes. */
  lemma PrintableNeverEscapes(letters: Alphabet, oldObj: Fields, newObj: Fields, scope: Scope, p: Path)
    requires ReportsFaithfully(Scoped(oldObj, scope), Scoped(newObj, scope))
    ensures !Escapes(letters, oldObj, newObj, scope, p)
  {
    hide PartsAt, Scoped, Reading, ReportsFaithfully, RuleSees;
    PrintableReadings(letters, Scoped(oldObj, scope), Scoped(newObj, scope));
    if Drifts(oldObj, newObj, scope, p) {
      var q := DriftReported(oldObj, newObj, scope, p);
    }
  }

  // ---- positions -----------------------------------------------------------------------------

  /** The two scoped objects part somewhere that the list does not cover, and it accepts
      the update all the same. */
  ghost predicate SlipsThrough(letters: Alphabet, v: Fields, w: Fields, mutable: seq<string>) {
    && Accepts(letters, v, w, mutable)
    && exists q :: PartsAt(Object(v), Object(w), q) && !Covered(q, ParsedAll(mutable).value)
  }

  ghost predicate Misleading(letters: Alphabet, v: Fields, w: Fields) {
    && AllRead(letters, v, w)
    && exists q :: PartsAt(Object(v), Object(w), q) && Unread(letters, v, w, q)
  }

  /** The same for positions instead of scalars: some well-formed mutable list accepts an
      update without covering every reported position iff every reported text is taken for
      a concrete path and one reported position has none of those paths as a prefix. */
  lemma SlippingExact(letters: Alphabet, v: Fields, w: Fields)
    ensures (exists mutable :: SlipsThrough(letters, v, w, mutable)) <==> Misleading(letters, v, w)
  {
    hide PartsAt, Diff, AllRead, Unread, Covered, ParsedAll;
    if mutable :| SlipsThrough(letters, v, w, mutable) {
      var q :| PartsAt(Object(v), Object(w), q) && !Covered(q, ParsedAll(mutable).value);
      AcceptedUnread(letters, v, w, mutable, q);
    }
    if Misleading(letters, v, w) {
      var q :| PartsAt(Object(v), Object(w), q) && Unread(letters, v, w, q);
      ReadingsAccept(letters, v, w, q);
      assert SlipsThrough(letters, v, w, Diff(letters, v, w).changedPaths);
    }
  }

  /** A scalar that escapes lies below a position that does. */
  lemma EscapeMisleads(letters: Alphabet, oldObj: Fields, newObj: Fields, scope: Scope, p: Path)
    requires Escapes(letters, oldObj, newObj, scope, p)
    ensures Misleading(letters, Scoped(oldObj, scope), Scoped(newObj, scope))
  {
    hide PartsAt, Scoped, Reading, AllRead, RuleSees, Leaf;
    var q := DriftReported(oldObj, newObj, scope, p);
    assert Unread(letters, Scoped(oldObj, scope), Scoped(newObj, scope), q);
  }

  lemma PrintableNeverMisleads(letters: Alphabet, v: Fields, w: Fields)
    requires ReportsFaithfully(v, w)
    ensures !Misleading(letters, v, w)
  {
    PrintableReadings(letters, v, w);
  }
}
