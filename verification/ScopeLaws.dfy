/** What scoping an object for a rule keeps, and what it cannot see. */
module ScopeLaws {
  import opened Text
  import opened Paths
  import opened PathText
  import opened Trees
  import opened Strip
  import opened Extract
  import opened Admission

  // ---- the implicit excludes ------------------------------------------------

  predicate PlainName(name: string) {
    Untrimmable(name) && name != "*" && forall i :: 0 <= i < |name| ==> name[i] != '.' && name[i] != '['
  }

  lemma NameParsed(name: string)
    requires PlainName(name)
    ensures Parsed(name) == Ok([Field(name)])
  {
    TrimSpaceKeeps(name);
    TokenParsed(name, "");
    assert name + "" == name;
    assert [Field(name)] + [] == [Field(name)];
  }

  lemma DottedParsed(first: string, second: string)
    requires PlainName(first) && PlainName(second)
    ensures Parsed(first + "." + second) == Ok([Field(first), Field(second)])
  {
    TrimSpaceKeeps(first + "." + second);
    TokenParsed(second, "");
    assert second + "" == second;
    assert [Field(second)] + [] == [Field(second)];
    DotSkipped(second);
    TokenParsed(first, "." + second);
    assert [Field(first)] + [Field(second)] == [Field(first), Field(second)];
    assert first + ("." + second) == first + "." + second;
  }

  lemma {:induction false} ParsedAllOf(values: seq<string>, paths: seq<Path>)
    requires |values| == |paths|
    requires forall i :: 0 <= i < |values| ==> Parsed(values[i]) == Ok(paths[i])
    ensures ParsedAll(values) == Ok(paths)
  {
    if values != [] {
      ParsedAllOf(values[..|values| - 1], paths[..|paths| - 1]);
      assert paths == paths[..|paths| - 1] + [paths[|paths| - 1]];
    }
  }

  lemma MetadataFieldParsed(name: string)
    requires PlainName(name)
    ensures Parsed("metadata." + name) == Ok([Field("metadata"), Field(name)])
  {
    DottedParsed("metadata", name);
    assert "metadata" + "." == "metadata.";
  }

  lemma MaintainedPlain(i: nat)
    requires i < 6
    ensures PlainName(MAINTAINED[i])
  {
  }

  lemma ImplicitParsedAt(i: nat)
    requires i < 7
    ensures Parsed(IMPLICIT_EXCLUDES[i]) == Ok(IMPLICIT[i])
  {
    if i == 0 {
      NameParsed("status");
    } else {
      MaintainedPlain(i - 1);
      MetadataFieldParsed(MAINTAINED[i - 1]);
    }
  }

  /** The texts in the source parse to the patterns used here. */
  lemma ImplicitParsed()
    ensures ParsedAll(IMPLICIT_EXCLUDES) == Ok(IMPLICIT)
  {
    forall i: nat | i < 7 ensures Parsed(IMPLICIT_EXCLUDES[i]) == Ok(IMPLICIT[i]) {
      ImplicitParsedAt(i);
    }
    ParsedAllOf(IMPLICIT_EXCLUDES, IMPLICIT);
  }

  // ---- leaves ------------------------------------------------------------------

  /** The positions a rule looks at. */
  predicate RuleSees(p: Path, scope: Scope) {
    && !Covered(p, IMPLICIT)
    && (scope.included.Some? ==> InScope(p, scope.included.value))
    && (scope.excluded.Some? ==> !Covered(p, scope.excluded.value))
  }

  lemma StripKeepsLeaves(o: Fields, patterns: seq<Path>, p: Path)
    ensures Leaf(Object(StrippedObject(o, patterns)), p) == if Covered(p, patterns) then None else Leaf(Object(o), p)
  {
    StripKeepsMarks(o, patterns, p);
  }

  /** The non-null scalars of a scoped object are exactly those at positions the rule sees. */
  lemma ScopedLeaves(o: Fields, scope: Scope, p: Path)
    ensures Leaf(Object(Scoped(o, scope)), p) == if RuleSees(p, scope) then Leaf(Object(o), p) else None
  {
    var stripped := StrippedObject(o, IMPLICIT);
    StripKeepsLeaves(o, IMPLICIT, p);
    if scope.included.Some? {
      ExtractKeepsLeaves(stripped, scope.included.value, p);
    }
    if scope.excluded.Some? {
      StripKeepsLeaves(Included(stripped, scope.included), scope.excluded.value, p);
    }
  }

  // ---- positions -----------------------------------------------------------------

  lemma StripObjectPositions(o: Fields, patterns: seq<Path>, p: Path)
    requires p != [] && Lookup(Object(StrippedObject(o, patterns)), p).Some?
    ensures Lookup(Object(o), p).Some?
    ensures forall n :: 0 <= n < |p| ==> !MatchesSome(p[..n], patterns)
    ensures MatchesSome(p, patterns) ==> p[|p| - 1].Index?
  {
    var r := Stripped(Object(o), patterns, []);
    if r.Some? {
      StripsObject(o, patterns, []);
      StripPositions(Object(o), patterns, [], p);
      forall n | 0 <= n < |p| ensures !MatchesSome(p[..n], patterns) {
        assert [] + p[..n] == p[..n];
      }
      assert [] + p == p;
    }
  }

  lemma ExtractObjectPositions(o: Fields, patterns: seq<Path>, p: Path)
    requires p != [] && Lookup(Object(ExtractedObject(o, patterns)), p).Some?
    ensures Lookup(Object(o), p).Some?
    ensures NoFixedIndex(patterns) ==> InScope(p, patterns)
  {
    ExtractedObjectSelected(o, patterns);
    ExtractPositions(Object(o), patterns, [], p);
    if NoFixedIndex(patterns) {
      ExtractInScope(Object(o), patterns, [], p);
      CoveredFromRoot(p, patterns);
      assert [] + p == p;
    }
  }

  lemma ExtractedObjectSelected(o: Fields, patterns: seq<Path>)
    ensures || ExtractedObject(o, patterns) == map[]
            || Extracted(Object(o), patterns, []) == Some(Object(ExtractedObject(o, patterns)))
  {
    if Extracted(Object(o), patterns, []).Some? && !MatchesSome([], patterns) {
      ExtractsObject(o, patterns, []);
    }
  }

  predicate EndsInField(pattern: Path) {
    pattern != [] && (pattern[|pattern| - 1].Field? || pattern[|pattern| - 1].FieldWildcard?)
  }

  /** No prefix of `p` matches the pattern. */
  predicate Untouched(p: Path, pattern: Path) {
    forall n :: 0 <= n <= |p| ==> !Matches(pattern, p[..n])
  }

  lemma IndexEscapesField(pattern: Path, p: Path)
    requires EndsInField(pattern) && p != [] && p[|p| - 1].Index?
    ensures !Matches(pattern, p)
  {
    assert !SegmentsMatch(pattern[|pattern| - 1], p[|p| - 1]);
  }

  lemma FieldExcludeUntouched(p: Path, patterns: seq<Path>, i: nat)
    requires p != [] && i < |patterns| && EndsInField(patterns[i])
    requires forall n :: 0 <= n < |p| ==> !MatchesSome(p[..n], patterns)
    requires MatchesSome(p, patterns) ==> p[|p| - 1].Index?
    ensures Untouched(p, patterns[i])
  {
    forall n | 0 <= n <= |p| ensures !Matches(patterns[i], p[..n]) {
      if n < |p| {
        assert !MatchesSome(p[..n], patterns);
      } else {
        assert p[..n] == p;
        if p[|p| - 1].Index? {
          IndexEscapesField(patterns[i], p);
        }
      }
    }
  }

  /** Positions of a scoped object: they exist in the object, lie under no implicit
      exclude and no exclude that ends in a field, and are in scope of the includes when
      these number no list element. */
  lemma ScopedPositions(o: Fields, scope: Scope, p: Path)
    requires p != [] && Lookup(Object(Scoped(o, scope)), p).Some?
    ensures Lookup(Object(o), p).Some?
    ensures !Covered(p, IMPLICIT)
    ensures scope.included.Some? && NoFixedIndex(scope.included.value) ==> InScope(p, scope.included.value)
    ensures scope.excluded.Some? ==>
              forall i :: 0 <= i < |scope.excluded.value| && EndsInField(scope.excluded.value[i]) ==>
                Untouched(p, scope.excluded.value[i])
  {
    var stripped := StrippedObject(o, IMPLICIT);
    var selected := Included(stripped, scope.included);
    if scope.excluded.Some? {
      StripObjectPositions(selected, scope.excluded.value, p);
      forall i | 0 <= i < |scope.excluded.value| && EndsInField(scope.excluded.value[i])
        ensures Untouched(p, scope.excluded.value[i])
      {
        FieldExcludeUntouched(p, scope.excluded.value, i);
      }
    }
    if scope.included.Some? {
      ExtractObjectPositions(stripped, scope.included.value, p);
    }
    StripObjectPositions(o, IMPLICIT, p);
    NotUnderImplicit(p);
  }

  lemma NotUnderImplicit(p: Path)
    requires p != []
    requires forall n :: 0 <= n < |p| ==> !MatchesSome(p[..n], IMPLICIT)
    requires MatchesSome(p, IMPLICIT) ==> p[|p| - 1].Index?
    ensures !Covered(p, IMPLICIT)
  {
    forall n | 0 <= n <= |p| ensures !MatchesSome(p[..n], IMPLICIT) {
      if MatchesSome(p[..n], IMPLICIT) {
        var i :| 0 <= i < |IMPLICIT| && Matches(IMPLICIT[i], p[..n]);
        assert EndsInField(IMPLICIT[i]);
        FieldExcludeUntouched(p, IMPLICIT, i);
      }
    }
  }

  // ---- redundant excludes -----------------------------------------------------------

  /** No map below a position is empty. */
  ghost predicate Pruned(v: Json) {
    forall p :: NotEmptyMap(Lookup(v, p))
  }

  predicate NotEmptyMap(v: Option<Json>) {
    v != Some(Object(map[]))
  }

  lemma PrunedChild(v: Json, step: Segment)
    requires Pruned(v) && Child(v, step).Some?
    ensures Pruned(Child(v, step).value)
  {
    forall p ensures NotEmptyMap(Lookup(Child(v, step).value, p)) {
      assert ([step] + p)[1..] == p;
      assert NotEmptyMap(Lookup(v, [step] + p));
    }
  }

  /** A strip leaves no empty map. */
  lemma {:induction false} StrippedPruned(v: Json, patterns: seq<Path>, current: Path, p: Path)
    requires Stripped(v, patterns, current).Some?
    ensures NotEmptyMap(Lookup(Stripped(v, patterns, current).value, p))
    decreases |p|
  {
    if p == [] {
      if v.Object? {
        StripsObject(v.fields, patterns, current);
      }
    } else {
      StripsChild(v, patterns, current, p[0]);
      var below := StrippedChild(v, patterns, current, p[0]);
      if below.Some? {
        StrippedPruned(Child(v, p[0]).value, patterns, current + [p[0]], p[1..]);
      }
    }
  }

  /** Nor does an extraction from a value without empty maps. */
  lemma {:induction false} ExtractedPruned(v: Json, patterns: seq<Path>, current: Path, p: Path)
    requires Pruned(v) && Extracted(v, patterns, current).Some?
    ensures NotEmptyMap(Lookup(Extracted(v, patterns, current).value, p))
    decreases |p|
  {
    assert NotEmptyMap(Lookup(v, p));
    if !MatchesSome(current, patterns) {
      if p == [] {
        if v.Object? {
          ExtractsObject(v.fields, patterns, current);
        }
      } else {
        ExtractsChild(v, patterns, current, p[0]);
        var below := ExtractedChild(v, patterns, current, p[0]);
        if below.Some? {
          PrunedChild(v, p[0]);
          ExtractedPruned(Child(v, p[0]).value, patterns, current + [p[0]], p[1..]);
        }
      }
    }
  }

  /** A strip without patterns copies a value without empty maps. */
  lemma {:induction false} StripCopies(v: Json, current: Path)
    requires Pruned(v)
    ensures Stripped(v, [], current) == Some(v)
    decreases v
  {
    match v
    case Object(m) =>
      forall k | k in m ensures Stripped(m[k], [], current + [Field(k)]) == Some(m[k]) {
        PrunedChild(v, Field(k));
        StripCopies(m[k], current + [Field(k)]);
      }
      var kept := StripsFields(m, [], current);
      assert kept == m;
      assert NotEmptyMap(Lookup(v, []));
    case List(s) =>
      StripsList(s, [], current);
      forall i | 0 <= i < |s| ensures Stripped(s[i], [], current + [Index(i)]) == Some(s[i]) {
        PrunedChild(v, Index(i));
        StripCopies(s[i], current + [Index(i)]);
      }
      assert Stripped(v, [], current).value.items == s;
    case _ =>
  }

  /** What comes before the excludes has no empty map below its root. */
  lemma SelectedPruned(o: Fields, included: Option<seq<Path>>)
    ensures var x := Included(StrippedObject(o, IMPLICIT), included); x == map[] || Pruned(Object(x))
  {
    var stripped := StrippedObject(o, IMPLICIT);
    var r := Stripped(Object(o), IMPLICIT, []);
    if r.Some? {
      StripsObject(o, IMPLICIT, []);
      forall p ensures NotEmptyMap(Lookup(Object(stripped), p)) {
        StrippedPruned(Object(o), IMPLICIT, [], p);
      }
    }
    if included.Some? && stripped != map[] {
      var x := ExtractedObject(stripped, included.value);
      ExtractedObjectSelected(stripped, included.value);
      if x != map[] {
        forall p ensures NotEmptyMap(Lookup(Object(x), p)) {
          ExtractedPruned(Object(stripped), included.value, [], p);
        }
      }
    } else if included.Some? {
      ExtractOfNothing(included.value);
    }
  }

  lemma ExtractOfNothing(patterns: seq<Path>)
    ensures ExtractedObject(map[], patterns) == map[]
  {
  }

  function Listed(excluded: Option<seq<Path>>): seq<Path> {
    excluded.GetOr([])
  }

  /** No excludes are a strip without patterns. */
  lemma ExcludedStrips(o: Fields, included: Option<seq<Path>>, excluded: Option<seq<Path>>)
    ensures Scoped(o, Scope(included, excluded))
         == StrippedObject(Included(StrippedObject(o, IMPLICIT), included), Listed(excluded))
  {
    var x := Included(StrippedObject(o, IMPLICIT), included);
    SelectedPruned(o, included);
    if x == map[] {
      StripOfNothing(Listed(excluded));
    } else {
      StripCopies(Object(x), []);
    }
  }

  /** The same patterns, implicit ones aside. */
  ghost predicate ButImplicit(more: seq<Path>, fewer: seq<Path>) {
    && (forall p :: p in fewer ==> p in more)
    && (forall p :: p in more ==> p in fewer || p in IMPLICIT)
  }

  /** Excludes that repeat implicit ones, among any others and with any includes, make no
      difference. */
  lemma RepeatedExcludesRedundant(o: Fields, included: Option<seq<Path>>, excluded: Option<seq<Path>>,
                                  fewer: Option<seq<Path>>)
    requires ButImplicit(Listed(excluded), Listed(fewer))
    ensures Scoped(o, Scope(included, excluded)) == Scoped(o, Scope(included, fewer))
  {
    hide Stripped, Included, Lookup;
    var x := Included(StrippedObject(o, IMPLICIT), included);
    forall p | Lookup(Object(x), p).Some?
      ensures MatchesSome([] + p, Listed(excluded)) <==> MatchesSome([] + p, Listed(fewer))
    {
      assert [] + p == p;
      SelectedUnmatched(o, included, p);
      ListedAgree(p, Listed(excluded), Listed(fewer));
    }
    StripAgrees(Object(x), Listed(excluded), Listed(fewer), []);
    ExcludedStrips(o, included, excluded);
    ExcludedStrips(o, included, fewer);
  }

  lemma SelectedUnmatched(o: Fields, included: Option<seq<Path>>, p: Path)
    requires Lookup(Object(Included(StrippedObject(o, IMPLICIT), included)), p).Some?
    ensures !MatchesSome(p, IMPLICIT)
  {
    if p != [] {
      ScopedPositions(o, Scope(included, None), p);
      assert p[..|p|] == p;
    }
  }

  lemma ListedAgree(p: Path, more: seq<Path>, fewer: seq<Path>)
    requires ButImplicit(more, fewer) && !MatchesSome(p, IMPLICIT)
    ensures MatchesSome(p, more) <==> MatchesSome(p, fewer)
  {
    if MatchesSome(p, more) {
      var i :| 0 <= i < |more| && Matches(more[i], p);
      assert more[i] in more;
      UnmatchedNotIn(p, IMPLICIT, more[i]);
      var j :| 0 <= j < |fewer| && fewer[j] == more[i];
    }
    if MatchesSome(p, fewer) {
      var i :| 0 <= i < |fewer| && Matches(fewer[i], p);
      assert fewer[i] in more;
      var j :| 0 <= j < |more| && more[j] == fewer[i];
    }
  }

  lemma UnmatchedNotIn(p: Path, patterns: seq<Path>, q: Path)
    requires !MatchesSome(p, patterns) && Matches(q, p)
    ensures q !in patterns
  {
    forall i | 0 <= i < |patterns| ensures patterns[i] != q {
    }
  }

  // ---- bypass removal ----------------------------------------------------------------

  function BypassPath(key: string): Path {
    [Field("metadata"), Field("annotations"), Field(key)]
  }

  /** The child strips alike in both maps. */
  predicate StripsAlike(m: Fields, n: Fields, patterns: seq<Path>, current: Path, k: string) {
    StrippedChild(Object(m), patterns, current, Field(k)) == StrippedChild(Object(n), patterns, current, Field(k))
  }

  lemma StrippedBoth(m: Fields, n: Fields, patterns: seq<Path>, current: Path)
    requires !MatchesSome(current, patterns) && forall k :: StripsAlike(m, n, patterns, current, k)
    requires Stripped(Object(m), patterns, current).Some?
    ensures Stripped(Object(n), patterns, current).Some?
  {
    StripsObject(m, patterns, current);
    StripsObject(n, patterns, current);
    var k :| k in m && Stripped(m[k], patterns, current + [Field(k)]).Some?;
    assert StripsAlike(m, n, patterns, current, k);
  }

  /** Maps whose children strip alike strip alike. */
  lemma SameStripped(m: Fields, n: Fields, patterns: seq<Path>, current: Path)
    requires forall k :: StripsAlike(m, n, patterns, current, k)
    ensures Stripped(Object(m), patterns, current) == Stripped(Object(n), patterns, current)
  {
    var r, t := Stripped(Object(m), patterns, current), Stripped(Object(n), patterns, current);
    if !MatchesSome(current, patterns) {
      forall k ensures StripsAlike(n, m, patterns, current, k) {
        assert StripsAlike(m, n, patterns, current, k);
      }
      if r.Some? {
        StrippedBoth(m, n, patterns, current);
        SameKept(m, n, patterns, current);
      } else if t.Some? {
        StrippedBoth(n, m, patterns, current);
      }
    }
  }

  lemma SameKept(m: Fields, n: Fields, patterns: seq<Path>, current: Path)
    requires !MatchesSome(current, patterns) && forall k :: StripsAlike(m, n, patterns, current, k)
    requires Stripped(Object(m), patterns, current).Some? && Stripped(Object(n), patterns, current).Some?
    ensures Stripped(Object(m), patterns, current) == Stripped(Object(n), patterns, current)
  {
    hide Stripped;
    StripsObject(m, patterns, current);
    StripsObject(n, patterns, current);
    var r, t := Stripped(Object(m), patterns, current).value, Stripped(Object(n), patterns, current).value;
    forall k ensures Child(r, Field(k)) == Child(t, Field(k)) {
      assert StripsAlike(m, n, patterns, current, k);
    }
    SameChildren(r, t);
  }

  predicate SameAt(m: Fields, n: Fields, k: string) {
    Child(Object(m), Field(k)) == Child(Object(n), Field(k))
  }

  /** Maps that differ in one child strip alike if that child does. */
  lemma OneChildStripped(m: Fields, n: Fields, patterns: seq<Path>, current: Path, k0: string)
    requires forall k :: k != k0 ==> SameAt(m, n, k)
    requires StripsAlike(m, n, patterns, current, k0)
    ensures Stripped(Object(m), patterns, current) == Stripped(Object(n), patterns, current)
  {
    forall k
      ensures StripsAlike(m, n, patterns, current, k)
    {
      assert k != k0 ==> SameAt(m, n, k);
    }
    SameStripped(m, n, patterns, current);
  }

  lemma BypassMatched(key: string)
    ensures MatchesSome(BypassPath(key), [BypassPath(key)])
  {
    assert Matches([BypassPath(key)][0], BypassPath(key));
  }

  lemma DeletedAnnotationStripped(annotations: Fields, key: string)
    ensures Stripped(Object(annotations - {key}), [BypassPath(key)], [Field("metadata"), Field("annotations")])
         == Stripped(Object(annotations), [BypassPath(key)], [Field("metadata"), Field("annotations")])
  {
    BypassMatched(key);
    assert [Field("metadata"), Field("annotations")] + [Field(key)] == BypassPath(key);
    OneChildStripped(annotations - {key}, annotations, [BypassPath(key)], [Field("metadata"), Field("annotations")],
                     key);
  }

  lemma DeletedFromMetadata(metadata: Fields, key: string)
    ensures Stripped(Object(MetadataWithout(metadata, key)), [BypassPath(key)], [Field("metadata")])
         == Stripped(Object(metadata), [BypassPath(key)], [Field("metadata")])
  {
    var at := [Field("metadata")];
    if MapAt(metadata, "annotations").Some? {
      DeletedAnnotationStripped(metadata["annotations"].fields, key);
      assert at + [Field("annotations")] == [Field("metadata"), Field("annotations")];
      StripOfEmpty([BypassPath(key)], [Field("metadata"), Field("annotations")]);
      OneChildStripped(MetadataWithout(metadata, key), metadata, [BypassPath(key)], at, "annotations");
    }
  }

  /** Deleting the annotation first, and the annotations if none is left, makes no
      difference to a strip of that position. */
  lemma DeletedThenStripped(s: Fields, key: string)
    ensures StrippedObject(WithoutAnnotation(s, key), [BypassPath(key)]) == StrippedObject(s, [BypassPath(key)])
  {
    if MapAt(s, "metadata").Some? {
      DeletedFromMetadata(s["metadata"].fields, key);
      assert [] + [Field("metadata")] == [Field("metadata")];
      OneChildStripped(WithoutAnnotation(s, key), s, [BypassPath(key)], [], "metadata");
    }
  }

  lemma StripOfEmpty(patterns: seq<Path>, current: Path)
    ensures Stripped(Object(map[]), patterns, current) == None
  {
  }

  lemma AnnotationGone(s: Fields, key: string)
    ensures Lookup(Object(WithoutAnnotation(s, key)), BypassPath(key)).None?
  {
    var p := BypassPath(key);
    var x := WithoutAnnotation(s, key);
    assert p[1..] == [Field("annotations"), Field(key)] && p[1..][1..] == [Field(key)];
    if "metadata" in x {
      LookupUnfold(x["metadata"], p[1..]);
    }
  }

  lemma LookupUnfold(v: Json, p: Path)
    requires |p| == 2
    ensures Lookup(v, p) == match Child(v, p[0]) case None => None case Some(w) => Child(w, p[1])
  {
    assert p[1..] == [p[1]];
    if Child(v, p[0]).Some? {
      LookupStep(Child(v, p[0]).value, p[1]);
    }
  }

  /** Cloning, deleting the annotation and stripping the implicit excludes amounts to
      stripping the original object with the annotation's position as one more exclude. */
  lemma BypassRemovalIsStrip(o: Fields, key: string)
    ensures StrippedObject(WithoutBypass(o, key), IMPLICIT) == StrippedObject(o, [BypassPath(key)] + IMPLICIT)
  {
    var bypass := [BypassPath(key)];
    var s := StrippedObject(o, []);
    var x := WithoutAnnotation(s, key);
    AnnotationGone(s, key);
    forall p | Lookup(Object(x), p).Some?
      ensures MatchesSome([] + p, IMPLICIT) <==> MatchesSome([] + p, bypass + IMPLICIT)
    {
      assert [] + p == p;
      MatchesEither(p, bypass, IMPLICIT);
      if MatchesSome(p, bypass) {
        assert Matches(bypass[0], p);
        ConcreteMatchesItself(BypassPath(key), p);
      }
    }
    StripAgrees(Object(x), IMPLICIT, bypass + IMPLICIT, []);
    StripTwice(x, bypass, IMPLICIT);
    DeletedThenStripped(s, key);
    StripTwice(s, bypass, IMPLICIT);
    StripTwice(o, [], bypass + IMPLICIT);
    assert [] + (bypass + IMPLICIT) == bypass + IMPLICIT;
  }

  /** The same for the whole scope of a rule. */
  lemma BypassRemovalRefines(o: Fields, key: string, scope: Scope)
    ensures Scoped(WithoutBypass(o, key), scope)
         == Excluded(Included(StrippedObject(o, [BypassPath(key)] + IMPLICIT), scope.included), scope.excluded)
  {
    BypassRemovalIsStrip(o, key);
  }

  // ---- system noise ---------------------------------------------------------------------

  /** The metadata of an object where it is absent or a map. */
  function MetadataOf(o: Fields): Option<Fields> {
    if "metadata" !in o then Some(map[]) else MapAt(o, "metadata")
  }

  /** The two objects differ at most in the seven fields Kubernetes maintains. */
  ghost predicate NoiseOnly(o: Fields, n: Fields) {
    && MetadataOf(o).Some? && MetadataOf(n).Some?
    && (forall k :: k != "status" && k != "metadata" ==> SameAt(o, n, k))
    && (forall k :: k !in MAINTAINED ==> SameAt(MetadataOf(o).value, MetadataOf(n).value, k))
  }

  lemma NoiseMatched(k: string)
    requires k in MAINTAINED
    ensures MatchesSome([Field("metadata"), Field(k)], IMPLICIT)
  {
    var i :| 0 <= i < |MAINTAINED| && MAINTAINED[i] == k;
    assert IMPLICIT[i + 1] == [Field("metadata"), Field(k)];
    ConcreteMatchesItself(IMPLICIT[i + 1], IMPLICIT[i + 1]);
  }

  lemma StatusMatched()
    ensures MatchesSome([Field("status")], IMPLICIT)
  {
    ConcreteMatchesItself(IMPLICIT[0], IMPLICIT[0]);
  }

  lemma MetadataStripped(o: Fields)
    requires MetadataOf(o).Some?
    ensures StrippedChild(Object(o), IMPLICIT, [], Field("metadata"))
         == Stripped(Object(MetadataOf(o).value), IMPLICIT, [Field("metadata")])
  {
    assert [] + [Field("metadata")] == [Field("metadata")];
  }

  lemma NoisyMetadataStripped(a: Fields, b: Fields)
    requires forall k :: k !in MAINTAINED ==> SameAt(a, b, k)
    ensures Stripped(Object(a), IMPLICIT, [Field("metadata")]) == Stripped(Object(b), IMPLICIT, [Field("metadata")])
  {
    var at := [Field("metadata")];
    forall k
      ensures StripsAlike(a, b, IMPLICIT, at, k)
    {
      if k in MAINTAINED {
        NoiseMatched(k);
        assert at + [Field(k)] == [Field("metadata"), Field(k)];
      } else {
        assert SameAt(a, b, k);
      }
    }
    SameStripped(a, b, IMPLICIT, at);
  }

  lemma NoiseStripped(o: Fields, n: Fields)
    requires NoiseOnly(o, n)
    ensures StrippedObject(o, IMPLICIT) == StrippedObject(n, IMPLICIT)
  {
    NoisyMetadataStripped(MetadataOf(o).value, MetadataOf(n).value);
    MetadataStripped(o);
    MetadataStripped(n);
    StatusMatched();
    assert [] + [Field("status")] == [Field("status")];
    forall k
      ensures StripsAlike(o, n, IMPLICIT, [], k)
    {
      if k != "metadata" && k != "status" {
        assert SameAt(o, n, k);
      }
    }
    SameStripped(o, n, IMPLICIT, []);
  }

  lemma BypassAfterImplicit(o: Fields, key: string)
    ensures StrippedObject(WithoutBypass(o, key), IMPLICIT)
         == StrippedObject(StrippedObject(o, IMPLICIT), [BypassPath(key)])
  {
    BypassRemovalIsStrip(o, key);
    StripTwice(o, [BypassPath(key)], IMPLICIT);
    StripsCommute(o, [BypassPath(key)], IMPLICIT);
  }

  lemma NoiseOutsideScope(o: Fields, n: Fields, scope: Scope, key: string)
    requires NoiseOnly(o, n)
    ensures Scoped(o, scope) == Scoped(n, scope)
    ensures Scoped(WithoutBypass(o, key), scope) == Scoped(WithoutBypass(n, key), scope)
  {
    NoiseStripped(o, n);
    BypassAfterImplicit(o, key);
    BypassAfterImplicit(n, key);
  }

  lemma NoiseOutsideMetadata(o: Fields, n: Fields, key: string)
    requires NoiseOnly(o, n)
    ensures Labels(o) == Labels(n)
    ensures HasTrueAnnotation(o, key) == HasTrueAnnotation(n, key)
  {
    var a, b := MetadataOf(o).value, MetadataOf(n).value;
    assert SameAt(a, b, "labels") && SameAt(a, b, "annotations");
    assert MapAt(a, "labels") == MapAt(b, "labels") && MapAt(a, "annotations") == MapAt(b, "annotations");
  }
}
