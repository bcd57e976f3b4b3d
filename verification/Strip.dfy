/** Removal of excluded positions: `pkg/diff/strip.go`. */
module Strip {
  import opened Text
  import opened Paths
  import opened Trees

  /** The value that is kept at `current`, if any. Maps that end up empty vanish; a list
      keeps its length, with null where an element was dropped. */
  function Stripped(v: Json, patterns: seq<Path>, current: Path): Option<Json>
    decreases v
  {
    if MatchesSome(current, patterns) then None
    else match v
      case Object(m) =>
        var kept := map k | k in m && Stripped(m[k], patterns, current + [Field(k)]).Some?
                      :: Stripped(m[k], patterns, current + [Field(k)]).value;
        if kept == map[] then None else Some(Object(kept))
      case List(s) =>
        Some(List(seq(|s|, i requires 0 <= i < |s| =>
          Stripped(s[i], patterns, current + [Index(i)]).GetOr(Null))))
      case _ => Some(v)
  }

  /** What `Strip` returns for a document. */
  function StrippedObject(o: Fields, patterns: seq<Path>): Fields {
    FieldsOf(Stripped(Object(o), patterns, []))
  }

  method StripValue(value: Json, patterns: seq<Path>, current: Path) returns (result: Json, keep: bool)
    ensures Stripped(value, patterns, current) == if keep then Some(result) else None
    decreases value, 1
  {
    var matched := MatchesAnyPath(current, patterns);
    if matched {
      return Null, false;
    }
    match value
    case Object(typed) =>
      result, keep := StripFields(typed, patterns, current);
    case List(typed) =>
      result, keep := StripItems(typed, patterns, current);
    case _ =>
      return value, true;
  }

  method StripFields(typed: Fields, patterns: seq<Path>, current: Path) returns (result: Json, keep: bool)
    requires !MatchesSome(current, patterns)
    ensures Stripped(Object(typed), patterns, current) == if keep then Some(result) else None
    decreases Object(typed), 0
  {
    var kept: Fields := map[];
    var pending := typed.Keys;
    while pending != {}
      invariant pending <= typed.Keys
      invariant forall k :: k in kept <==>
                  k in typed && k !in pending && Stripped(typed[k], patterns, current + [Field(k)]).Some?
      invariant forall k :: k in kept ==> kept[k] == Stripped(typed[k], patterns, current + [Field(k)]).value
    {
      var key :| key in pending;
      var stripped, keepChild := StripValue(typed[key], patterns, current + [Field(key)]);
      if keepChild {
        kept := kept[key := stripped];
      }
      pending := pending - {key};
    }
    ghost var spec := StripsFields(typed, patterns, current);
    assert kept == spec;
    if |kept| == 0 {
      return Null, false;
    }
    return Object(kept), true;
  }

  method StripItems(typed: seq<Json>, patterns: seq<Path>, current: Path) returns (result: Json, keep: bool)
    requires !MatchesSome(current, patterns)
    ensures keep && Stripped(List(typed), patterns, current) == Some(result)
    decreases List(typed), 0
  {
    var items: seq<Json> := seq(|typed|, _ => Null);
    for index := 0 to |typed|
      invariant |items| == |typed|
      invariant forall i :: 0 <= i < index ==>
                  items[i] == Stripped(typed[i], patterns, current + [Index(i)]).GetOr(Null)
      invariant forall i :: index <= i < |typed| ==> items[i] == Null
    {
      var stripped, keepChild := StripValue(typed[index], patterns, current + [Index(index)]);
      if keepChild {
        items := items[index := stripped];
      }
    }
    StripsList(typed, patterns, current);
    assert items == Stripped(List(typed), patterns, current).value.items;
    return List(items), true;
  }

  method StripObject(obj: Fields, patterns: seq<Path>) returns (result: Fields)
    ensures result == StrippedObject(obj, patterns)
  {
    var value, keep := StripValue(Object(obj), patterns, []);
    if !keep {
      return map[];
    }
    match value
    case Object(stripped) => return stripped;
    case _ => return map[];
  }

  // ---- what one level of stripping does ----------------------------------

  /** The value kept for one child. */
  function StrippedChild(v: Json, patterns: seq<Path>, current: Path, step: Segment): Option<Json> {
    match Child(v, step)
    case None => None
    case Some(child) => Stripped(child, patterns, current + [step])
  }

  lemma StripsFields(m: Fields, patterns: seq<Path>, current: Path) returns (kept: Fields)
    requires !MatchesSome(current, patterns)
    ensures Stripped(Object(m), patterns, current) == if kept == map[] then None else Some(Object(kept))
    ensures forall k :: k in kept <==> k in m && Stripped(m[k], patterns, current + [Field(k)]).Some?
    ensures forall k :: k in kept ==> kept[k] == Stripped(m[k], patterns, current + [Field(k)]).value
  {
    kept := map k | k in m && Stripped(m[k], patterns, current + [Field(k)]).Some?
              :: Stripped(m[k], patterns, current + [Field(k)]).value;
  }

  lemma StripsObject(m: Fields, patterns: seq<Path>, current: Path)
    requires !MatchesSome(current, patterns)
    ensures var r := Stripped(Object(m), patterns, current);
            && (r.None? <==> forall k :: k in m ==> Stripped(m[k], patterns, current + [Field(k)]).None?)
            && (r.Some? ==>
                  && r.value.Object?
                  && (forall k :: Child(r.value, Field(k)) == StrippedChild(Object(m), patterns, current, Field(k))))
  {
    var kept := StripsFields(m, patterns, current);
    if kept != map[] {
      assert kept.Keys != {};
      var k :| k in kept.Keys;
    } else {
      forall k | k in m ensures Stripped(m[k], patterns, current + [Field(k)]).None? {
        assert k !in kept;
      }
    }
  }

  lemma StripsList(s: seq<Json>, patterns: seq<Path>, current: Path)
    requires !MatchesSome(current, patterns)
    ensures var r := Stripped(List(s), patterns, current);
            && r.Some? && r.value.List? && |r.value.items| == |s|
            && forall i :: 0 <= i < |s| ==>
                 r.value.items[i] == Stripped(s[i], patterns, current + [Index(i)]).GetOr(Null)
  {
  }

  /** Stripping one level: a field child is what stripping it keeps, a list element is
      that or null. */
  lemma StripsChild(v: Json, patterns: seq<Path>, current: Path, step: Segment)
    requires Stripped(v, patterns, current).Some?
    ensures !MatchesSome(current, patterns)
    ensures Child(Stripped(v, patterns, current).value, step)
         == if step.Index? && Child(v, step).Some? then Some(StrippedChild(v, patterns, current, step).GetOr(Null))
            else StrippedChild(v, patterns, current, step)
  {
    match v
    case Object(m) => StripsObject(m, patterns, current);
    case List(s) => StripsList(s, patterns, current);
    case _ =>
  }

  // ---- what survives -----------------------------------------------------

  function OptionalMark(v: Option<Json>, p: Path): Option<Mark> {
    match v
    case None => None
    case Some(w) => MarkAt(w, p)
  }

  lemma {:induction false} MarkOfNull(p: Path)
    ensures MarkAt(Null, p) == None
  {
  }

  /** A mark sits at a position after stripping iff it sat there before and no prefix of
      the position matches a pattern. */
  lemma {:induction false} StripMarks(v: Json, patterns: seq<Path>, current: Path, p: Path)
    ensures OptionalMark(Stripped(v, patterns, current), p)
         == if CoveredBeyond(current, p, patterns) then None else MarkAt(v, p)
    decreases |p|
  {
    CoveredStep(current, p, patterns);
    var r := Stripped(v, patterns, current);
    if MatchesSome(current, patterns) {
    } else if p == [] {
    } else {
      var step := p[0];
      if Child(v, step).Some? {
        StripMarks(Child(v, step).value, patterns, current + [step], p[1..]);
      }
      if r.Some? {
        StripsChild(v, patterns, current, step);
        MarkOfNull(p[1..]);
      } else {
        StripsObject(v.fields, patterns, current);
      }
    }
  }

  /** The same for a whole document. */
  lemma StripKeepsMarks(o: Fields, patterns: seq<Path>, p: Path)
    ensures MarkAt(Object(StrippedObject(o, patterns)), p)
         == if Covered(p, patterns) then None else MarkAt(Object(o), p)
  {
    StripMarks(Object(o), patterns, [], p);
    CoveredFromRoot(p, patterns);
  }

  /** Every position of the result is a position of the source, none of its strict
      prefixes matches, and if it matches itself it is a list element replaced by null. */
  lemma {:induction false} StripPositions(v: Json, patterns: seq<Path>, current: Path, p: Path)
    requires Stripped(v, patterns, current).Some?
    requires Lookup(Stripped(v, patterns, current).value, p).Some?
    ensures Lookup(v, p).Some?
    ensures forall n :: 0 <= n < |p| ==> !MatchesSome(current + p[..n], patterns)
    ensures MatchesSome(current + p, patterns) ==>
              && p != [] && p[|p| - 1].Index?
              && Lookup(Stripped(v, patterns, current).value, p) == Some(Null)
    decreases |p|
  {
    assert current + [] == current;
    if p != [] {
      var step := p[0];
      StripsChild(v, patterns, current, step);
      var child := Child(v, step).value;
      assert current + [step] + p[1..] == current + p;
      forall n | 0 <= n < |p| ensures !MatchesSome(current + p[..n], patterns) {
        if n == 0 {
          assert current + p[..0] == current;
        } else {
          assert current + p[..n] == current + [step] + p[1..][..n - 1];
          if Stripped(child, patterns, current + [step]).Some? {
            StripPositions(child, patterns, current + [step], p[1..]);
          }
        }
      }
      if Stripped(child, patterns, current + [step]).Some? {
        StripPositions(child, patterns, current + [step], p[1..]);
      } else {
        assert p[1..] == [];
        assert p == [step];
      }
    }
  }

  // ---- fusion ------------------------------------------------------------

  lemma MatchesEither(p: Path, ps: seq<Path>, qs: seq<Path>)
    ensures MatchesSome(p, ps + qs) <==> MatchesSome(p, ps) || MatchesSome(p, qs)
  {
    if MatchesSome(p, ps) {
      var i :| 0 <= i < |ps| && Matches(ps[i], p);
      assert Matches((ps + qs)[i], p);
    }
    if MatchesSome(p, qs) {
      var i :| 0 <= i < |qs| && Matches(qs[i], p);
      assert Matches((ps + qs)[|ps| + i], p);
    }
  }

  function StrippedAgain(r: Option<Json>, patterns: seq<Path>, current: Path): Option<Json> {
    match r
    case None => None
    case Some(v) => Stripped(v, patterns, current)
  }

  lemma SameChildren(v: Json, w: Json)
    requires v.Object? && w.Object?
    requires forall k :: Child(v, Field(k)) == Child(w, Field(k))
    ensures v == w
  {
    forall k ensures k in v.fields <==> k in w.fields {
      assert Child(v, Field(k)) == Child(w, Field(k));
    }
    forall k | k in v.fields ensures v.fields[k] == w.fields[k] {
      assert Child(v, Field(k)) == Child(w, Field(k));
    }
    assert v.fields == w.fields;
  }

  /** Stripping twice is stripping once with all the patterns. */
  lemma {:induction false} StripFuses(v: Json, ps: seq<Path>, qs: seq<Path>, current: Path)
    ensures StrippedAgain(Stripped(v, ps, current), qs, current) == Stripped(v, ps + qs, current)
    decreases v
  {
    MatchesEither(current, ps, qs);
    if !MatchesSome(current, ps) && !MatchesSome(current, qs) {
      match v
      case Object(m) => StripFusesObject(m, ps, qs, current);
      case List(s) => StripFusesList(s, ps, qs, current);
      case _ =>
    }
  }

  lemma {:induction false} StripFusesObject(m: Fields, ps: seq<Path>, qs: seq<Path>, current: Path)
    requires !MatchesSome(current, ps) && !MatchesSome(current, qs)
    ensures StrippedAgain(Stripped(Object(m), ps, current), qs, current) == Stripped(Object(m), ps + qs, current)
    decreases Object(m), 0
  {
    MatchesEither(current, ps, qs);
    StripsObject(m, ps, current);
    StripsObject(m, ps + qs, current);
    forall k | k in m
      ensures StrippedAgain(Stripped(m[k], ps, current + [Field(k)]), qs, current + [Field(k)])
           == Stripped(m[k], ps + qs, current + [Field(k)])
    {
      StripFuses(m[k], ps, qs, current + [Field(k)]);
    }
    var once := Stripped(Object(m), ps, current);
    if once.Some? {
      var inner := once.value.fields;
      StripsObject(inner, qs, current);
      forall k
        ensures StrippedChild(Object(inner), qs, current, Field(k))
             == StrippedChild(Object(m), ps + qs, current, Field(k))
      {
        assert Child(once.value, Field(k)) == StrippedChild(Object(m), ps, current, Field(k));
      }
      var twice := Stripped(Object(inner), qs, current);
      var direct := Stripped(Object(m), ps + qs, current);
      if twice.Some? && direct.Some? {
        SameChildren(twice.value, direct.value);
      }
    }
  }

  lemma {:induction false} StripFusesList(s: seq<Json>, ps: seq<Path>, qs: seq<Path>, current: Path)
    requires !MatchesSome(current, ps) && !MatchesSome(current, qs)
    ensures StrippedAgain(Stripped(List(s), ps, current), qs, current) == Stripped(List(s), ps + qs, current)
    decreases List(s), 0
  {
    MatchesEither(current, ps, qs);
    StripsList(s, ps, current);
    StripsList(s, ps + qs, current);
    var inner := Stripped(List(s), ps, current).value.items;
    StripsList(inner, qs, current);
    var twice := Stripped(List(inner), qs, current).value.items;
    var direct := Stripped(List(s), ps + qs, current).value.items;
    forall i | 0 <= i < |s| ensures twice[i] == direct[i] {
      StripFuses(s[i], ps, qs, current + [Index(i)]);
    }
    assert twice == direct;
  }

  lemma StripOfNothing(patterns: seq<Path>)
    ensures StrippedObject(map[], patterns) == map[]
  {
  }

  /** Fusion for whole documents. */
  lemma StripTwice(o: Fields, ps: seq<Path>, qs: seq<Path>)
    ensures StrippedObject(StrippedObject(o, ps), qs) == StrippedObject(o, ps + qs)
  {
    StripFuses(Object(o), ps, qs, []);
    if Stripped(Object(o), ps, []).None? {
      StripOfNothing(qs);
    } else {
      StripsObject(o, ps, []);
    }
  }

  // ---- which patterns matter ---------------------------------------------

  /** Two pattern lists that agree at every position of a value strip it alike. */
  ghost predicate AgreeOn(v: Json, ps: seq<Path>, qs: seq<Path>, current: Path) {
    forall p :: Lookup(v, p).Some? ==> (MatchesSome(current + p, ps) <==> MatchesSome(current + p, qs))
  }

  lemma AgreeOnChild(v: Json, ps: seq<Path>, qs: seq<Path>, current: Path, step: Segment)
    requires AgreeOn(v, ps, qs, current) && Child(v, step).Some?
    ensures AgreeOn(Child(v, step).value, ps, qs, current + [step])
  {
    forall p | Lookup(Child(v, step).value, p).Some?
      ensures MatchesSome(current + [step] + p, ps) <==> MatchesSome(current + [step] + p, qs)
    {
      assert ([step] + p)[1..] == p;
      assert Lookup(v, [step] + p).Some?;
      assert current + ([step] + p) == current + [step] + p;
    }
  }

  lemma {:induction false} StripAgrees(v: Json, ps: seq<Path>, qs: seq<Path>, current: Path)
    requires AgreeOn(v, ps, qs, current)
    ensures Stripped(v, ps, current) == Stripped(v, qs, current)
    decreases v
  {
    assert Lookup(v, []).Some? && current + [] == current;
    match v
    case Object(m) =>
      forall k | k in m
        ensures Stripped(m[k], ps, current + [Field(k)]) == Stripped(m[k], qs, current + [Field(k)])
      {
        AgreeOnChild(v, ps, qs, current, Field(k));
        StripAgrees(m[k], ps, qs, current + [Field(k)]);
      }
      if !MatchesSome(current, ps) {
        StripsObject(m, ps, current);
        StripsObject(m, qs, current);
        var r, t := Stripped(v, ps, current), Stripped(v, qs, current);
        if r.Some? && t.Some? {
          forall k ensures Child(r.value, Field(k)) == Child(t.value, Field(k)) {
            assert StrippedChild(v, ps, current, Field(k)) == StrippedChild(v, qs, current, Field(k));
          }
          SameChildren(r.value, t.value);
        }
      }
    case List(s) =>
      forall i | 0 <= i < |s|
        ensures Stripped(s[i], ps, current + [Index(i)]) == Stripped(s[i], qs, current + [Index(i)])
      {
        AgreeOnChild(v, ps, qs, current, Index(i));
        StripAgrees(s[i], ps, qs, current + [Index(i)]);
      }
      if !MatchesSome(current, ps) {
        StripsList(s, ps, current);
        StripsList(s, qs, current);
        assert Stripped(v, ps, current).value.items == Stripped(v, qs, current).value.items;
      }
    case _ =>
  }

  lemma StripAgreesObject(o: Fields, ps: seq<Path>, qs: seq<Path>)
    requires forall p :: MatchesSome(p, ps) <==> MatchesSome(p, qs)
    ensures StrippedObject(o, ps) == StrippedObject(o, qs)
  {
    StripAgrees(Object(o), ps, qs, []);
  }

  /** The order of two strips does not matter. */
  lemma StripsCommute(o: Fields, ps: seq<Path>, qs: seq<Path>)
    ensures StrippedObject(StrippedObject(o, ps), qs) == StrippedObject(StrippedObject(o, qs), ps)
  {
    StripTwice(o, ps, qs);
    StripTwice(o, qs, ps);
    forall p ensures MatchesSome(p, ps + qs) <==> MatchesSome(p, qs + ps) {
      MatchesEither(p, ps, qs);
      MatchesEither(p, qs, ps);
    }
    StripAgreesObject(o, ps + qs, qs + ps);
  }

  /** Stripping again with patterns that were already applied changes nothing. */
  lemma StripAbsorbs(o: Fields, ps: seq<Path>, qs: seq<Path>)
    requires forall q :: q in qs ==> q in ps
    ensures StrippedObject(StrippedObject(o, ps), qs) == StrippedObject(o, ps)
  {
    StripTwice(o, ps, qs);
    forall p ensures MatchesSome(p, ps + qs) <==> MatchesSome(p, ps) {
      MatchesEither(p, ps, qs);
      if MatchesSome(p, qs) {
        var i :| 0 <= i < |qs| && Matches(qs[i], p);
        assert qs[i] in ps;
        var j :| 0 <= j < |ps| && ps[j] == qs[i];
        assert Matches(ps[j], p);
      }
    }
    StripAgreesObject(o, ps + qs, ps);
  }
}
