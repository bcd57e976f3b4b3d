/** Selection of included positions: `pkg/diff/extract.go`. */
module Extract {
  import opened Text
  import opened Paths
  import opened Trees

  predicate AllNone(selected: seq<Option<Json>>) {
    forall i :: 0 <= i < |selected| ==> selected[i].None?
  }

  /** A list is kept whole, with null for what was not selected, or not at all. */
  function ListOf(selected: seq<Option<Json>>): Option<Json> {
    if AllNone(selected) then None
    else Some(List(seq(|selected|, i requires 0 <= i < |selected| => selected[i].GetOr(Null))))
  }

  /** The value selected at `current`, if any. A matching position is taken whole, and the
      search stops where no pattern leads further down. */
  function Extracted(v: Json, patterns: seq<Path>, current: Path): Option<Json>
    decreases v
  {
    if MatchesSome(current, patterns) then Some(v)
    else if !LeadsToSome(current, patterns) then None
    else match v
      case Object(m) =>
        var kept := map k | k in m && Extracted(m[k], patterns, current + [Field(k)]).Some?
                      :: Extracted(m[k], patterns, current + [Field(k)]).value;
        if kept == map[] then None else Some(Object(kept))
      case List(s) =>
        ListOf(seq(|s|, i requires 0 <= i < |s| => Extracted(s[i], patterns, current + [Index(i)])))
      case _ => Some(v)
  }

  /** What `Extract` returns for a document. */
  function ExtractedObject(o: Fields, patterns: seq<Path>): Fields {
    FieldsOf(Extracted(Object(o), patterns, []))
  }

  method ExtractValue(value: Json, patterns: seq<Path>, current: Path) returns (result: Json, keep: bool)
    ensures Extracted(value, patterns, current) == if keep then Some(result) else None
    decreases value, 1
  {
    var matched := MatchesAnyPath(current, patterns);
    if matched {
      return value, true;
    }
    var leads := HasAnyDescendantMatch(current, patterns);
    if !leads {
      return Null, false;
    }
    match value
    case Object(typed) =>
      result, keep := ExtractFields(typed, patterns, current);
    case List(typed) =>
      result, keep := ExtractItems(typed, patterns, current);
    case _ =>
      return value, true;
  }

  method ExtractFields(typed: Fields, patterns: seq<Path>, current: Path) returns (result: Json, keep: bool)
    requires !MatchesSome(current, patterns) && LeadsToSome(current, patterns)
    ensures Extracted(Object(typed), patterns, current) == if keep then Some(result) else None
    decreases Object(typed), 0
  {
    var selected: Fields := map[];
    var pending := typed.Keys;
    while pending != {}
      invariant pending <= typed.Keys
      invariant forall k :: k in selected <==>
                  k in typed && k !in pending && Extracted(typed[k], patterns, current + [Field(k)]).Some?
      invariant forall k :: k in selected ==> selected[k] == Extracted(typed[k], patterns, current + [Field(k)]).value
    {
      var key :| key in pending;
      var extracted, keepChild := ExtractValue(typed[key], patterns, current + [Field(key)]);
      if keepChild {
        selected := selected[key := extracted];
      }
      pending := pending - {key};
    }
    ghost var spec := ExtractsFields(typed, patterns, current);
    assert selected == spec;
    if |selected| == 0 {
      return Null, false;
    }
    return Object(selected), true;
  }

  method ExtractItems(typed: seq<Json>, patterns: seq<Path>, current: Path) returns (result: Json, keep: bool)
    requires !MatchesSome(current, patterns) && LeadsToSome(current, patterns)
    ensures Extracted(List(typed), patterns, current) == if keep then Some(result) else None
    decreases List(typed), 0
  {
    hide MatchesSome, LeadsToSome, Extracted;
    ghost var selected := ExtractsItems(typed, patterns, current);
    var items: seq<Json> := seq(|typed|, _ => Null);
    var kept := false;
    for index := 0 to |typed|
      invariant |items| == |typed|
      invariant forall i :: 0 <= i < |typed| ==> items[i] == if i < index then selected[i].GetOr(Null) else Null
      invariant kept == !AllNone(selected[..index])
    {
      var extracted, keepChild := ExtractValue(typed[index], patterns, current + [Index(index)]);
      AllNoneStep(selected, index);
      if keepChild {
        items := items[index := extracted];
        kept := true;
      }
    }
    assert selected[..|typed|] == selected;
    if !kept {
      return Null, false;
    }
    ItemsKept(selected, items);
    return List(items), true;
  }

  lemma ItemsKept(selected: seq<Option<Json>>, items: seq<Json>)
    requires !AllNone(selected)
    requires |items| == |selected| && forall i :: 0 <= i < |items| ==> items[i] == selected[i].GetOr(Null)
    ensures ListOf(selected) == Some(List(items))
  {
    assert ListOf(selected).value.items == items;
  }

  lemma AllNoneStep(selected: seq<Option<Json>>, i: nat)
    requires i < |selected|
    ensures AllNone(selected[..i + 1]) <==> AllNone(selected[..i]) && selected[i].None?
  {
    assert selected[..i + 1] == selected[..i] + [selected[i]];
    assert AllNone(selected[..i + 1]) ==> selected[..i + 1][i].None?;
  }

  method ExtractObject(obj: Fields, patterns: seq<Path>) returns (result: Fields)
    ensures result == ExtractedObject(obj, patterns)
  {
    var value, keep := ExtractValue(Object(obj), patterns, []);
    if !keep {
      return map[];
    }
    match value
    case Object(extracted) => return extracted;
    case _ => return map[];
  }

  // ---- what one level of extraction does ----------------------------------

  function ExtractedChild(v: Json, patterns: seq<Path>, current: Path, step: Segment): Option<Json> {
    match Child(v, step)
    case None => None
    case Some(child) => Extracted(child, patterns, current + [step])
  }

  lemma ExtractsFields(m: Fields, patterns: seq<Path>, current: Path) returns (kept: Fields)
    requires !MatchesSome(current, patterns) && LeadsToSome(current, patterns)
    ensures Extracted(Object(m), patterns, current) == if kept == map[] then None else Some(Object(kept))
    ensures forall k :: k in kept <==> k in m && Extracted(m[k], patterns, current + [Field(k)]).Some?
    ensures forall k :: k in kept ==> kept[k] == Extracted(m[k], patterns, current + [Field(k)]).value
  {
    kept := map k | k in m && Extracted(m[k], patterns, current + [Field(k)]).Some?
              :: Extracted(m[k], patterns, current + [Field(k)]).value;
  }

  lemma ExtractsObject(m: Fields, patterns: seq<Path>, current: Path)
    requires !MatchesSome(current, patterns) && LeadsToSome(current, patterns)
    ensures var r := Extracted(Object(m), patterns, current);
            && (r.None? <==> forall k :: k in m ==> Extracted(m[k], patterns, current + [Field(k)]).None?)
            && (r.Some? ==>
                  && r.value.Object?
                  && (forall k :: Child(r.value, Field(k)) == ExtractedChild(Object(m), patterns, current, Field(k))))
  {
    var kept := ExtractsFields(m, patterns, current);
    if kept != map[] {
      assert kept.Keys != {};
      var k :| k in kept.Keys;
    } else {
      forall k | k in m ensures Extracted(m[k], patterns, current + [Field(k)]).None? {
        assert k !in kept;
      }
    }
  }

  lemma ExtractsItems(s: seq<Json>, patterns: seq<Path>, current: Path) returns (selected: seq<Option<Json>>)
    requires !MatchesSome(current, patterns) && LeadsToSome(current, patterns)
    ensures |selected| == |s|
    ensures forall i :: 0 <= i < |s| ==> selected[i] == Extracted(s[i], patterns, current + [Index(i)])
    ensures Extracted(List(s), patterns, current) == ListOf(selected)
  {
    selected := seq(|s|, i requires 0 <= i < |s| => Extracted(s[i], patterns, current + [Index(i)]));
  }

  lemma ExtractsList(s: seq<Json>, patterns: seq<Path>, current: Path)
    requires !MatchesSome(current, patterns) && LeadsToSome(current, patterns)
    ensures var r := Extracted(List(s), patterns, current);
            && (r.None? <==> forall i :: 0 <= i < |s| ==> Extracted(s[i], patterns, current + [Index(i)]).None?)
            && (r.Some? ==>
                  && r.value.List? && |r.value.items| == |s|
                  && forall i :: 0 <= i < |s| ==>
                       r.value.items[i] == Extracted(s[i], patterns, current + [Index(i)]).GetOr(Null))
  {
    var selected := ExtractsItems(s, patterns, current);
    if AllNone(selected) {
      forall i | 0 <= i < |s| ensures Extracted(s[i], patterns, current + [Index(i)]).None? {
        assert selected[i].None?;
      }
    }
  }

  /** One level down, below the root of the search. */
  lemma ExtractsChild(v: Json, patterns: seq<Path>, current: Path, step: Segment)
    requires Extracted(v, patterns, current).Some? && !MatchesSome(current, patterns)
    ensures LeadsToSome(current, patterns)
    ensures Child(Extracted(v, patterns, current).value, step)
         == if step.Index? && Child(v, step).Some? then Some(ExtractedChild(v, patterns, current, step).GetOr(Null))
            else ExtractedChild(v, patterns, current, step)
  {
    match v
    case Object(m) => ExtractsObject(m, patterns, current);
    case List(s) => ExtractsList(s, patterns, current);
    case _ =>
  }

  // ---- what is selected ----------------------------------------------------

  /** Below `current`, a position is in scope when it lies at or below a matching prefix,
      or leads to a pattern. */
  predicate InScopeBeyond(current: Path, p: Path, patterns: seq<Path>) {
    CoveredBeyond(current, p, patterns) || LeadsToSome(current + p, patterns)
  }

  predicate InScope(p: Path, patterns: seq<Path>) {
    Covered(p, patterns) || LeadsToSome(p, patterns)
  }

  function OptionalLeaf(v: Option<Json>, p: Path): Option<Json> {
    match v
    case None => None
    case Some(w) => Leaf(w, p)
  }

  lemma PrefixLeads(p: Path, q: Path, patterns: seq<Path>)
    requires LeadsToSome(p + q, patterns)
    ensures LeadsToSome(p, patterns)
  {
    var i :| 0 <= i < |patterns| && LeadsTo(p + q, patterns[i]);
    forall j | 0 <= j < |p| ensures SegmentsMatch(patterns[i][j], p[j]) {
      assert (p + q)[j] == p[j];
    }
    assert LeadsTo(p, patterns[i]);
  }

  lemma MatchingLeads(p: Path, patterns: seq<Path>)
    requires MatchesSome(p, patterns)
    ensures LeadsToSome(p, patterns)
  {
    var i :| 0 <= i < |patterns| && Matches(patterns[i], p);
    assert LeadsTo(p, patterns[i]);
  }

  /** No pattern leads below a point that none leads to. */
  lemma CutOffSound(current: Path, p: Path, patterns: seq<Path>)
    requires !LeadsToSome(current, patterns)
    ensures !InScopeBeyond(current, p, patterns)
  {
    if LeadsToSome(current + p, patterns) {
      PrefixLeads(current, p, patterns);
    }
    if CoveredBeyond(current, p, patterns) {
      var n :| 0 <= n <= |p| && MatchesSome(current + p[..n], patterns);
      MatchingLeads(current + p[..n], patterns);
      PrefixLeads(current, p[..n], patterns);
    }
  }

  lemma LeafOfNull(p: Path)
    ensures Leaf(Null, p) == None
  {
  }

  /** A non-null scalar sits at a position of the selection iff it sat there before and
      the position is in scope. */
  lemma {:induction false} ExtractLeaves(v: Json, patterns: seq<Path>, current: Path, p: Path)
    ensures OptionalLeaf(Extracted(v, patterns, current), p)
         == if InScopeBeyond(current, p, patterns) then Leaf(v, p) else None
    decreases |p|
  {
    hide MatchesSome, LeadsToSome, CoveredBeyond;
    CoveredStep(current, p, patterns);
    var r := Extracted(v, patterns, current);
    if MatchesSome(current, patterns) {
    } else if !LeadsToSome(current, patterns) {
      CutOffSound(current, p, patterns);
    } else if p == [] {
      assert current + p == current;
    } else {
      var step := p[0];
      assert current + [step] + p[1..] == current + p;
      if Child(v, step).Some? {
        ExtractLeaves(Child(v, step).value, patterns, current + [step], p[1..]);
      }
      if r.Some? {
        ExtractsChild(v, patterns, current, step);
        LeafOfNull(p[1..]);
      } else if v.Object? {
        ExtractsObject(v.fields, patterns, current);
      } else {
        ExtractsList(v.items, patterns, current);
      }
    }
  }

  /** The same for a whole document. */
  lemma ExtractKeepsLeaves(o: Fields, patterns: seq<Path>, p: Path)
    ensures Leaf(Object(ExtractedObject(o, patterns)), p)
         == if InScope(p, patterns) then Leaf(Object(o), p) else None
  {
    ExtractLeaves(Object(o), patterns, [], p);
    CoveredFromRoot(p, patterns);
    assert [] + p == p;
    if Extracted(Object(o), patterns, []).Some? && !MatchesSome([], patterns) {
      ExtractsObject(o, patterns, []);
    }
  }

  /** Every position of the selection is a position of the source. */
  lemma {:induction false} ExtractPositions(v: Json, patterns: seq<Path>, current: Path, p: Path)
    requires Extracted(v, patterns, current).Some?
    requires Lookup(Extracted(v, patterns, current).value, p).Some?
    ensures Lookup(v, p).Some?
    decreases |p|
  {
    if p != [] && !MatchesSome(current, patterns) {
      var step := p[0];
      ExtractsChild(v, patterns, current, step);
      var child := Child(v, step).value;
      if Extracted(child, patterns, current + [step]).Some? {
        ExtractPositions(child, patterns, current + [step], p[1..]);
      }
    }
  }

  /** No pattern names a list element by number. */
  predicate NoFixedIndex(patterns: seq<Path>) {
    forall i, j :: 0 <= i < |patterns| && 0 <= j < |patterns[i]| ==> !patterns[i][j].Index?
  }

  lemma WildcardReachesAll(current: Path, i: int, j: int, patterns: seq<Path>)
    requires NoFixedIndex(patterns) && LeadsToSome(current + [Index(i)], patterns)
    ensures LeadsToSome(current + [Index(j)], patterns)
  {
    var n :| 0 <= n < |patterns| && LeadsTo(current + [Index(i)], patterns[n]);
    forall m | 0 <= m < |current| + 1 ensures SegmentsMatch(patterns[n][m], (current + [Index(j)])[m]) {
      assert SegmentsMatch(patterns[n][m], (current + [Index(i)])[m]);
    }
    assert LeadsTo(current + [Index(j)], patterns[n]);
  }

  lemma ExtractedLeads(v: Json, patterns: seq<Path>, current: Path)
    requires Extracted(v, patterns, current).Some?
    ensures LeadsToSome(current, patterns)
  {
    if MatchesSome(current, patterns) {
      MatchingLeads(current, patterns);
    }
  }

  /** Without numbered list elements in the patterns, every position of the selection is
      in scope: there is no null placeholder outside it. */
  lemma {:induction false} ExtractInScope(v: Json, patterns: seq<Path>, current: Path, p: Path)
    requires NoFixedIndex(patterns)
    requires Extracted(v, patterns, current).Some?
    requires Lookup(Extracted(v, patterns, current).value, p).Some?
    ensures InScopeBeyond(current, p, patterns)
    decreases |p|
  {
    CoveredStep(current, p, patterns);
    if MatchesSome(current, patterns) {
    } else if p == [] {
      assert current + p == current;
    } else {
      var step := p[0];
      ExtractsChild(v, patterns, current, step);
      var child := Child(v, step).value;
      assert current + [step] + p[1..] == current + p;
      if Extracted(child, patterns, current + [step]).Some? {
        ExtractInScope(child, patterns, current + [step], p[1..]);
      } else {
        ExtractsList(v.items, patterns, current);
        var i :| 0 <= i < |v.items| && Extracted(v.items[i], patterns, current + [Index(i)]).Some?;
        ExtractedLeads(v.items[i], patterns, current + [Index(i)]);
        WildcardReachesAll(current, i, step.index, patterns);
        assert p == [step];
      }
    }
  }

  // ---- idempotence ---------------------------------------------------------

  lemma SameObject(m: Fields, n: Fields)
    requires forall k :: Child(Object(m), Field(k)) == Child(Object(n), Field(k))
    ensures m == n
  {
    forall k ensures (k in m <==> k in n) && (k in m ==> m[k] == n[k]) {
      assert Child(Object(m), Field(k)) == Child(Object(n), Field(k));
    }
  }

  /** Selecting from a selection gives it back. */
  lemma {:induction false} ExtractIdempotent(v: Json, patterns: seq<Path>, current: Path)
    requires Extracted(v, patterns, current).Some?
    ensures Extracted(Extracted(v, patterns, current).value, patterns, current) == Extracted(v, patterns, current)
    decreases v
  {
    if !MatchesSome(current, patterns) {
      ExtractedLeads(v, patterns, current);
      match v
      case Object(m) =>
        ExtractsObject(m, patterns, current);
        var inner := Extracted(v, patterns, current).value.fields;
        ExtractsObject(inner, patterns, current);
        forall k
          ensures ExtractedChild(Object(inner), patterns, current, Field(k)) == Child(Object(inner), Field(k))
        {
          assert Child(Object(inner), Field(k)) == ExtractedChild(v, patterns, current, Field(k));
          if k in m && Extracted(m[k], patterns, current + [Field(k)]).Some? {
            ExtractIdempotent(m[k], patterns, current + [Field(k)]);
          }
        }
        var k :| k in m && Extracted(m[k], patterns, current + [Field(k)]).Some?;
        assert Child(Object(inner), Field(k)) == ExtractedChild(v, patterns, current, Field(k));
        assert ExtractedChild(Object(inner), patterns, current, Field(k)) == Child(Object(inner), Field(k));
        assert Extracted(Object(inner), patterns, current).Some?;
        SameObject(Extracted(Object(inner), patterns, current).value.fields, inner);
      case List(s) =>
        ExtractsList(s, patterns, current);
        var inner := Extracted(v, patterns, current).value.items;
        ExtractsList(inner, patterns, current);
        forall i | 0 <= i < |s|
          ensures Extracted(inner[i], patterns, current + [Index(i)]).GetOr(Null) == inner[i]
          ensures Extracted(s[i], patterns, current + [Index(i)]).Some? ==>
                    Extracted(inner[i], patterns, current + [Index(i)]).Some?
        {
          if Extracted(s[i], patterns, current + [Index(i)]).Some? {
            ExtractIdempotent(s[i], patterns, current + [Index(i)]);
          }
        }
        assert Extracted(List(inner), patterns, current).value.items == inner;
      case _ =>
    }
  }

  lemma ExtractTwice(o: Fields, patterns: seq<Path>)
    ensures ExtractedObject(ExtractedObject(o, patterns), patterns) == ExtractedObject(o, patterns)
  {
    if Extracted(Object(o), patterns, []).Some? {
      ExtractIdempotent(Object(o), patterns, []);
      if !MatchesSome([], patterns) {
        ExtractsObject(o, patterns, []);
      }
    } else if !MatchesSome([], patterns) && LeadsToSome([], patterns) {
      ExtractsObject(map[], patterns, []);
    }
  }
}
