/** What a caller can conclude from a diff. */
module CompareLaws {
  import opened Text
  import opened Paths
  import opened Trees
  import opened Compare

  /** A path is reported iff both documents hold containers of one kind at each of its
      strict prefixes and part at the path itself; none is reported twice. */
  lemma CompareExact(oldObj: Fields, newObj: Fields)
    ensures forall q :: q in DocumentChanges(oldObj, newObj) <==> PartsAt(Object(oldObj), Object(newObj), q)
    ensures NoRepeats(DocumentChanges(oldObj, newObj))
  {
    hide Changes, PartsAt;
    ChangesExact(Object(oldObj), Object(newObj), []);
    ReportsFromRoot(DocumentChanges(oldObj, newObj), Object(oldObj), Object(newObj));
  }

  lemma ReportsFromRoot(paths: seq<Path>, v: Json, w: Json)
    requires Reports(paths, v, w, [])
    ensures forall q :: q in paths <==> PartsAt(v, w, q)
  {
    hide PartsAt;
    forall q ensures q in paths <==> PartsAt(v, w, q) {
      assert q[0..] == q;
      if PartsAt(v, w, q) {
        assert [] + q == q;
      }
    }
  }

  /** No reported path is a prefix of another. */
  lemma PrefixFree(v: Json, w: Json, p: Path, q: Path)
    requires PartsAt(v, w, p) && PartsAt(v, w, q) && p <= q
    ensures p == q
  {
    assert q[..|p|] == p;
    assert |p| < |q| ==> AlikeAt(v, w, q[..|p|]);
  }

  /** Reported paths start with a field, so their text is never the placeholder "<root>". */
  lemma ReportedBelowRoot(oldObj: Fields, newObj: Fields, q: Path)
    requires PartsAt(Object(oldObj), Object(newObj), q)
    ensures q != [] && q[0].Field?
  {
    PartsAtRoot(Object(oldObj), Object(newObj));
    assert q == [q[0]] + q[1..];
    PartsAtStep(Object(oldObj), Object(newObj), q[0], q[1..]);
  }

  lemma ReportedPresent(v: Json, w: Json, q: Path)
    requires PartsAt(v, w, q)
    ensures Lookup(v, q).Some? || Lookup(w, q).Some?
  {
  }

  // ---- symmetry ------------------------------------------------------------

  lemma {:induction false} ChangesSymmetric(v: Json, w: Json, current: Path)
    ensures Changes(v, w, current) == Changes(w, v, current)
    decreases v, 1, 0
  {
    if v.Object? && w.Object? {
      assert v.fields.Keys + w.fields.Keys == w.fields.Keys + v.fields.Keys;
      FieldChangesSymmetric(v.fields, w.fields, SortedKeys(v.fields.Keys + w.fields.Keys), current);
    } else if v.List? && w.List? {
      ItemChangesSymmetric(v.items, w.items, Longer(v.items, w.items), current);
    } else if !IsContainer(v) && !IsContainer(w) {
      ValuesEqualExact(v, w);
      ValuesEqualExact(w, v);
    }
  }

  lemma {:induction false} FieldChangesSymmetric(m: Fields, n: Fields, keys: seq<string>, current: Path)
    ensures FieldChanges(m, n, keys, current) == FieldChanges(n, m, keys, current)
    decreases Object(m), 0, |keys|
  {
    if keys != [] {
      var key := keys[|keys| - 1];
      FieldChangesSymmetric(m, n, keys[..|keys| - 1], current);
      if key in m && key in n {
        ChangesSymmetric(m[key], n[key], current + [Field(key)]);
      }
    }
  }

  lemma {:induction false} ItemChangesSymmetric(s: seq<Json>, t: seq<Json>, count: nat, current: Path)
    ensures ItemChanges(s, t, count, current) == ItemChanges(t, s, count, current)
    decreases List(s), 0, count
  {
    if count > 0 {
      var i := count - 1;
      ItemChangesSymmetric(s, t, i, current);
      if i < |s| && i < |t| {
        ChangesSymmetric(s[i], t[i], current + [Index(i)]);
      }
    }
  }

  /** Swapping the two documents gives the same report. */
  lemma DiffSymmetric(letters: Alphabet, oldObj: Fields, newObj: Fields)
    ensures Diff(letters, oldObj, newObj) == Diff(letters, newObj, oldObj)
  {
    ChangesSymmetric(Object(oldObj), Object(newObj), []);
  }

  // ---- completeness ----------------------------------------------------------

  /** Unequal values part somewhere. */
  lemma {:induction false} UnequalPart(v: Json, w: Json) returns (q: Path)
    requires v != w
    ensures PartsAt(v, w, q)
    decreases v
  {
    q := [];
    PartsAtRoot(v, w);
    if SameKind(v, w) {
      var step := UnequalChild(v, w);
      var rest: Path := [];
      if Child(v, step).Some? && Child(w, step).Some? {
        match v {
          case Object(m) => rest := UnequalPart(m[step.key], w.fields[step.key]);
          case List(s) => rest := UnequalPart(s[step.index], w.items[step.index]);
        }
      }
      PartsAtStep(v, w, step, rest);
      q := [step] + rest;
    }
  }

  lemma UnequalChild(v: Json, w: Json) returns (step: Segment)
    requires v != w && SameKind(v, w)
    ensures Child(v, step) != Child(w, step)
    ensures step.Field? <==> v.Object?
    ensures step.Index? <==> v.List?
  {
    if v.Object? {
      var m, n := v.fields, w.fields;
      assert m != n;
      if k :| k in m && (k !in n || m[k] != n[k]) {
        step := Field(k);
      } else {
        assert n.Keys <= m.Keys ==> m == n;
        var k :| k in n && k !in m;
        step := Field(k);
      }
    } else if |v.items| != |w.items| {
      step := Index(if |v.items| < |w.items| then |v.items| else |w.items|);
    } else {
      var i :| 0 <= i < |v.items| && v.items[i] != w.items[i];
      step := Index(i);
    }
  }

  /** "Identical" means equal. */
  lemma IdenticalMeansEqual(letters: Alphabet, oldObj: Fields, newObj: Fields)
    ensures Diff(letters, oldObj, newObj).identical <==> oldObj == newObj
  {
    CompareExact(oldObj, newObj);
    var changes := DocumentChanges(oldObj, newObj);
    assert changes == [] || changes[0] in changes;
    if oldObj != newObj {
      var q := UnequalPart(Object(oldObj), Object(newObj));
      assert q in changes;
    }
  }

  /** Where the documents differ, some reported path lies on the way down or below; where
      they differ in a non-null scalar, it lies on the way down. So they agree at every
      position unrelated to a reported one. */
  lemma {:induction false} DifferenceReported(v: Json, w: Json, p: Path) returns (q: Path)
    requires Lookup(v, p) != Lookup(w, p)
    ensures PartsAt(v, w, q) && (q <= p || p <= q)
    ensures Leaf(v, p) != Leaf(w, p) ==> q <= p
    decreases |p|
  {
    PartsAtRoot(v, w);
    if !SameKind(v, w) {
      q := [];
    } else if p == [] {
      q := UnequalPart(v, w);
    } else {
      var step := p[0];
      var rest: Path := [];
      if Child(v, step).Some? && Child(w, step).Some? {
        rest := DifferenceReported(Child(v, step).value, Child(w, step).value, p[1..]);
      }
      PartsAtStep(v, w, step, rest);
      q := [step] + rest;
      assert p == [step] + p[1..];
    }
  }
}
