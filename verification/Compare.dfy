/** The structural diff of `pkg/diff/diff.go`. */
module Compare {
  import opened Text
  import opened Sorting
  import opened Paths
  import opened Trees

  /** Equality of values that are neither maps nor lists. */
  predicate ValuesEqual(left: Json, right: Json) {
    match left
    case String(s) => right.String? && s == right.text
    case Bool(b) => right.Bool? && b == right.flag
    case Null => right.Null?
    case Number(n) => right.Number? && n == right.number
    case _ => left == right
  }

  // ---- traversal ----------------------------------------------------------

  /** Some listing of a set, as ranging over a Go map gives one. */
  ghost function Listing(keys: set<string>): (s: seq<string>)
    ensures multiset(s) == multiset(keys)
    decreases |keys|
  {
    if keys == {} then []
    else
      var k :| k in keys;
      var rest := Listing(keys - {k});
      assert keys == (keys - {k}) + {k};
      [k] + rest
  }

  ghost function SortedKeys(keys: set<string>): seq<string> {
    SortStrings(Listing(keys))
  }

  lemma ListingIrrelevant(listed: seq<string>, keys: set<string>)
    requires multiset(listed) == multiset(keys)
    ensures SortStrings(listed) == SortedKeys(keys)
  {
    SortStringsOfPermutation(listed, Listing(keys));
  }

  /** The reported paths in the order the traversal finds them. */
  ghost function Changes(v: Json, w: Json, current: Path): seq<Path>
    decreases v, 1, 0
  {
    if v.Object? && w.Object? then
      FieldChanges(v.fields, w.fields, SortedKeys(v.fields.Keys + w.fields.Keys), current)
    else if v.List? && w.List? then
      ItemChanges(v.items, w.items, Longer(v.items, w.items), current)
    else if IsContainer(v) || IsContainer(w) || !ValuesEqual(v, w) then [current]
    else []
  }

  ghost function FieldChanges(m: Fields, n: Fields, keys: seq<string>, current: Path): seq<Path>
    decreases Object(m), 0, |keys|
  {
    if keys == [] then []
    else FieldChanges(m, n, keys[..|keys| - 1], current) + FieldChange(m, n, keys[|keys| - 1], current)
  }

  ghost function FieldChange(m: Fields, n: Fields, key: string, current: Path): seq<Path>
    decreases Object(m), 0, 0
  {
    if key !in m || key !in n then [current + [Field(key)]]
    else Changes(m[key], n[key], current + [Field(key)])
  }

  function Longer(s: seq<Json>, t: seq<Json>): nat {
    if |t| > |s| then |t| else |s|
  }

  ghost function ItemChanges(s: seq<Json>, t: seq<Json>, count: nat, current: Path): seq<Path>
    decreases List(s), 0, count
  {
    if count == 0 then []
    else ItemChanges(s, t, count - 1, current) + ItemChange(s, t, count - 1, current)
  }

  ghost function ItemChange(s: seq<Json>, t: seq<Json>, index: nat, current: Path): seq<Path>
    decreases List(s), 0, 0
  {
    if index >= |s| || index >= |t| then [current + [Index(index)]]
    else Changes(s[index], t[index], current + [Index(index)])
  }

  function RenderedAll(letters: Alphabet, paths: seq<Path>): seq<string> {
    seq(|paths|, i requires 0 <= i < |paths| => RenderedPath(letters, paths[i]))
  }

  lemma RenderedAllAppend(letters: Alphabet, p: seq<Path>, q: seq<Path>)
    ensures RenderedAll(letters, p + q) == RenderedAll(letters, p) + RenderedAll(letters, q)
  {
    var all, parts := RenderedAll(letters, p + q), RenderedAll(letters, p) + RenderedAll(letters, q);
    forall i | 0 <= i < |all| ensures all[i] == parts[i] {
      assert (p + q)[i] == if i < |p| then p[i] else q[i - |p|];
    }
  }

  /** The slice that the traversal appends to through a pointer. */
  class ChangedPaths {
    const letters: Alphabet
    var paths: seq<string>
    /** The positions whose texts were appended. */
    ghost var found: seq<Path>

    ghost predicate Valid()
      reads this
    {
      paths == RenderedAll(letters, found)
    }

    constructor (letters: Alphabet)
      ensures Valid() && found == [] && this.letters == letters
    {
      this.letters, paths, found := letters, [], [];
    }

    method Append(path: Path)
      requires Valid()
      modifies this
      ensures Valid() && found == old(found) + [path]
    {
      var text := RenderPath(letters, path);
      RenderedAllAppend(letters, found, [path]);
      paths, found := paths + [text], found + [path];
    }
  }

  method CompareValue(oldValue: Json, newValue: Json, current: Path, changed: ChangedPaths)
    requires changed.Valid()
    modifies changed
    ensures changed.Valid() && changed.found == old(changed.found) + Changes(oldValue, newValue, current)
    decreases oldValue, 1, 0
  {
    if oldValue.Object? || newValue.Object? {
      if !oldValue.Object? || !newValue.Object? {
        changed.Append(current);
        return;
      }
      CompareMap(oldValue.fields, newValue.fields, current, changed);
      return;
    }
    if oldValue.List? || newValue.List? {
      if !oldValue.List? || !newValue.List? {
        changed.Append(current);
        return;
      }
      CompareList(oldValue.items, newValue.items, current, changed);
      return;
    }
    if !ValuesEqual(oldValue, newValue) {
      changed.Append(current);
    }
  }

  /** Collects the keys in any order, then sorts them. */
  method KeysInOrder(keys: set<string>) returns (sorted: seq<string>)
    ensures sorted == SortedKeys(keys)
  {
    var listed: seq<string> := [];
    var pending := keys;
    while pending != {}
      invariant pending <= keys
      invariant multiset(listed) == multiset(keys - pending)
    {
      var key :| key in pending;
      assert keys - (pending - {key}) == (keys - pending) + {key};
      listed := listed + [key];
      pending := pending - {key};
    }
    assert keys - {} == keys;
    ListingIrrelevant(listed, keys);
    var strings := CopyToArray(listed);
    SortInPlace(strings, StringLess);
    return strings[..];
  }

  lemma Regroup(a: seq<Path>, b: seq<Path>, c: seq<Path>)
    ensures a + b + c == a + (b + c)
  {
  }

  lemma FieldChangesStep(m: Fields, n: Fields, keys: seq<string>, i: nat, current: Path)
    requires i < |keys|
    ensures FieldChanges(m, n, keys[..i + 1], current)
         == FieldChanges(m, n, keys[..i], current) + FieldChange(m, n, keys[i], current)
  {
    assert keys[..i + 1][..i] == keys[..i];
  }

  method CompareMap(oldMap: Fields, newMap: Fields, current: Path, changed: ChangedPaths)
    requires changed.Valid()
    modifies changed
    ensures changed.Valid()
    ensures changed.found == old(changed.found) + Changes(Object(oldMap), Object(newMap), current)
    decreases Object(oldMap), 0, 1
  {
    ghost var before := changed.found;
    var sortedKeys := KeysInOrder(oldMap.Keys + newMap.Keys);
    for i := 0 to |sortedKeys|
      invariant changed.Valid()
      invariant changed.found == before + FieldChanges(oldMap, newMap, sortedKeys[..i], current)
    {
      ghost var done := FieldChanges(oldMap, newMap, sortedKeys[..i], current);
      ghost var next := FieldChange(oldMap, newMap, sortedKeys[i], current);
      FieldChangesStep(oldMap, newMap, sortedKeys, i, current);
      CompareField(oldMap, newMap, sortedKeys[i], current, changed);
      Regroup(before, done, next);
    }
    assert sortedKeys[..|sortedKeys|] == sortedKeys;
  }

  method CompareField(oldMap: Fields, newMap: Fields, key: string, current: Path, changed: ChangedPaths)
    requires changed.Valid()
    modifies changed
    ensures changed.Valid() && changed.found == old(changed.found) + FieldChange(oldMap, newMap, key, current)
    decreases Object(oldMap), 0, 0
  {
    var childPath := current + [Field(key)];
    if key !in oldMap || key !in newMap {
      changed.Append(childPath);
      return;
    }
    CompareValue(oldMap[key], newMap[key], childPath, changed);
  }

  method CompareList(oldList: seq<Json>, newList: seq<Json>, current: Path, changed: ChangedPaths)
    requires changed.Valid()
    modifies changed
    ensures changed.Valid()
    ensures changed.found == old(changed.found) + Changes(List(oldList), List(newList), current)
    decreases List(oldList), 0, 1
  {
    var maxLen := |oldList|;
    if |newList| > maxLen {
      maxLen := |newList|;
    }
    ghost var before := changed.found;
    for index := 0 to maxLen
      invariant changed.Valid()
      invariant changed.found == before + ItemChanges(oldList, newList, index, current)
    {
      ghost var done := ItemChanges(oldList, newList, index, current);
      ghost var next := ItemChange(oldList, newList, index, current);
      CompareItem(oldList, newList, index, current, changed);
      Regroup(before, done, next);
    }
  }

  method CompareItem(oldList: seq<Json>, newList: seq<Json>, index: nat, current: Path, changed: ChangedPaths)
    requires changed.Valid()
    modifies changed
    ensures changed.Valid() && changed.found == old(changed.found) + ItemChange(oldList, newList, index, current)
    decreases List(oldList), 0, 0
  {
    var childPath := current + [Index(index)];
    if index >= |oldList| || index >= |newList| {
      changed.Append(childPath);
      return;
    }
    CompareValue(oldList[index], newList[index], childPath, changed);
  }

  datatype DiffResult = DiffResult(identical: bool, changedPaths: seq<string>)

  ghost function DocumentChanges(oldObj: Fields, newObj: Fields): seq<Path> {
    Changes(Object(oldObj), Object(newObj), [])
  }

  ghost function Diff(letters: Alphabet, oldObj: Fields, newObj: Fields): DiffResult {
    var paths := SortStrings(RenderedAll(letters, DocumentChanges(oldObj, newObj)));
    DiffResult(|paths| == 0, paths)
  }

  method CompareObjects(letters: Alphabet, oldObj: Fields, newObj: Fields) returns (result: DiffResult)
    ensures result == Diff(letters, oldObj, newObj)
  {
    var changed := new ChangedPaths(letters);
    CompareValue(Object(oldObj), Object(newObj), [], changed);
    assert changed.found == DocumentChanges(oldObj, newObj);
    var paths := CopyToArray(changed.paths);
    SortInPlace(paths, StringLess);
    return DiffResult(paths.Length == 0, paths[..]);
  }

  // ---- what is reported ----------------------------------------------------

  predicate AlikeAt(v: Json, w: Json, p: Path) {
    && Lookup(v, p).Some? && Lookup(w, p).Some?
    && SameKind(Lookup(v, p).value, Lookup(w, p).value)
  }

  /** Exactly one side is present, or both are, of different kinds or unequal scalars. */
  predicate UnlikeAt(v: Json, w: Json, p: Path) {
    match (Lookup(v, p), Lookup(w, p))
    case (None, None) => false
    case (Some(a), Some(b)) => !SameKind(a, b) && a != b
    case _ => true
  }

  /** Down to `p` both sides hold containers of one kind; at `p` they part. */
  predicate PartsAt(v: Json, w: Json, p: Path) {
    && (forall n :: 0 <= n < |p| ==> AlikeAt(v, w, p[..n]))
    && UnlikeAt(v, w, p)
  }

  lemma PartsAtRoot(v: Json, w: Json)
    ensures PartsAt(v, w, []) <==> !SameKind(v, w) && v != w
  {
  }

  lemma PartsBelowRoot(v: Json, w: Json, p: Path)
    requires p != [] && PartsAt(v, w, p)
    ensures SameKind(v, w)
  {
    assert AlikeAt(v, w, p[..0]);
  }

  lemma PartsBelowChildren(v: Json, w: Json, q: Path)
    requires |q| > 1 && PartsAt(v, w, q)
    ensures Child(v, q[0]).Some? && Child(w, q[0]).Some?
  {
    assert AlikeAt(v, w, q[..1]);
  }

  lemma AlikeBelow(v: Json, w: Json, step: Segment, p: Path)
    requires Child(v, step).Some? && Child(w, step).Some?
    ensures AlikeAt(v, w, [step] + p) <==> AlikeAt(Child(v, step).value, Child(w, step).value, p)
    ensures UnlikeAt(v, w, [step] + p) <==> UnlikeAt(Child(v, step).value, Child(w, step).value, p)
  {
    assert ([step] + p)[1..] == p;
  }

  /** One step down. */
  lemma PartsAtStep(v: Json, w: Json, step: Segment, p: Path)
    ensures PartsAt(v, w, [step] + p)
       <==> SameKind(v, w) &&
            match (Child(v, step), Child(w, step))
            case (None, None) => false
            case (Some(a), Some(b)) => PartsAt(a, b, p)
            case _ => p == []
  {
    var q := [step] + p;
    assert q[1..] == p && q[..0] == [];
    if Child(v, step).Some? && Child(w, step).Some? {
      var a, b := Child(v, step).value, Child(w, step).value;
      AlikeBelow(v, w, step, p);
      forall n | 0 <= n < |p| ensures AlikeAt(v, w, q[..n + 1]) <==> AlikeAt(a, b, p[..n]) {
        assert q[..n + 1] == [step] + p[..n];
        AlikeBelow(v, w, step, p[..n]);
      }
      if PartsAt(v, w, q) {
        assert AlikeAt(v, w, q[..0]);
        forall n | 0 <= n < |p| ensures AlikeAt(a, b, p[..n]) {
          assert AlikeAt(v, w, q[..n + 1]);
        }
      }
      if SameKind(v, w) && PartsAt(a, b, p) {
        forall n | 0 <= n < |q| ensures AlikeAt(v, w, q[..n]) {
          if n > 0 {
            assert AlikeAt(a, b, p[..n - 1]);
          }
        }
      }
    } else if PartsAt(v, w, q) {
      assert AlikeAt(v, w, q[..0]);
      if p != [] {
        PartsBelowChildren(v, w, q);
      }
    } else if p == [] && SameKind(v, w) {
      forall n | 0 <= n < |q| ensures AlikeAt(v, w, q[..n]) {
        assert q[..n] == [];
      }
      LookupStep(v, step);
      LookupStep(w, step);
      assert q == [step];
    }
  }

  lemma ValuesEqualExact(v: Json, w: Json)
    requires !IsContainer(v) && !IsContainer(w)
    ensures ValuesEqual(v, w) <==> v == w
  {
  }

  predicate NoRepeats<T(==)>(s: seq<T>) {
    forall i, j :: 0 <= i < j < |s| ==> s[i] != s[j]
  }

  /** What a list of reported paths says about two values below `current`. */
  ghost predicate Reports(paths: seq<Path>, v: Json, w: Json, current: Path) {
    && NoRepeats(paths)
    && (forall q :: q in paths ==> current <= q && PartsAt(v, w, q[|current|..]))
    && (forall p :: PartsAt(v, w, p) ==> current + p in paths)
  }

  /** The traversal reports exactly the positions where the two values part, each once. */
  lemma {:induction false} ChangesExact(v: Json, w: Json, current: Path)
    ensures Reports(Changes(v, w, current), v, w, current)
    decreases v
  {
    if v.Object? && w.Object? {
      ObjectChangesExact(v.fields, w.fields, current);
    } else if v.List? && w.List? {
      ListChangesExact(v.items, w.items, current);
    } else {
      PartsAtRoot(v, w);
      if !IsContainer(v) && !IsContainer(w) {
        ValuesEqualExact(v, w);
      }
      forall p | PartsAt(v, w, p) ensures p == [] {
        if p != [] {
          PartsBelowRoot(v, w, p);
        }
      }
      assert current + [] == current;
    }
  }

  /** The same for the part of a traversal that lies under the given steps. */
  ghost predicate ReportsUnder(paths: seq<Path>, v: Json, w: Json, current: Path, steps: set<Segment>) {
    && NoRepeats(paths)
    && (forall q :: q in paths ==>
          |q| > |current| && current <= q && q[|current|] in steps && PartsAt(v, w, q[|current|..]))
    && (forall p :: p != [] && p[0] in steps && PartsAt(v, w, p) ==> current + p in paths)
  }

  /** Where a child is reported on its own, the parent's report has the step in front. */
  lemma ReportsChild(paths: seq<Path>, v: Json, w: Json, current: Path, step: Segment)
    requires SameKind(v, w) && Child(v, step).Some? && Child(w, step).Some?
    requires Reports(paths, Child(v, step).value, Child(w, step).value, current + [step])
    ensures ReportsUnder(paths, v, w, current, {step})
  {
    forall q | q in paths
      ensures |q| > |current| && current <= q && q[|current|] in {step} && PartsAt(v, w, q[|current|..])
    {
      assert q[..|current| + 1] == current + [step];
      assert q[..|current|] == q[..|current| + 1][..|current|];
      assert q[|current|] == q[..|current| + 1][|current|];
      PartsAtStep(v, w, step, q[|current| + 1..]);
      assert q[|current|..] == [step] + q[|current| + 1..];
    }
    forall p | p != [] && p[0] in {step} && PartsAt(v, w, p) ensures current + p in paths {
      assert p == [step] + p[1..];
      PartsAtStep(v, w, step, p[1..]);
      assert current + [step] + p[1..] == current + p;
    }
  }

  lemma ReportsMissing(v: Json, w: Json, current: Path, step: Segment)
    requires SameKind(v, w) && Child(v, step).Some? != Child(w, step).Some?
    ensures ReportsUnder([current + [step]], v, w, current, {step})
  {
    var q := current + [step];
    assert q[|current|..] == [step] + [];
    PartsAtStep(v, w, step, []);
    forall p | p != [] && p[0] in {step} && PartsAt(v, w, p) ensures current + p in [q] {
      assert p == [step] + p[1..];
      PartsAtStep(v, w, step, p[1..]);
    }
  }

  lemma ReportsJoin(ps: seq<Path>, qs: seq<Path>, v: Json, w: Json, current: Path, s: set<Segment>, t: set<Segment>)
    requires ReportsUnder(ps, v, w, current, s) && ReportsUnder(qs, v, w, current, t) && s !! t
    ensures ReportsUnder(ps + qs, v, w, current, s + t)
  {
    forall i, j | 0 <= i < j < |ps + qs| ensures (ps + qs)[i] != (ps + qs)[j] {
      if i < |ps| <= j {
        assert ps[i] in ps && qs[j - |ps|] in qs;
      }
    }
  }

  /** A report under all steps at which the values can part is a full report. */
  lemma ReportsEverywhere(paths: seq<Path>, v: Json, w: Json, current: Path, steps: set<Segment>)
    requires ReportsUnder(paths, v, w, current, steps)
    requires forall p :: PartsAt(v, w, p) ==> p != [] && p[0] in steps
    ensures Reports(paths, v, w, current)
  {
  }

  /** Values of one kind part only below a step that one of them has. */
  lemma PartsBelowStep(v: Json, w: Json, p: Path)
    requires SameKind(v, w) && PartsAt(v, w, p)
    ensures p != [] && (Child(v, p[0]).Some? || Child(w, p[0]).Some?)
  {
    PartsAtRoot(v, w);
    assert p == [p[0]] + p[1..];
    PartsAtStep(v, w, p[0], p[1..]);
  }

  function FieldSteps(keys: seq<string>): set<Segment> {
    set k | k in keys :: Field(k)
  }

  lemma {:induction false} FieldChangesExact(m: Fields, n: Fields, keys: seq<string>, current: Path)
    requires NoRepeats(keys) && forall k :: k in keys ==> k in m || k in n
    ensures ReportsUnder(FieldChanges(m, n, keys, current), Object(m), Object(n), current, FieldSteps(keys))
    decreases Object(m), 0, |keys|
  {
    if keys != [] {
      var init, key := keys[..|keys| - 1], keys[|keys| - 1];
      FieldChangesExact(m, n, init, current);
      assert keys == init + [key];
      assert key in keys;
      if key in m && key in n {
        ChangesExact(m[key], n[key], current + [Field(key)]);
        ReportsChild(Changes(m[key], n[key], current + [Field(key)]), Object(m), Object(n), current, Field(key));
      } else {
        ReportsMissing(Object(m), Object(n), current, Field(key));
      }
      assert FieldSteps(keys) == FieldSteps(init) + {Field(key)};
      assert key !in init;
      ReportsJoin(FieldChanges(m, n, init, current), FieldChange(m, n, key, current),
                  Object(m), Object(n), current, FieldSteps(init), {Field(key)});
    }
  }

  lemma {:induction false} ItemChangesExact(s: seq<Json>, t: seq<Json>, count: nat, current: Path)
    requires count <= Longer(s, t)
    ensures ReportsUnder(ItemChanges(s, t, count, current), List(s), List(t), current,
                         set i | 0 <= i < count :: Index(i))
    decreases List(s), 0, count
  {
    if count > 0 {
      var i := count - 1;
      ItemChangesExact(s, t, i, current);
      if i < |s| && i < |t| {
        ChangesExact(s[i], t[i], current + [Index(i)]);
        ReportsChild(Changes(s[i], t[i], current + [Index(i)]), List(s), List(t), current, Index(i));
      } else {
        ReportsMissing(List(s), List(t), current, Index(i));
      }
      var steps := set j | 0 <= j < i :: Index(j);
      assert (set j | 0 <= j < count :: Index(j)) == steps + {Index(i)};
      ReportsJoin(ItemChanges(s, t, i, current), ItemChange(s, t, i, current), List(s), List(t), current, steps,
                  {Index(i)});
    }
  }

  lemma RepeatCounts(s: seq<string>, i: nat, j: nat)
    requires i < j < |s| && s[i] == s[j]
    ensures multiset(s)[s[i]] >= 2
  {
    assert s == s[..j] + s[j..];
    assert s[..j][i] in s[..j] && s[j..][0] in s[j..];
  }

  lemma SortedKeysExact(keys: set<string>)
    ensures NoRepeats(SortedKeys(keys))
    ensures forall k :: k in SortedKeys(keys) <==> k in keys
  {
    var s := SortedKeys(keys);
    SortStringsCorrect(Listing(keys));
    assert multiset(s) == multiset(keys);
    forall k ensures k in s <==> k in keys {
      assert k in s <==> k in multiset(s);
    }
    forall i, j | 0 <= i < j < |s| ensures s[i] != s[j] {
      if s[i] == s[j] {
        RepeatCounts(s, i, j);
      }
    }
  }

  lemma {:induction false} ObjectChangesExact(m: Fields, n: Fields, current: Path)
    ensures Reports(Changes(Object(m), Object(n), current), Object(m), Object(n), current)
    decreases Object(m), 1
  {
    var keys := SortedKeys(m.Keys + n.Keys);
    SortedKeysExact(m.Keys + n.Keys);
    FieldChangesExact(m, n, keys, current);
    forall p | PartsAt(Object(m), Object(n), p) ensures p != [] && p[0] in FieldSteps(keys) {
      PartsBelowStep(Object(m), Object(n), p);
    }
    ReportsEverywhere(FieldChanges(m, n, keys, current), Object(m), Object(n), current, FieldSteps(keys));
  }

  lemma {:induction false} ListChangesExact(s: seq<Json>, t: seq<Json>, current: Path)
    ensures Reports(Changes(List(s), List(t), current), List(s), List(t), current)
    decreases List(s), 1
  {
    var steps := set i | 0 <= i < Longer(s, t) :: Index(i);
    ItemChangesExact(s, t, Longer(s, t), current);
    forall p | PartsAt(List(s), List(t), p) ensures p != [] && p[0] in steps {
      PartsBelowStep(List(s), List(t), p);
    }
    ReportsEverywhere(ItemChanges(s, t, Longer(s, t), current), List(s), List(t), current, steps);
  }
}
