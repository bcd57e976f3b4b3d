/** Decoded JSON documents and the positions in them. */
module Trees {
  import opened Text
  import opened Paths

  /** A decoded value. Two numbers that Go compares as equal `float64`s are the same
      number here. */
  datatype Json =
    | Null
    | Bool(flag: bool)
    | Number(number: real)
    | String(text: string)
    | Object(fields: map<string, Json>)
    | List(items: seq<Json>)

  type Fields = map<string, Json>

  /** The document a scoping step returns: nothing kept reads as an empty document. */
  function FieldsOf(r: Option<Json>): Fields {
    match r
    case Some(Object(m)) => m
    case _ => map[]
  }

  predicate IsContainer(v: Json) {
    v.Object? || v.List?
  }

  predicate SameKind(v: Json, w: Json) {
    (v.Object? && w.Object?) || (v.List? && w.List?)
  }

  /** What sits one step below `v`. */
  function Child(v: Json, step: Segment): Option<Json> {
    match (v, step)
    case (Object(m), Field(k)) => if k in m then Some(m[k]) else None
    case (List(s), Index(i)) => if 0 <= i < |s| then Some(s[i]) else None
    case _ => None
  }

  /** What sits at a position. */
  function Lookup(v: Json, p: Path): Option<Json>
    decreases |p|
  {
    if p == [] then Some(v)
    else match Child(v, p[0])
      case None => None
      case Some(child) => Lookup(child, p[1..])
  }

  lemma LookupStep(v: Json, step: Segment)
    ensures Lookup(v, [step]) == Child(v, step)
  {
    if Child(v, step).Some? {
      assert [step][1..] == [];
    }
  }

  /** What no scoping step may alter where it keeps it: a scalar other than null, or the
      length of a list. */
  datatype Mark = Scalar(value: Json) | Length(n: nat)

  function MarkOf(v: Json): Option<Mark> {
    match v
    case Null => None
    case Object(_) => None
    case List(s) => Some(Length(|s|))
    case _ => Some(Scalar(v))
  }

  function MarkAt(v: Json, p: Path): Option<Mark> {
    match Lookup(v, p)
    case None => None
    case Some(w) => MarkOf(w)
  }

  /** The non-null scalar at a position, if there is one. */
  function Leaf(v: Json, p: Path): Option<Json> {
    match MarkAt(v, p)
    case Some(Scalar(x)) => Some(x)
    case _ => None
  }

  lemma LookupConcrete(v: Json, p: Path)
    requires Lookup(v, p).Some?
    ensures Concrete(p)
    decreases |p|
  {
    if p != [] {
      LookupConcrete(Child(v, p[0]).value, p[1..]);
      forall i | 0 <= i < |p| ensures p[i].Field? || p[i].Index? {
        assert i > 0 ==> p[i] == p[1..][i - 1];
      }
    }
  }

  /** Some prefix `current + p[..n]` matches. */
  predicate CoveredBeyond(current: Path, p: Path, patterns: seq<Path>) {
    exists n :: 0 <= n <= |p| && MatchesSome(current + p[..n], patterns)
  }

  lemma CoveredFromRoot(p: Path, patterns: seq<Path>)
    ensures CoveredBeyond([], p, patterns) <==> Covered(p, patterns)
  {
    forall n | 0 <= n <= |p| ensures [] + p[..n] == p[..n] {}
    if CoveredBeyond([], p, patterns) {
      var n :| 0 <= n <= |p| && MatchesSome([] + p[..n], patterns);
      assert MatchesSome(p[..n], patterns);
    }
    if Covered(p, patterns) {
      var n :| 0 <= n <= |p| && MatchesSome(p[..n], patterns);
      assert MatchesSome([] + p[..n], patterns);
    }
  }

  /** A path is covered at its start, or beyond its first step. */
  lemma CoveredStep(current: Path, p: Path, patterns: seq<Path>)
    ensures p == [] ==> (CoveredBeyond(current, p, patterns) <==> MatchesSome(current, patterns))
    ensures p != [] ==>
              (CoveredBeyond(current, p, patterns) <==>
               MatchesSome(current, patterns) || CoveredBeyond(current + [p[0]], p[1..], patterns))
  {
    assert current + p[..0] == current;
    if p != [] {
      forall n | 0 <= n < |p| ensures current + [p[0]] + p[1..][..n] == current + p[..n + 1] {}
      if CoveredBeyond(current, p, patterns) && !MatchesSome(current, patterns) {
        var n :| 0 <= n <= |p| && MatchesSome(current + p[..n], patterns);
        assert MatchesSome(current + [p[0]] + p[1..][..n - 1], patterns);
      }
      if CoveredBeyond(current + [p[0]], p[1..], patterns) {
        var n :| 0 <= n <= |p[1..]| && MatchesSome(current + [p[0]] + p[1..][..n], patterns);
        assert MatchesSome(current + p[..n + 1], patterns);
      }
    }
  }
}
