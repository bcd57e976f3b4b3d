/** Stable sorting: the contract of Go's `sort.SliceStable` and `sort.Strings`,
    which the controller uses to make rule order and reported paths deterministic. */
module Sorting {
  import opened Text

  /** A strict weak order: what a `less` callback must be. */
  ghost predicate StrictWeakOrder<T(!new)>(less: (T, T) -> bool) {
    && (forall x :: !less(x, x))
    && (forall x, y, z :: less(x, y) && less(y, z) ==> less(x, z))
    && (forall x, y, z :: !less(x, y) && !less(y, z) ==> !less(x, z))
  }

  predicate Sorted<T>(s: seq<T>, less: (T, T) -> bool) {
    forall i, j :: 0 <= i < j < |s| ==> !less(s[j], s[i])
  }

  /** No two different elements tie. */
  ghost predicate TieFree<T>(s: seq<T>, less: (T, T) -> bool) {
    forall x, y :: x in s && y in s && x != y ==> less(x, y) || less(y, x)
  }

  /** Moves `x` left past every larger element at the end of `s`. */
  function InsertLast<T>(s: seq<T>, x: T, less: (T, T) -> bool): (r: seq<T>)
    ensures |r| == |s| + 1
  {
    if s == [] || !less(x, s[|s| - 1]) then s + [x]
    else InsertLast(s[..|s| - 1], x, less) + [s[|s| - 1]]
  }

  function Sort<T>(s: seq<T>, less: (T, T) -> bool): (r: seq<T>)
    ensures |r| == |s|
  {
    if s == [] then [] else InsertLast(Sort(s[..|s| - 1], less), s[|s| - 1], less)
  }

  lemma {:induction false} InsertLastContents<T>(s: seq<T>, x: T, less: (T, T) -> bool)
    ensures multiset(InsertLast(s, x, less)) == multiset(s) + multiset{x}
  {
    if s != [] && less(x, s[|s| - 1]) {
      InsertLastContents(s[..|s| - 1], x, less);
      assert s == s[..|s| - 1] + [s[|s| - 1]];
    }
  }

  lemma {:induction false} SortContents<T>(s: seq<T>, less: (T, T) -> bool)
    ensures multiset(Sort(s, less)) == multiset(s)
  {
    if s != [] {
      SortContents(s[..|s| - 1], less);
      InsertLastContents(Sort(s[..|s| - 1], less), s[|s| - 1], less);
      assert s == s[..|s| - 1] + [s[|s| - 1]];
    }
  }

  lemma SameElements<T>(s: seq<T>, t: seq<T>)
    requires multiset(s) == multiset(t)
    ensures forall x :: x in s <==> x in t
    ensures |s| == |t|
  {
    forall x ensures x in s <==> x in t {
      assert x in s <==> x in multiset(s);
      assert x in t <==> x in multiset(t);
    }
    assert |s| == |multiset(s)| == |multiset(t)| == |t|;
  }

  lemma {:induction false} InsertLastSorted<T(!new)>(s: seq<T>, x: T, less: (T, T) -> bool)
    requires StrictWeakOrder(less) && Sorted(s, less)
    ensures Sorted(InsertLast(s, x, less), less)
  {
    if s != [] && less(x, s[|s| - 1]) {
      var init, last := s[..|s| - 1], s[|s| - 1];
      InsertLastSorted(init, x, less);
      InsertLastContents(init, x, less);
      var r := InsertLast(init, x, less);
      forall i | 0 <= i < |r| ensures !less(last, r[i]) {
        assert r[i] in multiset(r);
        assert r[i] in init || r[i] == x;
      }
    } else if s != [] {
      forall i | 0 <= i < |s| ensures !less(x, s[i]) {
        assert !less(s[|s| - 1], s[i]);
      }
    }
  }

  lemma {:induction false} SortSorted<T(!new)>(s: seq<T>, less: (T, T) -> bool)
    requires StrictWeakOrder(less)
    ensures Sorted(Sort(s, less), less)
  {
    if s != [] {
      SortSorted(s[..|s| - 1], less);
      InsertLastSorted(Sort(s[..|s| - 1], less), s[|s| - 1], less);
    }
  }

  /** Sorting leaves a sorted sequence as it is. */
  function Filtered<T>(s: seq<T>, keep: T -> bool): seq<T> {
    if s == [] then [] else Filtered(s[..|s| - 1], keep) + if keep(s[|s| - 1]) then [s[|s| - 1]] else []
  }

  lemma FilteredSnoc<T>(init: seq<T>, last: T, keep: T -> bool)
    ensures Filtered(init + [last], keep) == Filtered(init, keep) + if keep(last) then [last] else []
  {
    assert (init + [last])[..|init|] == init;
  }

  lemma {:induction false} InsertLastStable<T(!new)>(s: seq<T>, x: T, less: (T, T) -> bool, keep: T -> bool)
    requires forall y, z :: keep(y) && keep(z) ==> !less(y, z)
    ensures Filtered(InsertLast(s, x, less), keep) == Filtered(s, keep) + if keep(x) then [x] else []
  {
    FilteredSnoc(s, x, keep);
    if s != [] && less(x, s[|s| - 1]) {
      var init, last := s[..|s| - 1], s[|s| - 1];
      InsertLastStable(init, x, less, keep);
      FilteredSnoc(InsertLast(init, x, less), last, keep);
      assert keep(last) ==> !keep(x);
    }
  }

  /** Elements that tie keep their order. */
  lemma {:induction false} SortStable<T(!new)>(s: seq<T>, less: (T, T) -> bool, keep: T -> bool)
    requires forall y, z :: keep(y) && keep(z) ==> !less(y, z)
    ensures Filtered(Sort(s, less), keep) == Filtered(s, keep)
  {
    if s != [] {
      SortStable(s[..|s| - 1], less, keep);
      InsertLastStable(Sort(s[..|s| - 1], less), s[|s| - 1], less, keep);
    }
  }

  lemma {:induction false} SortOfSorted<T>(s: seq<T>, less: (T, T) -> bool)
    requires Sorted(s, less)
    ensures Sort(s, less) == s
  {
    if s != [] {
      SortOfSorted(s[..|s| - 1], less);
      assert s == s[..|s| - 1] + [s[|s| - 1]];
    }
  }

  lemma SameHead<T>(s: seq<T>, t: seq<T>, less: (T, T) -> bool)
    requires s != [] && t != [] && s[0] in t && t[0] in s
    requires Sorted(s, less) && Sorted(t, less) && TieFree(s, less)
    ensures s[0] == t[0]
  {
    var i :| 0 <= i < |s| && s[i] == t[0];
    var j :| 0 <= j < |t| && t[j] == s[0];
  }

  lemma TailContents<T>(s: seq<T>)
    requires s != []
    ensures multiset(s[1..]) == multiset(s) - multiset{s[0]}
  {
    assert s == [s[0]] + s[1..];
  }

  /** Without ties, only one sorted arrangement of given elements exists. */
  lemma {:induction false} SortedUnique<T>(s: seq<T>, t: seq<T>, less: (T, T) -> bool)
    requires multiset(s) == multiset(t)
    requires Sorted(s, less) && Sorted(t, less) && TieFree(s, less)
    ensures s == t
  {
    SameElements(s, t);
    if s != [] {
      assert s[0] in s && t[0] in t;
      SameHead(s, t, less);
      TailContents(s);
      TailContents(t);
      assert TieFree(s[1..], less) by {
        forall x | x in s[1..] ensures x in s {}
      }
      SortedUnique(s[1..], t[1..], less);
      assert s == [s[0]] + s[1..] && t == [t[0]] + t[1..];
    }
  }

  /** The result of sorting tie-free elements does not depend on their order. */
  lemma SortOfPermutation<T(!new)>(s: seq<T>, t: seq<T>, less: (T, T) -> bool)
    requires StrictWeakOrder(less)
    requires multiset(s) == multiset(t) && TieFree(s, less)
    ensures Sort(s, less) == Sort(t, less)
  {
    SortSorted(s, less);
    SortSorted(t, less);
    SortContents(s, less);
    SortContents(t, less);
    SameElements(s, Sort(s, less));
    SortedUnique(Sort(s, less), Sort(t, less), less);
  }

  lemma InsertLastStep<T>(s: seq<T>, x: T, j: nat, less: (T, T) -> bool)
    requires 0 < j <= |s| && less(x, s[j - 1])
    ensures InsertLast(s[..j], x, less) + s[j..] == InsertLast(s[..j - 1], x, less) + s[j - 1..]
  {
    assert s[..j][..j - 1] == s[..j - 1];
    assert [s[j - 1]] + s[j..] == s[j - 1..];
    assert InsertLast(s[..j], x, less) == InsertLast(s[..j - 1], x, less) + [s[j - 1]];
  }

  lemma InsertLastStop<T>(s: seq<T>, x: T, j: nat, less: (T, T) -> bool)
    requires j <= |s| && (j > 0 ==> !less(x, s[j - 1]))
    ensures InsertLast(s[..j], x, less) == s[..j] + [x]
  {
  }

  /** Moves `a[n]` left past every larger element of the prefix before it. */
  method InsertInPlace<T>(a: array<T>, n: nat, less: (T, T) -> bool)
    requires n < a.Length
    modifies a
    ensures a[..n + 1] == InsertLast(old(a[..n]), old(a[n]), less)
    ensures a[n + 1..] == old(a[n + 1..])
  {
    ghost var s := a[..n];
    var x := a[n];
    var j := n;
    assert s[..n] == s && s[n..] == [] && InsertLast(s, x, less) + [] == InsertLast(s, x, less);
    while j > 0 && less(x, a[j - 1])
      invariant 0 <= j <= n
      invariant forall i :: 0 <= i < j ==> a[i] == s[i]
      invariant forall i :: j < i <= n ==> a[i] == s[i - 1]
      invariant forall i :: n < i < a.Length ==> a[i] == old(a[i])
      invariant InsertLast(s, x, less) == InsertLast(s[..j], x, less) + s[j..]
    {
      InsertLastStep(s, x, j, less);
      a[j] := a[j - 1];
      j := j - 1;
    }
    a[j] := x;
    InsertLastStop(s, x, j, less);
    assert a[..n + 1] == s[..j] + [x] + s[j..];
  }

  method SortInPlace<T>(a: array<T>, less: (T, T) -> bool)
    modifies a
    ensures a[..] == Sort(old(a[..]), less)
  {
    ghost var was := a[..];
    for n := 0 to a.Length
      invariant a[..n] == Sort(was[..n], less)
      invariant a[n..] == was[n..]
    {
      assert was[..n + 1][..n] == was[..n];
      assert a[n] == was[n] by { assert a[n..][0] == was[n..][0]; }
      assert a[n + 1..] == a[n..][1..] && was[n + 1..] == was[n..][1..];
      InsertInPlace(a, n, less);
    }
    assert a[..] == a[..a.Length] && was == was[..a.Length];
  }

  method CopyToArray<T>(s: seq<T>) returns (a: array<T>)
    ensures fresh(a) && a[..] == s
  {
    a := new T[|s|](i requires 0 <= i < |s| => s[i]);
  }

  // ---- strings ----------------------------------------------------------

  lemma StringLessIsOrder()
    ensures StrictWeakOrder(StringLess)
  {
    forall x ensures !StringLess(x, x) {
      StringLessIrreflexive(x);
    }
    forall x, y, z | StringLess(x, y) && StringLess(y, z) ensures StringLess(x, z) {
      StringLessTransitive(x, y, z);
    }
    forall x, y, z | !StringLess(x, y) && !StringLess(y, z) ensures !StringLess(x, z) {
      StringLessTotal(x, y);
      StringLessTotal(y, z);
      StringLessIrreflexive(y);
      if StringLess(x, z) {
        if StringLess(y, x) { StringLessTransitive(y, x, z); }
        assert false;
      }
    }
  }

  lemma StringsTieFree(s: seq<string>)
    ensures TieFree(s, StringLess)
  {
    forall x, y | x in s && y in s && x != y ensures StringLess(x, y) || StringLess(y, x) {
      StringLessTotal(x, y);
    }
  }

  /** `sort.Strings`. */
  function SortStrings(s: seq<string>): (r: seq<string>) {
    Sort(s, StringLess)
  }

  lemma SortStringsCorrect(s: seq<string>)
    ensures Sorted(SortStrings(s), StringLess)
    ensures multiset(SortStrings(s)) == multiset(s)
    ensures forall x :: x in SortStrings(s) <==> x in s
  {
    StringLessIsOrder();
    SortSorted(s, StringLess);
    SortContents(s, StringLess);
    SameElements(s, SortStrings(s));
  }

  lemma SortStringsOfPermutation(s: seq<string>, t: seq<string>)
    requires multiset(s) == multiset(t)
    ensures SortStrings(s) == SortStrings(t)
  {
    StringLessIsOrder();
    StringsTieFree(s);
    SortOfPermutation(s, t, StringLess);
  }
}
