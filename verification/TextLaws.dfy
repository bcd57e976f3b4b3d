/** What the text functions mean, said in terms of positions. */
module TextLaws {
  import opened Text

  // ---- white space ---------------------------------------------------------------------

  predicate AllSpace(s: string) {
    forall k :: 0 <= k < |s| ==> IsSpace(s[k])
  }

  /** `t` is what is left of `s` without the white space at both ends. */
  ghost predicate Trims(s: string, t: string) {
    && (t == "" || Untrimmable(t))
    && exists i, j :: 0 <= i <= j <= |s| && s[i..j] == t && AllSpace(s[..i]) && AllSpace(s[j..])
  }

  lemma {:induction false} TrimLeftParts(s: string) returns (i: nat)
    ensures i <= |s| && TrimLeft(s) == s[i..] && AllSpace(s[..i]) && (i < |s| ==> !IsSpace(s[i]))
  {
    if s != "" && IsSpace(s[0]) {
      var rest := TrimLeftParts(s[1..]);
      i := rest + 1;
      forall k | 0 <= k < i ensures IsSpace(s[..i][k]) {
        assert k > 0 ==> s[k] == s[1..][..rest][k - 1];
      }
    } else {
      i := 0;
    }
  }

  lemma {:induction false} TrimRightParts(s: string) returns (j: nat)
    ensures j <= |s| && TrimRight(s) == s[..j] && AllSpace(s[j..]) && (j > 0 ==> !IsSpace(s[j - 1]))
  {
    if s != "" && IsSpace(s[|s| - 1]) {
      var init := s[..|s| - 1];
      j := TrimRightParts(init);
      forall k | 0 <= k < |s[j..]| ensures IsSpace(s[j..][k]) {
        assert k < |init| - j ==> s[j + k] == init[j..][k];
      }
    } else {
      j := |s|;
    }
  }

  lemma TrimSpaceTrims(s: string)
    ensures Trims(s, TrimSpace(s))
  {
    var i := TrimLeftParts(s);
    var j := TrimRightParts(s[i..]);
    var t := TrimSpace(s);
    assert t == s[i..i + j];
    assert s[i + j..] == s[i..][j..];
    if t != "" {
      assert t[0] == s[i] && t[|t| - 1] == s[i..][j - 1];
    }
  }

  lemma TrimmedPart(s: string, t: string) returns (i: nat, j: nat)
    requires Trims(s, t)
    ensures i <= j <= |s| && s[i..j] == t
    ensures forall n :: 0 <= n < i || j <= n < |s| ==> IsSpace(s[n])
    ensures t != "" ==> !IsSpace(s[i]) && !IsSpace(s[j - 1])
  {
    hide IsSpace;
    i, j :| 0 <= i <= j <= |s| && s[i..j] == t && AllSpace(s[..i]) && AllSpace(s[j..]);
    forall n | 0 <= n < i ensures IsSpace(s[n]) {
      assert s[..i][n] == s[n];
    }
    forall n | j <= n < |s| ensures IsSpace(s[n]) {
      assert s[j..][n - j] == s[n];
    }
    assert t != "" ==> t[0] == s[i] && t[|t| - 1] == s[j - 1];
  }

  /** There is only one such text. */
  lemma TrimsUnique(s: string, t: string, u: string)
    requires Trims(s, t) && Trims(s, u)
    ensures t == u
  {
    hide Trims, IsSpace;
    var i, j := TrimmedPart(s, t);
    var k, l := TrimmedPart(s, u);
    if t != "" && u != "" {
      assert i == k && j == l;
    }
  }

  /** `TrimSpace` removes the white space at both ends, and nothing else. */
  lemma TrimSpaceExact(s: string, t: string)
    ensures TrimSpace(s) == t <==> Trims(s, t)
  {
    TrimSpaceTrims(s);
    if Trims(s, t) {
      TrimsUnique(s, t, TrimSpace(s));
    }
  }

  // ---- the word true ---------------------------------------------------------------------

  /** White space, the four letters in either case, white space. */
  ghost predicate SaysTrue(s: string) {
    exists i :: 0 <= i <= |s| - 4 && TrueAt(s, i) && AllSpace(s[..i]) && AllSpace(s[i + 4..])
  }

  predicate TrueAt(s: string, i: int)
    requires 0 <= i <= |s| - 4
  {
    s[i] in "tT" && s[i + 1] in "rR" && s[i + 2] in "uU" && s[i + 3] in "eE"
  }

  lemma FourLetters(w: string)
    requires |w| == 4
    ensures EqualsIgnoringCase(w, "true") <==> TrueAt(w, 0)
    ensures TrueAt(w, 0) ==> Untrimmable(w)
  {
  }

  lemma IsTrueTextExact(s: string)
    ensures IsTrueText(s) <==> SaysTrue(s)
  {
    hide TrimSpace, IsSpace;
    var t := TrimSpace(s);
    TrimSpaceTrims(s);
    if IsTrueText(s) {
      var i, j :| 0 <= i <= j <= |s| && s[i..j] == t && AllSpace(s[..i]) && AllSpace(s[j..]);
      FourLetters(t);
      assert forall k :: 0 <= k < 4 ==> t[k] == s[i + k];
      assert TrueAt(s, i);
    }
    if SaysTrue(s) {
      var i :| 0 <= i <= |s| - 4 && TrueAt(s, i) && AllSpace(s[..i]) && AllSpace(s[i + 4..]);
      var w := s[i..i + 4];
      assert forall k :: 0 <= k < 4 ==> w[k] == s[i + k];
      FourLetters(w);
      TrimSpaceExact(s, w);
    }
  }

  // ---- order ---------------------------------------------------------------------------------

  /** After a common beginning the first text ends, or has the smaller character. */
  ghost predicate Before(a: string, b: string) {
    exists n :: 0 <= n <= |a| && n < |b| && a[..n] == b[..n] && (n == |a| || a[n] < b[n])
  }

  lemma {:induction false} StringLessExact(a: string, b: string)
    ensures StringLess(a, b) <==> Before(a, b)
  {
    if a != "" && b != "" && a[0] == b[0] {
      StringLessExact(a[1..], b[1..]);
      if Before(a[1..], b[1..]) {
        var n :| 0 <= n <= |a[1..]| && n < |b[1..]| && a[1..][..n] == b[1..][..n]
          && (n == |a[1..]| || a[1..][n] < b[1..][n]);
        assert a[..n + 1] == [a[0]] + a[1..][..n] && b[..n + 1] == [b[0]] + b[1..][..n];
      }
      if Before(a, b) {
        var n :| 0 <= n <= |a| && n < |b| && a[..n] == b[..n] && (n == |a| || a[n] < b[n]);
        assert a[1..][..n - 1] == a[..n][1..] && b[1..][..n - 1] == b[..n][1..];
      }
    } else {
      if StringLess(a, b) {
        assert a[..0] == b[..0];
      }
      if Before(a, b) {
        var n :| 0 <= n <= |a| && n < |b| && a[..n] == b[..n] && (n == |a| || a[n] < b[n]);
        assert n > 0 ==> a[..n][0] == b[..n][0];
      }
    }
  }

  // ---- numbers ---------------------------------------------------------------------------------

  predicate AllDigits(s: string) {
    s != "" && forall k :: 0 <= k < |s| ==> IsDigit(s[k])
  }

  /** The value of digits, each counting for its power of ten. */
  function Weighed(s: string, n: nat): (value: int)
    requires n <= |s| && forall k :: 0 <= k < |s| ==> IsDigit(s[k])
    ensures value >= 0
  {
    if n == 0 then 0 else 10 * Weighed(s, n - 1) + (s[n - 1] as int - '0' as int)
  }

  lemma {:induction false} WeighedPrefix(s: string, t: string, n: nat)
    requires n <= |s| && s <= t && forall k :: 0 <= k < |t| ==> IsDigit(t[k])
    ensures Weighed(s, n) == Weighed(t, n)
  {
    if n > 0 {
      WeighedPrefix(s, t, n - 1);
    }
  }

  lemma {:induction false} DigitsValueExact(s: string)
    ensures DigitsValue(s) == if AllDigits(s) then Some(Weighed(s, |s|)) else None
  {
    if s != "" {
      var init := s[..|s| - 1];
      DigitsValueExact(init);
      if AllDigits(s) {
        assert init != "" ==> AllDigits(init);
        WeighedPrefix(init, s, |init|);
      } else if IsDigit(s[|s| - 1]) {
        assert !AllDigits(init) || init == "";
        assert init == "" ==> AllDigits(s);
      }
    }
  }

  /** An optional sign and then digits only, with a value that fits: nothing else is a number. */
  lemma AtoiExact(s: string, n: int)
    ensures Atoi(s) == Some(n) <==>
              var signed := s != "" && s[0] in "+-";
              var digits := if signed then s[1..] else s;
              && IsInt(n) && AllDigits(digits)
              && n == if signed && s[0] == '-' then -Weighed(digits, |digits|) else Weighed(digits, |digits|)
  {
    DigitsValueExact(s);
    if s != "" {
      DigitsValueExact(s[1..]);
      if s[0] in "+-" {
        assert !IsDigit(s[0]);
      }
    }
  }
}
