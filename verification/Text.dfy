/** Results, options, and the parts of Go's `strings`, `strconv` and `unicode`
    packages that the admission controller relies on.

    A Go string that came out of a JSON document is valid UTF-8, and every
    delimiter the controller scans for is ASCII, so a sequence of Unicode scalar
    values has the same delimiters in the same order as the byte string. */
module Text {

  datatype Option<+T> = None | Some(value: T) {
    function GetOr(default: T): T {
      if Some? then value else default
    }
  }

  datatype Result<+T, +E> = Ok(value: T) | Err(error: E)

  /** `unicode.IsSpace`. */
  predicate IsSpace(c: char) {
    || '\t' <= c <= '\r'
    || c == ' '
    || c == '\U{85}'
    || c == '\U{A0}'
    || c == '\U{1680}'
    || '\U{2000}' <= c <= '\U{200a}'
    || c == '\U{2028}'
    || c == '\U{2029}'
    || c == '\U{202f}'
    || c == '\U{205f}'
    || c == '\U{3000}'
  }

  /** The characters that Unicode classifies as letters or digits. The classification
      tables are a parameter of the model; all that is known of them is that they hold
      no white space and no punctuation used by the path syntax. */
  type Alphabet = f: char -> bool
    | forall c :: f(c) ==> !IsSpace(c) && c !in ".[]*'\""
    witness (c => 'a' <= c <= 'z')

  function TrimLeft(s: string): string {
    if s != "" && IsSpace(s[0]) then TrimLeft(s[1..]) else s
  }

  function TrimRight(s: string): string {
    if s != "" && IsSpace(s[|s| - 1]) then TrimRight(s[..|s| - 1]) else s
  }

  /** `strings.TrimSpace`. */
  function TrimSpace(s: string): string {
    TrimRight(TrimLeft(s))
  }

  /** `strings.TrimRight(s, string(c))`. */
  function TrimRightChar(s: string, c: char): string {
    if s != "" && s[|s| - 1] == c then TrimRightChar(s[..|s| - 1], c) else s
  }

  /** Neither empty nor with white space at an end. */
  predicate Untrimmable(s: string) {
    s != "" && !IsSpace(s[0]) && !IsSpace(s[|s| - 1])
  }

  lemma TrimSpaceKeeps(s: string)
    requires s == "" || (!IsSpace(s[0]) && !IsSpace(s[|s| - 1]))
    ensures TrimSpace(s) == s
  {
  }

  /** Position of the first `c` at or after `from`, or the length of `s`. */
  function IndexOf(s: string, c: char, from: nat): (i: nat)
    requires from <= |s|
    ensures from <= i <= |s|
    ensures forall j :: from <= j < i ==> s[j] != c
    ensures i < |s| ==> s[i] == c
    decreases |s| - from
  {
    if from == |s| || s[from] == c then from else IndexOf(s, c, from + 1)
  }

  lemma IndexOfUnique(s: string, c: char, from: nat, i: nat)
    requires from <= i < |s|
    requires s[i] == c
    requires forall j :: from <= j < i ==> s[j] != c
    ensures IndexOf(s, c, from) == i
  {
  }

  /** ASCII case folding against a lower-case ASCII word. For the word "true" this is
      `strings.EqualFold`, since no other character folds to one of its letters. */
  predicate EqualsIgnoringCase(s: string, word: string) {
    && |s| == |word|
    && forall i :: 0 <= i < |s| ==>
         s[i] == word[i] || ('A' <= s[i] <= 'Z' && s[i] as int + 32 == word[i] as int)
  }

  predicate IsTrueText(s: string) {
    EqualsIgnoringCase(TrimSpace(s), "true")
  }

  // ---- decimal integers -------------------------------------------------

  const MIN_INT: int := -0x8000_0000_0000_0000
  const MAX_INT: int := 0x7fff_ffff_ffff_ffff

  predicate IsInt(n: int) {
    MIN_INT <= n <= MAX_INT
  }

  function DigitChar(d: int): (c: char)
    requires 0 <= d < 10
  {
    '0' + d as char
  }

  predicate IsDigit(c: char) {
    '0' <= c <= '9'
  }

  function Digits(n: nat): (s: string)
    ensures s != "" && forall i :: 0 <= i < |s| ==> IsDigit(s[i])
  {
    if n < 10 then [DigitChar(n)] else Digits(n / 10) + [DigitChar(n % 10)]
  }

  /** `%d`. */
  function Decimal(n: int): (s: string) {
    if n < 0 then "-" + Digits(-n) else Digits(n)
  }

  /** Value of a non-empty string of digits. */
  function DigitsValue(s: string): Option<nat> {
    if s == "" then None
    else if !IsDigit(s[|s| - 1]) then None
    else
      var last := s[|s| - 1] as int - '0' as int;
      if |s| == 1 then Some(last)
      else match DigitsValue(s[..|s| - 1])
        case None => None
        case Some(n) => Some(10 * n + last)
  }

  function Signed(negative: bool, digits: Option<nat>): Option<int> {
    match digits
    case None => None
    case Some(n) =>
      var m: int := n;
      var v := if negative then -m else m;
      if IsInt(v) then Some(v) else None
  }

  /** `strconv.Atoi` for a 64-bit `int`. */
  function Atoi(s: string): Option<int> {
    if s != "" && s[0] == '-' then Signed(true, DigitsValue(s[1..]))
    else if s != "" && s[0] == '+' then Signed(false, DigitsValue(s[1..]))
    else Signed(false, DigitsValue(s))
  }

  lemma {:induction false} DigitsValueOfDigits(n: nat)
    ensures DigitsValue(Digits(n)) == Some(n)
  {
    if n >= 10 {
      DigitsValueOfDigits(n / 10);
      var s := Digits(n);
      assert s[..|s| - 1] == Digits(n / 10);
    }
  }

  /** Parsing undoes printing exactly on the machine integers. */
  lemma AtoiDecimal(n: int)
    ensures Atoi(Decimal(n)) == if IsInt(n) then Some(n) else None
  {
    if n < 0 {
      DigitsValueOfDigits(-n);
      assert Decimal(n)[1..] == Digits(-n);
    } else {
      DigitsValueOfDigits(n);
    }
  }

  lemma DecimalChars(n: int)
    ensures Decimal(n) != ""
    ensures forall i :: 0 <= i < |Decimal(n)| ==> IsDigit(Decimal(n)[i]) || Decimal(n)[i] == '-'
  {
  }

  // ---- order on strings -------------------------------------------------

  /** Byte order on UTF-8 strings, which is the order on their scalar values. */
  predicate StringLess(a: string, b: string) {
    b != "" && (a == "" || a[0] < b[0] || (a[0] == b[0] && StringLess(a[1..], b[1..])))
  }

  lemma {:induction false} StringLessTransitive(a: string, b: string, c: string)
    requires StringLess(a, b) && StringLess(b, c)
    ensures StringLess(a, c)
  {
    if a != "" && a[0] == b[0] == c[0] {
      StringLessTransitive(a[1..], b[1..], c[1..]);
    }
  }

  lemma {:induction false} StringLessIrreflexive(a: string)
    ensures !StringLess(a, a)
  {
    if a != "" {
      StringLessIrreflexive(a[1..]);
    }
  }

  lemma {:induction false} StringLessTotal(a: string, b: string)
    ensures StringLess(a, b) || a == b || StringLess(b, a)
  {
    if a != "" && b != "" && a[0] == b[0] {
      StringLessTotal(a[1..], b[1..]);
      assert a == [a[0]] + a[1..];
      assert b == [b[0]] + b[1..];
    }
  }
}
