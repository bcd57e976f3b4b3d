/** The rule store, which owns every slice of every rule it holds: `pkg/rules/store.go`,
    and the search over a slice of rules in `pkg/rules/matcher.go`. */
module RuleStore {
  import opened Text
  import opened Sorting
  import opened Rules

  /** A rule as Go lays it out: a struct whose slices are shared until they are cloned. */
  datatype RuleStruct = RuleStruct(
    name: string,
    namespace: string,
    priority: int,
    mode: Mode,
    namespaces: array<string>,
    selectors: array<ResourceSelector>,
    labels: array<string>,
    exclude: array<string>,
    includes: array<string>,
    mutable: array<string>,
    users: array<string>,
    bypass: string)

  ghost function Slices(r: RuleStruct): set<object> {
    {r.namespaces as object, r.selectors as object, r.labels as object, r.exclude as object,
     r.includes as object, r.mutable as object, r.users as object}
  }

  /** The value a struct stands for at the moment. */
  ghost function ValueOf(r: RuleStruct): Rule
    reads Slices(r)
  {
    Rule(r.name, r.namespace, r.priority, r.mode,
         r.namespaces[..], r.selectors[..], r.labels[..], r.exclude[..], r.includes[..], r.mutable[..], r.users[..],
         r.bypass)
  }

  /** All slices of the rules lie in `repr`. */
  ghost predicate Owned(rules: seq<RuleStruct>, repr: set<object>) {
    forall r :: r in rules ==> Slices(r) <= repr
  }

  ghost function ValuesOf(rules: seq<RuleStruct>, repr: set<object>): (values: seq<Rule>)
    requires Owned(rules, repr)
    reads repr
    ensures |values| == |rules|
    ensures forall i :: 0 <= i < |rules| ==> values[i] == ValueOf(rules[i])
  {
    seq(|rules|, i requires 0 <= i < |rules| reads repr => ValueOf(rules[i]))
  }

  method CloneSlice<T>(s: array<T>) returns (c: array<T>)
    ensures fresh(c) && c[..] == s[..]
  {
    c := CopyToArray(s[..]);
  }

  method CloneRule(rule: RuleStruct) returns (cloned: RuleStruct)
    ensures fresh(Slices(cloned))
    ensures ValueOf(cloned) == ValueOf(rule)
  {
    cloned := rule;
    var namespaces := CloneSlice(rule.namespaces);
    cloned := cloned.(namespaces := namespaces);
    var selectors := CloneSlice(rule.selectors);
    cloned := cloned.(selectors := selectors);
    var labels := CloneSlice(rule.labels);
    cloned := cloned.(labels := labels);
    var exclude := CloneSlice(rule.exclude);
    cloned := cloned.(exclude := exclude);
    var includes := CloneSlice(rule.includes);
    cloned := cloned.(includes := includes);
    var mutable := CloneSlice(rule.mutable);
    cloned := cloned.(mutable := mutable);
    var users := CloneSlice(rule.users);
    cloned := cloned.(users := users);
  }

  /** Fresh copies of all rules, in order. */
  method CloneRules(rules: array<RuleStruct>, ghost repr: set<object>)
    returns (cloned: array<RuleStruct>, ghost own: set<object>)
    requires Owned(rules[..], repr)
    ensures fresh(cloned) && fresh(own) && cloned !in own
    ensures Owned(cloned[..], own) && ValuesOf(cloned[..], own) == ValuesOf(rules[..], repr)
  {
    ghost var values := ValuesOf(rules[..], repr);
    var copies: seq<RuleStruct> := [];
    own := {};
    for i := 0 to rules.Length
      invariant |copies| == i
      invariant fresh(own) && Owned(copies, own)
      invariant ValuesOf(copies, own) == values[..i]
    {
      assert ValueOf(rules[i]) == values[i] by { assert rules[..][i] == rules[i] && rules[..][i] in rules[..]; }
      var copy := CloneRule(rules[i]);
      copies := copies + [copy];
      own := own + Slices(copy);
      assert ValuesOf(copies, own) == values[..i] + [values[i]];
    }
    cloned := CopyToArray(copies);
  }

  // ---- order -----------------------------------------------------------------

  /** The callback of `sortRules`: it looks at no slice. */
  predicate StructBefore(l: RuleStruct, r: RuleStruct) {
    if l.priority != r.priority then l.priority > r.priority
    else if l.namespace != r.namespace then StringLess(l.namespace, r.namespace)
    else StringLess(l.name, r.name)
  }

  lemma {:induction false} InsertLastValues(s: seq<RuleStruct>, x: RuleStruct, repr: set<object>)
    requires Owned(s, repr) && Slices(x) <= repr
    ensures Owned(InsertLast(s, x, StructBefore), repr)
    ensures ValuesOf(InsertLast(s, x, StructBefore), repr) == InsertLast(ValuesOf(s, repr), ValueOf(x), RuleBefore)
  {
    if s != [] {
      var init := s[..|s| - 1];
      assert s[|s| - 1] in s;
      assert ValuesOf(init, repr) == ValuesOf(s, repr)[..|s| - 1];
      InsertLastValues(init, x, repr);
    }
  }

  /** Sorting structs sorts the rules they stand for. */
  lemma {:induction false} SortValues(s: seq<RuleStruct>, repr: set<object>)
    requires Owned(s, repr)
    ensures Owned(Sort(s, StructBefore), repr)
    ensures ValuesOf(Sort(s, StructBefore), repr) == SortRules(ValuesOf(s, repr))
  {
    if s != [] {
      var init := s[..|s| - 1];
      assert s[|s| - 1] in s;
      SortValues(init, repr);
      InsertLastValues(Sort(init, StructBefore), s[|s| - 1], repr);
      assert ValuesOf(init, repr) == ValuesOf(s, repr)[..|s| - 1];
    }
  }

  method SortRuleStructs(rules: array<RuleStruct>, ghost repr: set<object>)
    requires Owned(rules[..], repr) && rules !in repr
    modifies rules
    ensures Owned(rules[..], repr)
    ensures ValuesOf(rules[..], repr) == SortRules(old(ValuesOf(rules[..], repr)))
  {
    SortValues(rules[..], repr);
    SortInPlace(rules, StructBefore);
  }

  // ---- search ------------------------------------------------------------------

  method MatchRules(glob: Glob, rules: array<RuleStruct>, ghost repr: set<object>, input: MatchInput)
    returns (found: Option<RuleStruct>)
    requires Owned(rules[..], repr)
    ensures match Selected(glob, ValuesOf(rules[..], repr), input)
            case None => found.None?
            case Some(rule) => found.Some? && fresh(Slices(found.value)) && ValueOf(found.value) == rule
  {
    hide SortRules, FirstMatch, StructBefore;
    ghost var values := ValuesOf(rules[..], repr);
    var ordered := CopyToArray(rules[..]);
    SortRuleStructs(ordered, repr);
    assert ValuesOf(ordered[..], repr) == SortRules(values);
    var n := FirstMatching(glob, ordered[..], repr, input);
    if n == ordered.Length {
      return None;
    }
    var matched := CloneRule(ordered[n]);
    return Some(matched);
  }

  /** Position of the first matching rule, or the length of the list. */
  method FirstMatching(glob: Glob, ordered: seq<RuleStruct>, ghost repr: set<object>, input: MatchInput)
    returns (n: nat)
    requires Owned(ordered, repr)
    ensures n <= |ordered|
    ensures FirstMatch(glob, ValuesOf(ordered, repr), input)
         == if n == |ordered| then None else Some(ValueOf(ordered[n]))
  {
    n := 0;
    while n < |ordered|
      invariant n <= |ordered|
      invariant forall i :: 0 <= i < n ==> !RuleMatches(glob, ValueOf(ordered[i]), input)
    {
      var matched := StructMatches(glob, ordered[n], input);
      if matched {
        FirstMatchAt(glob, ValuesOf(ordered, repr), input, n);
        return;
      }
      n := n + 1;
    }
    FirstMatchAt(glob, ValuesOf(ordered, repr), input, n);
  }

  method StructMatches(glob: Glob, rule: RuleStruct, input: MatchInput) returns (matched: bool)
    ensures matched == RuleMatches(glob, ValueOf(rule), input)
  {
    matched := MatchesNamespace(glob, rule.namespaces, input.namespace);
    if !matched {
      return;
    }
    matched := MatchesSelector(rule.selectors, input.apiGroup, input.kind);
    if !matched {
      return;
    }
    matched := MatchesLabels(rule.labels, input.labels);
  }

  method SortedCopies(rules: array<RuleStruct>, ghost repr: set<object>)
    returns (cloned: array<RuleStruct>, ghost own: set<object>)
    requires Owned(rules[..], repr)
    ensures fresh(cloned) && fresh(own) && cloned !in own
    ensures Owned(cloned[..], own) && ValuesOf(cloned[..], own) == SortRules(ValuesOf(rules[..], repr))
    ensures Sorted(ValuesOf(cloned[..], own), RuleBefore)
  {
    ghost var values := ValuesOf(rules[..], repr);
    cloned, own := CloneRules(rules, repr);
    SortRuleStructs(cloned, own);
    RuleBeforeIsOrder();
    SortSorted(values, RuleBefore);
  }

  class Store {
    var rules: array<RuleStruct>
    /** The slices of the stored rules. */
    ghost var Repr: set<object>

    ghost predicate Valid()
      reads this, rules, Repr
    {
      && Owned(rules[..], Repr)
      && rules !in Repr && this !in Repr
      && Sorted(Contents(), RuleBefore)
    }

    ghost function Contents(): seq<Rule>
      requires Owned(rules[..], Repr)
      reads this, rules, Repr
    {
      ValuesOf(rules[..], Repr)
    }

    constructor ()
      ensures Valid() && fresh(rules) && fresh(Repr) && Contents() == []
    {
      rules := new RuleStruct[0];
      Repr := {};
    }

    /** Stores sorted copies; nothing the caller can reach is kept. */
    method Replace(given: array<RuleStruct>, ghost repr: set<object>)
      requires Owned(given[..], repr)
      modifies this
      ensures Valid() && fresh(rules) && fresh(Repr)
      ensures Contents() == SortRules(old(ValuesOf(given[..], repr)))
    {
      hide SortRules, Sorted;
      var cloned, own := SortedCopies(given, repr);
      rules, Repr := cloned, own;
    }

    method Snapshot() returns (snapshot: array<RuleStruct>, ghost own: set<object>)
      requires Valid()
      ensures fresh(snapshot) && fresh(own) && snapshot !in own
      ensures Owned(snapshot[..], own) && ValuesOf(snapshot[..], own) == Contents()
    {
      snapshot, own := CloneRules(rules, Repr);
    }

    /** The best matching rule, as a copy of the caller's own. */
    method Match(glob: Glob, input: MatchInput) returns (found: Option<RuleStruct>)
      requires Valid()
      ensures match Selected(glob, Contents(), input)
              case None => found.None?
              case Some(rule) => found.Some? && fresh(Slices(found.value)) && ValueOf(found.value) == rule
      ensures found.Some? ==>
                forall r :: r in Contents() && RuleMatches(glob, r, input) ==> RanksFirst(ValueOf(found.value), r)
    {
      hide RuleMatches, RanksFirst, Selected;
      SelectedRanksFirst(glob, Contents(), input);
      var snapshot, own := Snapshot();
      found := MatchRules(glob, snapshot, own, input);
    }
  }
}
