/** Rules, their order and their selection: `pkg/rules/types.go`, `pkg/rules/matcher.go`. */
module Rules {
  import opened Text
  import opened Sorting

  const RULE_ANNOTATION_KEY := "drift-sentinel.k8s.io/rule"
  const DEFAULT_BYPASS_ANNOTATION := "drift-sentinel.k8s.io/bypass"
  const NAMESPACE_MODE_ANNOTATION := "drift-sentinel.k8s.io/mode"

  type Mode = string
  const MODE_ENFORCE: Mode := "enforce"
  const MODE_WARN: Mode := "warn"
  const MODE_DRY_RUN: Mode := "dry-run"
  const MODE_OFF: Mode := "off"

  predicate IsValidMode(mode: Mode) {
    mode == MODE_ENFORCE || mode == MODE_WARN || mode == MODE_DRY_RUN || mode == MODE_OFF
  }

  datatype ResourceSelector = ResourceSelector(apiGroup: string, kind: string)

  /** A rule as a value. */
  datatype Rule = Rule(
    name: string,
    namespace: string,
    priority: int,
    mode: Mode,
    namespaces: seq<string>,
    selectors: seq<ResourceSelector>,
    labels: seq<string>,
    exclude: seq<string>,
    includes: seq<string>,
    mutable: seq<string>,
    users: seq<string>,
    bypass: string)

  datatype MatchInput = MatchInput(namespace: string, apiGroup: string, kind: string, labels: map<string, string>)

  /** `path.Match`: whether a glob pattern matches a name; None for a malformed pattern. */
  type Glob = (string, string) -> Option<bool>

  // ---- order ---------------------------------------------------------------

  /** Higher priority first, then namespace, then name. */
  predicate RuleBefore(l: Rule, r: Rule) {
    if l.priority != r.priority then l.priority > r.priority
    else if l.namespace != r.namespace then StringLess(l.namespace, r.namespace)
    else StringLess(l.name, r.name)
  }

  lemma RuleBeforeIsOrder()
    ensures StrictWeakOrder(RuleBefore)
  {
    StringLessIsOrder();
    forall x, y, z | RuleBefore(x, y) && RuleBefore(y, z) ensures RuleBefore(x, z) {
      StringLessIrreflexive(x.namespace);
    }
    forall x, y, z | !RuleBefore(x, y) && !RuleBefore(y, z) ensures !RuleBefore(x, z) {
      StringLessTotal(x.namespace, y.namespace);
      StringLessTotal(y.namespace, z.namespace);
    }
  }

  /** No two different rules come from one ConfigMap name. */
  ghost predicate UniqueNames(rules: seq<Rule>) {
    forall l, r :: l in rules && r in rules && l.namespace == r.namespace && l.name == r.name ==> l == r
  }

  lemma UniqueNamesTieFree(rules: seq<Rule>)
    requires UniqueNames(rules)
    ensures TieFree(rules, RuleBefore)
  {
    forall l, r | l in rules && r in rules && l != r ensures RuleBefore(l, r) || RuleBefore(r, l) {
      StringLessTotal(l.namespace, r.namespace);
      StringLessTotal(l.name, r.name);
    }
  }

  function SortRules(rules: seq<Rule>): seq<Rule> {
    Sort(rules, RuleBefore)
  }

  // ---- what a rule matches --------------------------------------------------

  predicate NamespaceMatches(glob: Glob, patterns: seq<string>, namespace: string) {
    exists i :: 0 <= i < |patterns| && glob(patterns[i], namespace) == Some(true)
  }

  predicate SelectorMatches(selectors: seq<ResourceSelector>, apiGroup: string, kind: string) {
    ResourceSelector(apiGroup, kind) in selectors
  }

  /** `strings.Cut(selector, "=")`, with both halves trimmed: a key, and a value if there
      was a separator. */
  function CutSelector(selector: string): (string, Option<string>) {
    var i := IndexOf(selector, '=', 0);
    if i == |selector| then (TrimSpace(selector), None)
    else (TrimSpace(selector[..i]), Some(TrimSpace(selector[i + 1..])))
  }

  /** One label selector: `key` asks for presence, `key=value` for that value. */
  predicate LabelMatches(selector: string, labels: map<string, string>) {
    var (key, value) := CutSelector(selector);
    key != "" && key in labels && (value.Some? ==> labels[key] == value.value)
  }

  predicate LabelsMatch(selectors: seq<string>, labels: map<string, string>) {
    forall i :: 0 <= i < |selectors| ==> LabelMatches(selectors[i], labels)
  }

  predicate RuleMatches(glob: Glob, rule: Rule, input: MatchInput) {
    && NamespaceMatches(glob, rule.namespaces, input.namespace)
    && SelectorMatches(rule.selectors, input.apiGroup, input.kind)
    && LabelsMatch(rule.labels, input.labels)
  }

  /** The first matching rule of an ordered list. */
  function FirstMatch(glob: Glob, ordered: seq<Rule>, input: MatchInput): Option<Rule> {
    if ordered == [] then None
    else if RuleMatches(glob, ordered[0], input) then Some(ordered[0])
    else FirstMatch(glob, ordered[1..], input)
  }

  function Selected(glob: Glob, rules: seq<Rule>, input: MatchInput): Option<Rule> {
    FirstMatch(glob, SortRules(rules), input)
  }

  lemma {:induction false} FirstMatchPosition(glob: Glob, ordered: seq<Rule>, input: MatchInput) returns (n: nat)
    ensures n <= |ordered|
    ensures forall i :: 0 <= i < n ==> !RuleMatches(glob, ordered[i], input)
    ensures FirstMatch(glob, ordered, input) == if n == |ordered| then None else Some(ordered[n])
    ensures n < |ordered| ==> RuleMatches(glob, ordered[n], input)
  {
    if ordered == [] || RuleMatches(glob, ordered[0], input) {
      n := 0;
    } else {
      var rest := FirstMatchPosition(glob, ordered[1..], input);
      n := rest + 1;
      forall i | 0 <= i < n ensures !RuleMatches(glob, ordered[i], input) {
        if i > 0 {
          assert ordered[i] == ordered[1..][i - 1];
        }
      }
    }
  }

  lemma {:induction false} FirstMatchAt(glob: Glob, ordered: seq<Rule>, input: MatchInput, n: nat)
    requires n <= |ordered|
    requires forall i :: 0 <= i < n ==> !RuleMatches(glob, ordered[i], input)
    requires n < |ordered| ==> RuleMatches(glob, ordered[n], input)
    ensures FirstMatch(glob, ordered, input) == if n == |ordered| then None else Some(ordered[n])
  {
    if n > 0 {
      FirstMatchAt(glob, ordered[1..], input, n - 1);
    }
  }

  /** The selected rule matches and no other matching rule comes before it; none is
      selected iff none matches. */
  lemma SelectedIsBest(glob: Glob, rules: seq<Rule>, input: MatchInput)
    ensures var s := Selected(glob, rules, input);
            && (s.None? <==> forall r :: r in rules ==> !RuleMatches(glob, r, input))
            && (s.Some? ==>
                  && s.value in rules && RuleMatches(glob, s.value, input)
                  && (forall r :: r in rules && RuleMatches(glob, r, input) ==> !RuleBefore(r, s.value))
                  && (UniqueNames(rules) ==>
                        forall r :: r in rules && RuleMatches(glob, r, input) && r != s.value ==>
                          RuleBefore(s.value, r)))
  {
    var ordered := SortRules(rules);
    RuleBeforeIsOrder();
    SortSorted(rules, RuleBefore);
    SortContents(rules, RuleBefore);
    SameElements(rules, ordered);
    var n := FirstMatchPosition(glob, ordered, input);
    forall r | r in rules && RuleMatches(glob, r, input)
      ensures n < |ordered| && !RuleBefore(r, ordered[n])
      ensures UniqueNames(rules) && r != ordered[n] ==> RuleBefore(ordered[n], r)
    {
      var i :| 0 <= i < |ordered| && ordered[i] == r;
      assert ordered[n] in rules;
      if UniqueNames(rules) {
        UniqueNamesTieFree(rules);
      }
    }
  }

  /** `s` has the higher priority, or the same and not the later namespace, or the same of
      both and not the later name. */
  predicate RanksFirst(s: Rule, r: Rule) {
    && r.priority <= s.priority
    && (r.priority == s.priority ==> !StringLess(r.namespace, s.namespace))
    && (r.priority == s.priority && r.namespace == s.namespace ==> !StringLess(r.name, s.name))
  }

  /** A higher priority wins; then the earlier namespace, then the earlier name. */
  lemma SelectedRanksFirst(glob: Glob, rules: seq<Rule>, input: MatchInput)
    ensures var s := Selected(glob, rules, input);
            s.Some? ==> forall r :: r in rules && RuleMatches(glob, r, input) ==> RanksFirst(s.value, r)
  {
    hide RuleMatches, Selected, RuleBefore, RanksFirst;
    SelectedIsBest(glob, rules, input);
    var s := Selected(glob, rules, input);
    if s.Some? {
      forall r | r in rules && RuleMatches(glob, r, input) ensures RanksFirst(s.value, r) {
        NotBefore(s.value, r);
      }
    }
  }

  lemma NotBefore(s: Rule, r: Rule)
    requires !RuleBefore(r, s)
    ensures RanksFirst(s, r)
  {
    hide StringLess;
    StringLessIrreflexive(r.namespace);
  }

  /** With unique names neither the stored order nor the choice depends on the order in
      which the rules were listed. */
  lemma ChoiceIgnoresListing(glob: Glob, rules: seq<Rule>, listed: seq<Rule>, input: MatchInput)
    requires multiset(rules) == multiset(listed) && UniqueNames(rules)
    ensures SortRules(rules) == SortRules(listed)
    ensures Selected(glob, rules, input) == Selected(glob, listed, input)
  {
    RuleBeforeIsOrder();
    UniqueNamesTieFree(rules);
    SortOfPermutation(rules, listed, RuleBefore);
  }

  /** Sorting a stored, sorted list again changes nothing. */
  lemma ResortIsIdentity(rules: seq<Rule>)
    ensures SortRules(SortRules(rules)) == SortRules(rules)
  {
    RuleBeforeIsOrder();
    SortSorted(rules, RuleBefore);
    SortOfSorted(SortRules(rules), RuleBefore);
  }

  // ---- the searches -----------------------------------------------------------

  method MatchesNamespace(glob: Glob, patterns: array<string>, namespace: string) returns (matched: bool)
    ensures matched == NamespaceMatches(glob, patterns[..], namespace)
  {
    for i := 0 to patterns.Length
      invariant forall j :: 0 <= j < i ==> glob(patterns[j], namespace) != Some(true)
    {
      var outcome := glob(patterns[i], namespace);
      if outcome.Some? && outcome.value {
        assert patterns[..][i] == patterns[i];
        return true;
      }
    }
    return false;
  }

  method MatchesSelector(selectors: array<ResourceSelector>, apiGroup: string, kind: string) returns (matched: bool)
    ensures matched == SelectorMatches(selectors[..], apiGroup, kind)
  {
    for i := 0 to selectors.Length
      invariant ResourceSelector(apiGroup, kind) !in selectors[..i]
    {
      var selector := selectors[i];
      if selector.apiGroup == apiGroup && selector.kind == kind {
        assert selectors[..][i] == selector;
        return true;
      }
      assert selectors[..i + 1] == selectors[..i] + [selector];
    }
    assert selectors[..selectors.Length] == selectors[..];
    return false;
  }

  method MatchesLabels(selectors: array<string>, labels: map<string, string>) returns (matched: bool)
    ensures matched == LabelsMatch(selectors[..], labels)
  {
    if selectors.Length == 0 {
      return true;
    }
    for i := 0 to selectors.Length
      invariant forall j :: 0 <= j < i ==> LabelMatches(selectors[j], labels)
    {
      var selector := selectors[i];
      assert selectors[..][i] == selector;
      var cut := IndexOf(selector, '=', 0);
      var hasValue := cut < |selector|;
      var key := TrimSpace(selector[..cut]);
      assert !hasValue ==> selector[..cut] == selector;
      if key == "" {
        return false;
      }
      if key !in labels {
        return false;
      }
      if hasValue && labels[key] != TrimSpace(selector[cut + 1..]) {
        return false;
      }
    }
    return true;
  }
}
