/** What a rule matches, said in terms of its texts. */
module RuleLaws {
  import opened Text
  import opened TextLaws
  import opened Rules

  /** The namespace is globbed by one of the patterns. */
  ghost predicate Globbed(glob: Glob, patterns: seq<string>, namespace: string) {
    exists p :: p in patterns && glob(p, namespace) == Some(true)
  }

  /** One of the selectors names the group and the kind. */
  predicate Selects(selectors: seq<ResourceSelector>, apiGroup: string, kind: string) {
    exists s :: s in selectors && s.apiGroup == apiGroup && s.kind == kind
  }

  /** What a label selector asks for: a key without an equals sign asks for presence, a key
      and a value around the first one for that value, white space aside. */
  ghost predicate Asks(selector: string, key: string, value: Option<string>) {
    match value
    case None => '=' !in selector && Trims(selector, key)
    case Some(v) =>
      exists i :: 0 <= i < |selector| && selector[i] == '=' && '=' !in selector[..i]
                  && Trims(selector[..i], key) && Trims(selector[i + 1..], v)
  }

  predicate HasLabel(labels: map<string, string>, key: string, value: Option<string>) {
    key != "" && key in labels && (value.Some? ==> labels[key] == value.value)
  }

  /** Every selector asks for exactly one key, with or without a value. */
  lemma CutSelectorAsks(selector: string)
    ensures var (key, value) := CutSelector(selector); Asks(selector, key, value)
  {
    var i := IndexOf(selector, '=', 0);
    if i == |selector| {
      TrimSpaceTrims(selector);
    } else {
      TrimSpaceTrims(selector[..i]);
      TrimSpaceTrims(selector[i + 1..]);
      assert '=' !in selector[..i];
    }
  }

  lemma AsksUnique(selector: string, key: string, value: Option<string>)
    requires Asks(selector, key, value)
    ensures CutSelector(selector) == (key, value)
  {
    hide TrimSpace, Trims;
    match value
    case None =>
      assert IndexOf(selector, '=', 0) == |selector|;
      TrimSpaceExact(selector, key);
    case Some(v) =>
      var i :| 0 <= i < |selector| && selector[i] == '=' && '=' !in selector[..i]
        && Trims(selector[..i], key) && Trims(selector[i + 1..], v);
      forall j | 0 <= j < i ensures selector[j] != '=' {
        assert selector[j] == selector[..i][j];
      }
      IndexOfUnique(selector, '=', 0, i);
      TrimSpaceExact(selector[..i], key);
      TrimSpaceExact(selector[i + 1..], v);
  }

  /** A label selector holds iff what it asks for is there. */
  lemma LabelMatchesExact(selector: string, labels: map<string, string>, key: string, value: Option<string>)
    requires Asks(selector, key, value)
    ensures LabelMatches(selector, labels) <==> HasLabel(labels, key, value)
  {
    hide CutSelector;
    AsksUnique(selector, key, value);
  }

  /** What a selector asks for is there. */
  ghost predicate Met(selector: string, labels: map<string, string>) {
    exists key, value :: Asks(selector, key, value) && HasLabel(labels, key, value)
  }

  lemma MetExact(selector: string, labels: map<string, string>)
    ensures LabelMatches(selector, labels) <==> Met(selector, labels)
  {
    hide CutSelector, Asks;
    var (key, value) := CutSelector(selector);
    CutSelectorAsks(selector);
    LabelMatchesExact(selector, labels, key, value);
    if Met(selector, labels) {
      var k, v :| Asks(selector, k, v) && HasLabel(labels, k, v);
      LabelMatchesExact(selector, labels, k, v);
    }
  }

  /** A rule covers a request: its namespace, its group and kind, and all labels it asks for. */
  ghost predicate Covers(glob: Glob, rule: Rule, input: MatchInput) {
    && Globbed(glob, rule.namespaces, input.namespace)
    && Selects(rule.selectors, input.apiGroup, input.kind)
    && forall selector :: selector in rule.labels ==> Met(selector, input.labels)
  }

  lemma RuleMatchesExact(glob: Glob, rule: Rule, input: MatchInput)
    ensures RuleMatches(glob, rule, input) <==> Covers(glob, rule, input)
  {
    hide LabelMatches, Met;
    NamespaceMatchesExact(glob, rule.namespaces, input.namespace);
    SelectorMatchesExact(rule.selectors, input.apiGroup, input.kind);
    forall selector ensures LabelMatches(selector, input.labels) <==> Met(selector, input.labels) {
      MetExact(selector, input.labels);
    }
    if Covers(glob, rule, input) {
      forall i | 0 <= i < |rule.labels| ensures LabelMatches(rule.labels[i], input.labels) {
        assert rule.labels[i] in rule.labels;
      }
    }
  }

  lemma NamespaceMatchesExact(glob: Glob, patterns: seq<string>, namespace: string)
    ensures NamespaceMatches(glob, patterns, namespace) <==> Globbed(glob, patterns, namespace)
  {
    if NamespaceMatches(glob, patterns, namespace) {
      var i :| 0 <= i < |patterns| && glob(patterns[i], namespace) == Some(true);
      assert patterns[i] in patterns;
    }
  }

  lemma SelectorMatchesExact(selectors: seq<ResourceSelector>, apiGroup: string, kind: string)
    ensures SelectorMatches(selectors, apiGroup, kind) <==> Selects(selectors, apiGroup, kind)
  {
  }

  /** The selected rule covers the request and ranks first among those that do; none is
      selected iff none covers it. */
  lemma SelectedCovers(glob: Glob, rules: seq<Rule>, input: MatchInput)
    ensures match Selected(glob, rules, input)
            case None => forall r :: r in rules ==> !Covers(glob, r, input)
            case Some(s) =>
              && s in rules && Covers(glob, s, input)
              && forall r :: r in rules && Covers(glob, r, input) ==> RanksFirst(s, r)
  {
    hide RuleMatches, Covers, Selected, RanksFirst, RuleBefore;
    SelectedIsBest(glob, rules, input);
    SelectedRanksFirst(glob, rules, input);
    forall r ensures RuleMatches(glob, r, input) <==> Covers(glob, r, input) {
      RuleMatchesExact(glob, r, input);
    }
  }
}
