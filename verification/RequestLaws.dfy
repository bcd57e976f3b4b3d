/** What holds of one rule, for whole requests and all stored rules. */
module RequestLaws {
  import opened Text
  import opened Sorting
  import opened Paths
  import opened Rules
  import opened Admission
  import opened ScopeLaws
  import opened DriftExact
  import opened DecisionLaws

  // ---- changes that selection does not see ---------------------------------------------------

  /** A change of rules that touches neither their order nor what they match. */
  ghost predicate KeepsSelection(glob: Glob, change: Rule -> Rule) {
    && (forall l, r :: RuleBefore(change(l), change(r)) <==> RuleBefore(l, r))
    && (forall r, input :: RuleMatches(glob, change(r), input) <==> RuleMatches(glob, r, input))
  }

  function Mapped(stored: seq<Rule>, change: Rule -> Rule): (rules: seq<Rule>)
    ensures |rules| == |stored|
  {
    seq(|stored|, i requires 0 <= i < |stored| => change(stored[i]))
  }

  lemma MappedSnoc(init: seq<Rule>, last: Rule, change: Rule -> Rule)
    ensures Mapped(init + [last], change) == Mapped(init, change) + [change(last)]
  {
  }

  lemma {:induction false} InsertMapped(glob: Glob, s: seq<Rule>, x: Rule, change: Rule -> Rule)
    requires KeepsSelection(glob, change)
    ensures InsertLast(Mapped(s, change), change(x), RuleBefore) == Mapped(InsertLast(s, x, RuleBefore), change)
  {
    hide RuleBefore, RuleMatches;
    if s == [] || !RuleBefore(x, s[|s| - 1]) {
      MappedSnoc(s, x, change);
    } else {
      var init, last := s[..|s| - 1], s[|s| - 1];
      InsertMapped(glob, init, x, change);
      assert s == init + [last];
      MappedSnoc(init, last, change);
      MappedSnoc(InsertLast(init, x, RuleBefore), last, change);
      assert Mapped(s, change)[..|s| - 1] == Mapped(init, change);
    }
  }

  lemma {:induction false} SortMapped(glob: Glob, s: seq<Rule>, change: Rule -> Rule)
    requires KeepsSelection(glob, change)
    ensures SortRules(Mapped(s, change)) == Mapped(SortRules(s), change)
  {
    hide KeepsSelection;
    if s != [] {
      var init, last := s[..|s| - 1], s[|s| - 1];
      SortMapped(glob, init, change);
      InsertMapped(glob, SortRules(init), last, change);
      assert s == init + [last];
      MappedSnoc(init, last, change);
      assert Mapped(s, change)[..|s| - 1] == Mapped(init, change);
    }
  }

  function Changed(selected: Option<Rule>, change: Rule -> Rule): Option<Rule> {
    match selected
    case None => None
    case Some(r) => Some(change(r))
  }

  lemma {:induction false} FirstMapped(glob: Glob, ordered: seq<Rule>, input: MatchInput, change: Rule -> Rule)
    requires KeepsSelection(glob, change)
    ensures FirstMatch(glob, Mapped(ordered, change), input) == Changed(FirstMatch(glob, ordered, input), change)
  {
    hide RuleBefore, RuleMatches;
    if ordered != [] && !RuleMatches(glob, ordered[0], input) {
      FirstMapped(glob, ordered[1..], input, change);
      assert Mapped(ordered, change)[1..] == Mapped(ordered[1..], change);
    }
  }

  /** The same rule is selected, as changed. */
  lemma SelectedMapped(glob: Glob, stored: seq<Rule>, input: MatchInput, change: Rule -> Rule)
    requires KeepsSelection(glob, change)
    ensures Selected(glob, Mapped(stored, change), input) == Changed(Selected(glob, stored, input), change)
  {
    SortMapped(glob, stored, change);
    FirstMapped(glob, SortRules(stored), input, change);
  }

  lemma CaseMapped(env: Environment, stored: seq<Rule>, req: Request, change: Rule -> Rule)
    requires KeepsSelection(env.glob, change)
    ensures CaseOf(env, Mapped(stored, change), req)
         == match CaseOf(env, stored, req) case None => None case Some(c) => Some(c.(rule := change(c.rule)))
  {
    hide Selected, Labels, KeepsSelection, Mapped;
    if Decoded(req.newObject).Some? {
      SelectedMapped(env.glob, stored, InputOf(req, Decoded(req.newObject).value), change);
    }
  }

  // ---- another mutable list for one rule ---------------------------------------------------------

  function Relisted(r: Rule, rule: Rule, mutable: seq<string>): Rule {
    if r == rule then r.(mutable := mutable) else r
  }

  function Relisting(rule: Rule, mutable: seq<string>): Rule -> Rule {
    r => Relisted(r, rule, mutable)
  }

  /** The stored rules with another mutable list for one of them. */
  function RelistedAll(stored: seq<Rule>, rule: Rule, mutable: seq<string>): seq<Rule> {
    Mapped(stored, Relisting(rule, mutable))
  }

  lemma RelistingKeeps(glob: Glob, rule: Rule, mutable: seq<string>)
    ensures KeepsSelection(glob, Relisting(rule, mutable))
    ensures Relisting(rule, mutable)(rule) == rule.(mutable := mutable)
  {
    hide NamespaceMatches, SelectorMatches, LabelsMatch, StringLess;
  }

  // ---- implicit excludes ---------------------------------------------------------------------------

  /** The rule without the implicit excludes it repeats. */
  function Plain(r: Rule): Rule {
    r.(exclude := WithoutImplicit(r.exclude))
  }

  lemma PlainKeeps(glob: Glob)
    ensures KeepsSelection(glob, Plain)
  {
    hide NamespaceMatches, SelectorMatches, LabelsMatch, StringLess, WithoutImplicit;
  }

  /** A whole rule set decides every request as if none of its rules repeated an implicit
      exclude. */
  lemma ImplicitExcludesRedundant(env: Environment, stored: seq<Rule>, req: Request)
    ensures Decide(env, Mapped(stored, Plain), req) == Decide(env, stored, req)
  {
    hide DecideUnderRule, Selected, Labels, Mapped, WithoutImplicit, KeepsSelection;
    PlainKeeps(env.glob);
    if Decoded(req.oldObject).Some? && Decoded(req.newObject).Some? {
      var oldObj, newObj := Decoded(req.oldObject).value, Decoded(req.newObject).value;
      var input := InputOf(req, newObj);
      SelectedMapped(env.glob, stored, input, Plain);
      var selected := Selected(env.glob, stored, input);
      if selected.Some? {
        DefaultExcludesRedundant(env, selected.value, req, oldObj, newObj);
      }
    }
  }

  // ---- reports and bypass removal ------------------------------------------------------------------

  /** Every path that an answer reports is the text of a position in the scope of the rule
      selected for the request. */
  lemma AnswersStayInScope(env: Environment, stored: seq<Rule>, req: Request, text: string)
    ensures var d := Decide(env, stored, req);
            text in d.changedPaths || text in d.deniedPaths ==>
              && CaseOf(env, stored, req).Some?
              && var c := CaseOf(env, stored, req).value;
                 && ScopeOf(c.rule).Ok?
                 && var scope, bypass := ScopeOf(c.rule).value, c.rule.bypass;
                    && (text in d.changedPaths ==> TextReportable(env.letters, text, c.oldObj, c.newObj, scope))
                    && (text in d.deniedPaths ==>
                          if RemovesBypass(c.rule, c.oldObj, c.newObj) then
                            TextReportable(env.letters, text, WithoutBypass(c.oldObj, bypass),
                                           WithoutBypass(c.newObj, bypass), scope)
                          else
                            TextReportable(env.letters, text, c.oldObj, c.newObj, scope))
  {
    hide Decide, DecideUnderRule, CaseOf, TextReportable, ScopeOf, RemovesBypass;
    DecisionOfCase(env, stored, req);
    if CaseOf(env, stored, req).Some? {
      var c := CaseOf(env, stored, req).value;
      ReportsStayInScope(env, c.rule, req, c.oldObj, c.newObj, text);
    }
  }

  /** A request accepted as a bypass removal alters nothing else that its rule sees. */
  lemma RemovalAlone(env: Environment, stored: seq<Rule>, req: Request, p: Path)
    requires Decide(env, stored, req).reason == BypassRemoved
    ensures CaseOf(env, stored, req).Some?
    ensures var c := CaseOf(env, stored, req).value;
            && ScopeOf(c.rule).Ok?
            && (Drifts(c.oldObj, c.newObj, ScopeOf(c.rule).value, p) ==> Covered(p, [BypassPath(c.rule.bypass)]))
  {
    hide Decide, DecideUnderRule, CaseOf, ScopeOf, Drifts, Covered;
    DecisionOfCase(env, stored, req);
    var c := CaseOf(env, stored, req).value;
    BypassRemovalAlone(env, c.rule, req, c.oldObj, c.newObj, p);
  }
}
