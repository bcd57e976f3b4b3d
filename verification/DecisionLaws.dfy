/** What a decision guarantees. */
module DecisionLaws {
  import opened Text
  import opened Paths
  import opened Trees
  import opened Strip
  import opened Extract
  import opened Compare
  import opened CompareLaws
  import opened Rules
  import opened Admission
  import opened ScopeLaws
  import opened ReportLaws
  import opened DriftExact

  // ---- cases of a decision -------------------------------------------------------------

  /** The update is compared at all: the user is in scope, the new object is not bypassed,
      the mode is known and the path lists are well-formed. */
  predicate Examined(env: Environment, rule: Rule, req: Request, newObj: Fields) {
    && (rule.users == [] || req.username in rule.users)
    && !HasTrueAnnotation(newObj, rule.bypass)
    && EffectiveMode(env, rule, req.namespace).Some?
    && ScopeOf(rule).Ok?
  }

  lemma ScreeningCases(env: Environment, rule: Rule, req: Request, bypassed: bool)
    ensures match Screening(env, rule, req, bypassed)
            case ToCompare(mode, scope) =>
              && !bypassed && (rule.users == [] || req.username in rule.users)
              && EffectiveMode(env, rule, req.namespace) == Some(mode) && ScopeOf(rule) == Ok(scope)
            case Answered(d) =>
              && (bypassed || !(rule.users == [] || req.username in rule.users)
                  || EffectiveMode(env, rule, req.namespace).None? || ScopeOf(rule).Err?)
              && d.reason !in {NoChanges, OnlyMutableChanged, BypassRemoved} && (d.allowed <==> d.statusCode == 0)
              && d.statusCode != 403 && d.changedPaths == [] && d.deniedPaths == []
  {
  }

  lemma ExaminedDecision(env: Environment, rule: Rule, req: Request, oldObj: Fields, newObj: Fields)
    ensures var d := DecideUnderRule(env, rule, req, oldObj, newObj);
            if Examined(env, rule, req, newObj) then
              d == DecideChanges(env.letters, rule, EffectiveMode(env, rule, req.namespace).value, oldObj, newObj,
                                 ScopeOf(rule).value)
            else
              && d.reason !in {NoChanges, OnlyMutableChanged, BypassRemoved} && (d.allowed <==> d.statusCode == 0)
              && d.statusCode != 403 && d.changedPaths == [] && d.deniedPaths == []
  {
    ScreeningCases(env, rule, req, HasTrueAnnotation(newObj, rule.bypass));
  }

  lemma VerdictCases(rule: Rule, mode: Mode, bypassRemoved: bool, diff: DiffResult, rest: DiffResult)
    ensures var d := Verdict(rule, mode, bypassRemoved, diff, rest);
            var patterns := ParsedAll(rule.mutable);
            && (d.allowed <==> d.statusCode == 0)
            && (d.reason == NoChanges <==> diff.identical)
            && (d.reason == BypassRemoved <==> !diff.identical && bypassRemoved && rest.identical)
            && (d.reason == OnlyMutableChanged <==>
                  && !diff.identical && !bypassRemoved && patterns.Ok?
                  && Classified(diff.changedPaths, patterns.value, false) == [])
            && (d.statusCode == 403 <==>
                  && !diff.identical
                  && if bypassRemoved then !rest.identical
                     else && patterns.Ok? && mode == MODE_ENFORCE
                          && Classified(diff.changedPaths, patterns.value, false) != [])
            && (forall x :: x in d.changedPaths ==> x in diff.changedPaths)
            && (forall x :: x in d.deniedPaths ==> x in (if bypassRemoved then rest else diff).changedPaths)
  {
    if ParsedAll(rule.mutable).Ok? {
      ClassifiedContents(diff.changedPaths, ParsedAll(rule.mutable).value, false);
    }
  }

  // ---- no drift slips through --------------------------------------------------------

  /** If nothing is refused, then wherever a scalar drifts and does not escape, a mutable
      pattern covers the place. */
  lemma DriftCovered(letters: Alphabet, oldObj: Fields, newObj: Fields, scope: Scope, mutable: seq<string>, p: Path)
    requires ParsedAll(mutable).Ok?
    requires Classified(ScopedDiff(letters, oldObj, newObj, scope).changedPaths, ParsedAll(mutable).value, false) == []
    requires Drifts(oldObj, newObj, scope, p) && !Escapes(letters, oldObj, newObj, scope, p)
    ensures Covered(p, ParsedAll(mutable).value)
  {
    hide Classified, ParsedAll, Drifts, Escapes, Covered, Diff, Scoped;
    EscapeExact(letters, oldObj, newObj, scope, p);
    assert !LetsThrough(letters, oldObj, newObj, scope, mutable, p);
  }

  lemma NoDriftInIdentical(letters: Alphabet, oldObj: Fields, newObj: Fields, scope: Scope, p: Path)
    requires ScopedDiff(letters, oldObj, newObj, scope).identical
    requires RuleSees(p, scope)
    ensures Leaf(Object(oldObj), p) == Leaf(Object(newObj), p)
  {
    IdenticalMeansEqual(letters, Scoped(oldObj, scope), Scoped(newObj, scope));
    ScopedLeaves(oldObj, scope, p);
    ScopedLeaves(newObj, scope, p);
  }

  /** If an update is waved through as no change, no scalar that the rule looks at was added,
      removed or altered; if as mutable only, then wherever one was, a mutable pattern covers
      the place, unless the scalar escapes. */
  lemma NoDriftUnderRule(env: Environment, rule: Rule, req: Request, oldObj: Fields, newObj: Fields, p: Path)
    requires DecideUnderRule(env, rule, req, oldObj, newObj).reason in {NoChanges, OnlyMutableChanged}
    ensures ScopeOf(rule).Ok?
    ensures DecideUnderRule(env, rule, req, oldObj, newObj).reason == NoChanges ==>
              !Drifts(oldObj, newObj, ScopeOf(rule).value, p)
    ensures var scope := ScopeOf(rule).value;
            Drifts(oldObj, newObj, scope, p) && !Escapes(env.letters, oldObj, newObj, scope, p) ==>
              && ParsedAll(rule.mutable).Ok?
              && Covered(p, ParsedAll(rule.mutable).value)
  {
    hide DecideUnderRule, EffectiveMode, ScopeOf, HasTrueAnnotation, Verdict, Classified, ParsedAll, Escapes, Covered,
      Leaf, RuleSees, DiffWithoutBypass;
    ExaminedDecision(env, rule, req, oldObj, newObj);
    var scope := ScopeOf(rule).value;
    var diff := ScopedDiff(env.letters, oldObj, newObj, scope);
    VerdictCases(rule, EffectiveMode(env, rule, req.namespace).value, RemovesBypass(rule, oldObj, newObj), diff,
                 DiffWithoutBypass(env.letters, rule, oldObj, newObj, scope));
    if Drifts(oldObj, newObj, scope, p) {
      if diff.identical {
        NoDriftInIdentical(env.letters, oldObj, newObj, scope, p);
      } else if !Escapes(env.letters, oldObj, newObj, scope, p) {
        DriftCovered(env.letters, oldObj, newObj, scope, rule.mutable, p);
      }
    }
  }

  /** The objects of a request and the rule selected for it. */
  datatype Case = Case(rule: Rule, oldObj: Fields, newObj: Fields)

  /** What `Validate` compares, if it gets that far. */
  function CaseOf(env: Environment, stored: seq<Rule>, req: Request): Option<Case> {
    if req.operation != "" && req.operation != "UPDATE" then None
    else match (Decoded(req.oldObject), Decoded(req.newObject))
      case (Some(oldObj), Some(newObj)) =>
        (match Selected(env.glob, stored, InputOf(req, newObj))
         case None => None
         case Some(rule) => Some(Case(rule, oldObj, newObj)))
      case _ => None
  }

  /** The decision is that of the selected rule, or one of four early answers. */
  lemma DecisionOfCase(env: Environment, stored: seq<Rule>, req: Request)
    ensures var d := Decide(env, stored, req);
            match CaseOf(env, stored, req)
            case Some(c) => d == DecideUnderRule(env, c.rule, req, c.oldObj, c.newObj)
            case None =>
              && d.reason in {OperationNotEnforced, InvalidOldObject, InvalidObject, NoMatchingRule}
              && (d.allowed <==> d.statusCode == 0)
              && d.statusCode != 403 && d.changedPaths == [] && d.deniedPaths == []
  {
    hide DecideUnderRule, Selected, Labels;
  }

  /** The same for a whole request, with no condition on its objects. */
  lemma NoDriftSlipsThrough(env: Environment, stored: seq<Rule>, req: Request, p: Path)
    requires Decide(env, stored, req).reason in {NoChanges, OnlyMutableChanged}
    ensures CaseOf(env, stored, req).Some?
    ensures var c := CaseOf(env, stored, req).value;
            && ScopeOf(c.rule).Ok?
            && (Decide(env, stored, req).reason == NoChanges ==> !Drifts(c.oldObj, c.newObj, ScopeOf(c.rule).value, p))
            && var scope := ScopeOf(c.rule).value;
               Drifts(c.oldObj, c.newObj, scope, p) && !Escapes(env.letters, c.oldObj, c.newObj, scope, p) ==>
                 ParsedAll(c.rule.mutable).Ok? && Covered(p, ParsedAll(c.rule.mutable).value)
  {
    hide Decide, DecideUnderRule, CaseOf, Escapes, Drifts, Covered, ParsedAll, ScopeOf;
    DecisionOfCase(env, stored, req);
    var c := CaseOf(env, stored, req).value;
    NoDriftUnderRule(env, c.rule, req, c.oldObj, c.newObj, p);
  }

  /** Where no reported position has a key with a single quote, nothing escapes. */
  lemma NoDriftWithoutQuotes(env: Environment, stored: seq<Rule>, req: Request, p: Path)
    requires Decide(env, stored, req).reason in {NoChanges, OnlyMutableChanged}
    ensures CaseOf(env, stored, req).Some?
    ensures var c := CaseOf(env, stored, req).value;
            && ScopeOf(c.rule).Ok?
            && var scope := ScopeOf(c.rule).value;
               && ReportsFaithfully(Scoped(c.oldObj, scope), Scoped(c.newObj, scope))
               && Drifts(c.oldObj, c.newObj, scope, p) ==>
                 ParsedAll(c.rule.mutable).Ok? && Covered(p, ParsedAll(c.rule.mutable).value)
  {
    hide Decide, CaseOf, Escapes, Drifts, Covered, ParsedAll, ScopeOf, ReportsFaithfully, Scoped;
    NoDriftSlipsThrough(env, stored, req, p);
    var c := CaseOf(env, stored, req).value;
    var scope := ScopeOf(c.rule).value;
    if ReportsFaithfully(Scoped(c.oldObj, scope), Scoped(c.newObj, scope)) {
      PrintableNeverEscapes(env.letters, c.oldObj, c.newObj, scope, p);
    }
  }

  /** An accepted bypass removal alters nothing else the rule sees. */
  lemma BypassRemovalAlone(env: Environment, rule: Rule, req: Request, oldObj: Fields, newObj: Fields, p: Path)
    requires DecideUnderRule(env, rule, req, oldObj, newObj).reason == BypassRemoved
    ensures ScopeOf(rule).Ok?
    ensures Drifts(oldObj, newObj, ScopeOf(rule).value, p) ==> Covered(p, [BypassPath(rule.bypass)])
  {
    ExaminedDecision(env, rule, req, oldObj, newObj);
    var scope := ScopeOf(rule).value;
    var rest := DiffWithoutBypass(env.letters, rule, oldObj, newObj, scope);
    VerdictCases(rule, EffectiveMode(env, rule, req.namespace).value, RemovesBypass(rule, oldObj, newObj),
                 ScopedDiff(env.letters, oldObj, newObj, scope), rest);
    if RuleSees(p, scope) {
      NoDriftInIdentical(env.letters, WithoutBypass(oldObj, rule.bypass), WithoutBypass(newObj, rule.bypass), scope, p);
      BypassLeaves(oldObj, rule.bypass, scope, p);
      BypassLeaves(newObj, rule.bypass, scope, p);
    }
  }

  lemma BypassLeaves(o: Fields, key: string, scope: Scope, p: Path)
    requires RuleSees(p, scope)
    ensures Leaf(Object(WithoutBypass(o, key)), p) == if Covered(p, [BypassPath(key)]) then None else Leaf(Object(o), p)
  {
    var bypass := [BypassPath(key)];
    BypassAfterImplicit(o, key);
    StripKeepsLeaves(WithoutBypass(o, key), IMPLICIT, p);
    StripKeepsLeaves(StrippedObject(o, IMPLICIT), bypass, p);
    StripKeepsLeaves(o, IMPLICIT, p);
  }

  // ---- exact denial -------------------------------------------------------------------

  function WithBypassExcluded(o: Fields, key: string, scope: Scope): Fields {
    Excluded(Included(StrippedObject(o, [BypassPath(key)] + IMPLICIT), scope.included), scope.excluded)
  }

  /** What a rule forbids about two objects, given whether a change is refused: removing the
      bypass together with anything else, or, in enforce mode, a refused change. */
  predicate Forbids(rule: Rule, mode: Mode, oldObj: Fields, newObj: Fields, scope: Scope, refused: bool) {
    && Scoped(oldObj, scope) != Scoped(newObj, scope)
    && if HasTrueAnnotation(oldObj, rule.bypass) then
         WithBypassExcluded(oldObj, rule.bypass, scope) != WithBypassExcluded(newObj, rule.bypass, scope)
       else
         mode == MODE_ENFORCE && refused
  }

  /** What makes an update a violation of a rule. */
  ghost predicate Violates(env: Environment, rule: Rule, req: Request, oldObj: Fields, newObj: Fields) {
    && Examined(env, rule, req, newObj)
    && var scope, patterns := ScopeOf(rule).value, ParsedAll(rule.mutable);
       Forbids(rule, EffectiveMode(env, rule, req.namespace).value, oldObj, newObj, scope,
               patterns.Ok? && ChangeRefused(env.letters, Scoped(oldObj, scope), Scoped(newObj, scope), patterns.value))
  }

  /** The same in terms of positions only. */
  ghost predicate ViolatesByPosition(env: Environment, rule: Rule, req: Request, oldObj: Fields, newObj: Fields) {
    && Examined(env, rule, req, newObj)
    && var scope, patterns := ScopeOf(rule).value, ParsedAll(rule.mutable);
       Forbids(rule, EffectiveMode(env, rule, req.namespace).value, oldObj, newObj, scope,
               patterns.Ok? && ChangesImmutable(Scoped(oldObj, scope), Scoped(newObj, scope), patterns.value))
  }

  lemma DiffsMeanPositions(letters: Alphabet, rule: Rule, oldObj: Fields, newObj: Fields, scope: Scope)
    ensures ScopedDiff(letters, oldObj, newObj, scope).identical <==> Scoped(oldObj, scope) == Scoped(newObj, scope)
    ensures DiffWithoutBypass(letters, rule, oldObj, newObj, scope).identical <==>
              WithBypassExcluded(oldObj, rule.bypass, scope) == WithBypassExcluded(newObj, rule.bypass, scope)
  {
    IdenticalMeansEqual(letters, Scoped(oldObj, scope), Scoped(newObj, scope));
    IdenticalMeansEqual(letters, Scoped(WithoutBypass(oldObj, rule.bypass), scope),
                                 Scoped(WithoutBypass(newObj, rule.bypass), scope));
    BypassRemovalRefines(oldObj, rule.bypass, scope);
    BypassRemovalRefines(newObj, rule.bypass, scope);
  }

  /** For all objects: denied with 403 iff the update violates the rule. */
  lemma DenialUnderRuleExact(env: Environment, rule: Rule, req: Request, oldObj: Fields, newObj: Fields)
    ensures var d := DecideUnderRule(env, rule, req, oldObj, newObj);
            && (d.statusCode == 403 <==> Violates(env, rule, req, oldObj, newObj))
            && (d.allowed <==> d.statusCode == 0)
  {
    hide DecideUnderRule, EffectiveMode, ScopeOf, HasTrueAnnotation, Verdict, Classified, ParsedAll, ChangeRefused,
      WithBypassExcluded, Scoped, Diff;
    ExaminedDecision(env, rule, req, oldObj, newObj);
    if Examined(env, rule, req, newObj) {
      var scope := ScopeOf(rule).value;
      DiffsMeanPositions(env.letters, rule, oldObj, newObj, scope);
      VerdictCases(rule, EffectiveMode(env, rule, req.namespace).value, RemovesBypass(rule, oldObj, newObj),
                   ScopedDiff(env.letters, oldObj, newObj, scope),
                   DiffWithoutBypass(env.letters, rule, oldObj, newObj, scope));
      if ParsedAll(rule.mutable).Ok? {
        RefusedExact(env.letters, Scoped(oldObj, scope), Scoped(newObj, scope), ParsedAll(rule.mutable).value);
      }
    }
  }

  /** A request is denied with 403 iff it is an update that decodes, a rule is selected
      for it and the update violates that rule. */
  lemma DenialExact(env: Environment, stored: seq<Rule>, req: Request)
    ensures var d := Decide(env, stored, req);
            && (d.statusCode == 403 <==>
                  && CaseOf(env, stored, req).Some?
                  && var c := CaseOf(env, stored, req).value; Violates(env, c.rule, req, c.oldObj, c.newObj))
            && (d.allowed <==> d.statusCode == 0)
  {
    hide Decide, DecideUnderRule, CaseOf, Violates;
    DecisionOfCase(env, stored, req);
    if CaseOf(env, stored, req).Some? {
      var c := CaseOf(env, stored, req).value;
      DenialUnderRuleExact(env, c.rule, req, c.oldObj, c.newObj);
    }
  }

  /** Where reported positions are printable, a violation is a matter of positions. */
  lemma DenialByPosition(env: Environment, rule: Rule, req: Request, oldObj: Fields, newObj: Fields)
    requires ScopeOf(rule).Ok? ==>
               ReportsFaithfully(Scoped(oldObj, ScopeOf(rule).value), Scoped(newObj, ScopeOf(rule).value))
    ensures Violates(env, rule, req, oldObj, newObj) <==> ViolatesByPosition(env, rule, req, oldObj, newObj)
    ensures DecideUnderRule(env, rule, req, oldObj, newObj).statusCode == 403
       <==> ViolatesByPosition(env, rule, req, oldObj, newObj)
  {
    hide DecideUnderRule, Forbids, ParsedAll, ScopeOf, ChangeRefused, ChangesImmutable, Scoped, ReportsFaithfully;
    DenialUnderRuleExact(env, rule, req, oldObj, newObj);
    if ScopeOf(rule).Ok? && ParsedAll(rule.mutable).Ok? {
      var scope := ScopeOf(rule).value;
      ImmutableExact(env.letters, Scoped(oldObj, scope), Scoped(newObj, scope), ParsedAll(rule.mutable).value);
    }
  }

  // ---- more mutable patterns ------------------------------------------------------------

  lemma MorePatternsMatch(p: Path, fewer: seq<Path>, more: seq<Path>)
    requires forall q :: q in fewer ==> q in more
    requires MatchesSome(p, fewer)
    ensures MatchesSome(p, more)
  {
    var i :| 0 <= i < |fewer| && Matches(fewer[i], p);
    assert fewer[i] in more;
    var j :| 0 <= j < |more| && more[j] == fewer[i];
    assert Matches(more[j], p);
  }

  /** The second list has all of the first, and what it adds parses. */
  predicate Widens(fewer: seq<string>, more: seq<string>) {
    && (forall m :: m in fewer ==> m in more)
    && (forall m :: m in more ==> m in fewer || Parsed(m).Ok?)
  }

  lemma MoreTextsParse(fewer: seq<string>, more: seq<string>)
    requires Widens(fewer, more)
    ensures ParsedAll(fewer).Ok? <==> ParsedAll(more).Ok?
    ensures ParsedAll(fewer).Ok? ==> forall q :: q in ParsedAll(fewer).value ==> q in ParsedAll(more).value
  {
    hide Parsed;
    ParsedAllPointwise(fewer);
    ParsedAllPointwise(more);
    if ParsedAll(fewer).Ok? {
      forall q | q in ParsedAll(fewer).value ensures q in ParsedAll(more).value {
        var i :| 0 <= i < |fewer| && ParsedAll(fewer).value[i] == q;
        assert fewer[i] in more;
        var j :| 0 <= j < |more| && more[j] == fewer[i];
        assert ParsedAll(more).value[j] == q;
      }
    }
  }

  /** More patterns leave fewer texts unmatched. */
  lemma ClassifiedShrinks(changed: seq<string>, fewer: seq<Path>, more: seq<Path>)
    requires forall q :: q in fewer ==> q in more
    ensures forall x :: x in Classified(changed, more, false) ==> x in Classified(changed, fewer, false)
    ensures Classified(changed, fewer, false) == [] ==> Classified(changed, more, false) == []
  {
    hide Parsed;
    ClassifiedContents(changed, fewer, false);
    ClassifiedContents(changed, more, false);
    var before, after := Classified(changed, fewer, false), Classified(changed, more, false);
    forall x | x in after ensures x in before {
      if TextMatchesSome(x, fewer) {
        MorePatternsMatch(Parsed(x).value, fewer, more);
      }
    }
    assert after != [] ==> after[0] in before;
  }

  lemma VerdictMonotone(rule: Rule, more: seq<string>, mode: Mode, bypassRemoved: bool, diff: DiffResult,
                        rest: DiffResult)
    requires Widens(rule.mutable, more)
    ensures var before := Verdict(rule, mode, bypassRemoved, diff, rest);
            var after := Verdict(rule.(mutable := more), mode, bypassRemoved, diff, rest);
            && (before.allowed ==> after.allowed)
            && (forall x :: x in after.deniedPaths ==> x in before.deniedPaths)
            && (IsValidMode(mode) ==> after.changedPaths == before.changedPaths)
  {
    hide Parsed, ParsedAll, Classified;
    MoreTextsParse(rule.mutable, more);
    if ParsedAll(more).Ok? {
      ClassifiedShrinks(diff.changedPaths, ParsedAll(rule.mutable).value, ParsedAll(more).value);
    }
  }

  /** Adding well-formed mutable patterns never turns an allowed update into a denied one,
      and no path is denied that was not denied before; what changed stays the same. */
  lemma MutableMonotone(env: Environment, rule: Rule, more: seq<string>, req: Request, oldObj: Fields, newObj: Fields)
    requires Widens(rule.mutable, more)
    ensures var before := DecideUnderRule(env, rule, req, oldObj, newObj);
            var after := DecideUnderRule(env, rule.(mutable := more), req, oldObj, newObj);
            && (before.allowed ==> after.allowed)
            && (forall x :: x in after.deniedPaths ==> x in before.deniedPaths)
            && (&& EffectiveMode(env, rule, req.namespace).Some?
                && IsValidMode(EffectiveMode(env, rule, req.namespace).value) ==>
                  after.changedPaths == before.changedPaths)
  {
    hide Verdict, ScopedDiff, DiffWithoutBypass, HasTrueAnnotation, Widens, IsValidMode;
    var widened := rule.(mutable := more);
    assert EffectiveMode(env, widened, req.namespace) == EffectiveMode(env, rule, req.namespace);
    assert ScopeOf(widened) == ScopeOf(rule);
    if Examined(env, rule, req, newObj) {
      var scope := ScopeOf(rule).value;
      VerdictMonotone(rule, more, EffectiveMode(env, rule, req.namespace).value, RemovesBypass(rule, oldObj, newObj),
                      ScopedDiff(env.letters, oldObj, newObj, scope),
                      DiffWithoutBypass(env.letters, rule, oldObj, newObj, scope));
      SameRest(env, rule, more, oldObj, newObj, scope);
    }
  }

  lemma SameRest(env: Environment, rule: Rule, more: seq<string>, oldObj: Fields, newObj: Fields, scope: Scope)
    ensures DiffWithoutBypass(env.letters, rule.(mutable := more), oldObj, newObj, scope)
         == DiffWithoutBypass(env.letters, rule, oldObj, newObj, scope)
  {
  }

  // ---- system noise ------------------------------------------------------------------------

  lemma NoiseUnderRule(env: Environment, rule: Rule, req: Request, noisy: Request,
                       o: Fields, n: Fields, o': Fields, n': Fields)
    requires noisy == req.(oldObject := noisy.oldObject, newObject := noisy.newObject)
    requires NoiseOnly(o, o') && NoiseOnly(n, n')
    ensures DecideUnderRule(env, rule, req, o, n) == DecideUnderRule(env, rule, noisy, o', n')
  {
    NoiseOutsideMetadata(n, n', rule.bypass);
    var bypassed := HasTrueAnnotation(n, rule.bypass);
    assert Screening(env, rule, req, bypassed) == Screening(env, rule, noisy, bypassed);
    match Screening(env, rule, req, bypassed)
    case Answered(_) =>
    case ToCompare(mode, scope) => NoiseInComparison(env.letters, rule, mode, scope, o, n, o', n');
  }

  lemma NoiseInComparison(letters: Alphabet, rule: Rule, mode: Mode, scope: Scope,
                          o: Fields, n: Fields, o': Fields, n': Fields)
    requires NoiseOnly(o, o') && NoiseOnly(n, n')
    ensures DecideChanges(letters, rule, mode, o, n, scope) == DecideChanges(letters, rule, mode, o', n', scope)
  {
    NoiseOutsideMetadata(n, n', rule.bypass);
    NoiseOutsideMetadata(o, o', rule.bypass);
    NoiseOutsideScope(o, o', scope, rule.bypass);
    NoiseOutsideScope(n, n', scope, rule.bypass);
    assert ScopedDiff(letters, o, n, scope) == ScopedDiff(letters, o', n', scope);
    assert DiffWithoutBypass(letters, rule, o, n, scope) == DiffWithoutBypass(letters, rule, o', n', scope);
  }

  /** Changing, adding or deleting the fields Kubernetes maintains, in either object, leaves
      the whole decision unchanged. */
  lemma NoiseNeverDecides(env: Environment, stored: seq<Rule>, req: Request, noisy: Request)
    requires Decoded(req.oldObject).Some? && Decoded(req.newObject).Some?
    requires Decoded(noisy.oldObject).Some? && Decoded(noisy.newObject).Some?
    requires noisy == req.(oldObject := noisy.oldObject, newObject := noisy.newObject)
    requires NoiseOnly(Decoded(req.oldObject).value, Decoded(noisy.oldObject).value)
    requires NoiseOnly(Decoded(req.newObject).value, Decoded(noisy.newObject).value)
    ensures Decide(env, stored, req) == Decide(env, stored, noisy)
  {
    var o, n := Decoded(req.oldObject).value, Decoded(req.newObject).value;
    var o', n' := Decoded(noisy.oldObject).value, Decoded(noisy.newObject).value;
    NoiseOutsideMetadata(n, n', "");
    var selected := Selected(env.glob, stored, InputOf(req, n));
    assert InputOf(req, n) == InputOf(noisy, n');
    if selected.Some? {
      NoiseUnderRule(env, selected.value, req, noisy, o, n, o', n');
    }
  }

  /** The exclude texts of a rule without the implicit ones. */
  function WithoutImplicit(texts: seq<string>): (kept: seq<string>)
    ensures forall text :: text in kept <==> text in texts && text !in IMPLICIT_EXCLUDES
  {
    if texts == [] then []
    else
      var last := texts[|texts| - 1];
      WithoutImplicit(texts[..|texts| - 1]) + if last in IMPLICIT_EXCLUDES then [] else [last]
  }

  lemma ImplicitTextParsed(text: string)
    requires text in IMPLICIT_EXCLUDES
    ensures Parsed(text).Ok? && Parsed(text).value in IMPLICIT
  {
    ImplicitParsed();
    ParsedAllPointwise(IMPLICIT_EXCLUDES);
    var i :| 0 <= i < |IMPLICIT_EXCLUDES| && IMPLICIT_EXCLUDES[i] == text;
    assert IMPLICIT[i] in IMPLICIT;
  }

  ghost predicate SameButImplicit(more: Result<seq<Path>, PathError>, fewer: Result<seq<Path>, PathError>) {
    match (more, fewer)
    case (Err(e), Err(f)) => e == f
    case (Ok(ps), Ok(qs)) => ButImplicit(ps, qs)
    case _ => false
  }

  function ParsedOneMore(parsed: Result<seq<Path>, PathError>, text: string): Result<seq<Path>, PathError> {
    match (parsed, Parsed(text))
    case (Err(e), _) => Err(e)
    case (_, Err(e)) => Err(e)
    case (Ok(ps), Ok(p)) => Ok(ps + [p])
  }

  lemma ParsedAllSnoc(init: seq<string>, last: string)
    ensures ParsedAll(init + [last]) == ParsedOneMore(ParsedAll(init), last)
  {
    hide Parsed;
    assert (init + [last])[..|init|] == init;
  }

  lemma SameSnoc(more: Result<seq<Path>, PathError>, fewer: Result<seq<Path>, PathError>, text: string)
    requires SameButImplicit(more, fewer)
    ensures SameButImplicit(ParsedOneMore(more, text), ParsedOneMore(fewer, text))
    ensures text in IMPLICIT_EXCLUDES ==> SameButImplicit(ParsedOneMore(more, text), fewer)
  {
    hide Parsed;
    if text in IMPLICIT_EXCLUDES {
      ImplicitTextParsed(text);
    }
  }

  /** Dropping implicit texts keeps the first error, and all other patterns. */
  lemma {:induction false} WithoutImplicitParsed(texts: seq<string>)
    ensures SameButImplicit(ParsedAll(texts), ParsedAll(WithoutImplicit(texts)))
  {
    hide Parsed, SameButImplicit, ParsedOneMore, ParsedAll;
    if texts == [] {
      NothingParsed();
    } else {
      var init, last := texts[..|texts| - 1], texts[|texts| - 1];
      WithoutImplicitParsed(init);
      assert texts == init + [last];
      ParsedAllSnoc(init, last);
      SameSnoc(ParsedAll(init), ParsedAll(WithoutImplicit(init)), last);
      ParsedAllSnoc(WithoutImplicit(init), last);
      assert WithoutImplicit(init) + [] == WithoutImplicit(init);
    }
  }

  lemma NothingParsed()
    ensures ParsedAll([]) == Ok([]) && SameButImplicit(ParsedAll([]), ParsedAll([]))
  {
  }

  ghost predicate SameScope(more: Result<Scope, Reason>, fewer: Result<Scope, Reason>) {
    match (more, fewer)
    case (Err(e), Err(f)) => e == f
    case (Ok(s), Ok(t)) => s.included == t.included && ButImplicit(Listed(s.excluded), Listed(t.excluded))
    case _ => false
  }

  lemma WithoutImplicitScope(rule: Rule)
    ensures SameScope(ScopeOf(rule), ScopeOf(rule.(exclude := WithoutImplicit(rule.exclude))))
  {
    hide ParsedAll, ButImplicit;
    WithoutImplicitParsed(rule.exclude);
    NothingParsed();
  }

  /** The verdict looks at a rule's name, mode and mutable patterns only. */
  lemma VerdictIgnoresExcludes(rule: Rule, exclude: seq<string>, mode: Mode, bypassRemoved: bool,
                               diff: DiffResult, rest: DiffResult)
    ensures Verdict(rule.(exclude := exclude), mode, bypassRemoved, diff, rest)
         == Verdict(rule, mode, bypassRemoved, diff, rest)
  {
  }

  lemma RepeatedExcludesInComparison(letters: Alphabet, rule: Rule, exclude: seq<string>, mode: Mode,
                                     oldObj: Fields, newObj: Fields, more: Scope, fewer: Scope)
    requires more.included == fewer.included && ButImplicit(Listed(more.excluded), Listed(fewer.excluded))
    ensures DecideChanges(letters, rule, mode, oldObj, newObj, more)
         == DecideChanges(letters, rule.(exclude := exclude), mode, oldObj, newObj, fewer)
  {
    hide Verdict, Diff, WithoutBypass, HasTrueAnnotation, Listed, Scoped, ButImplicit;
    forall o ensures Scoped(o, more) == Scoped(o, fewer) {
      RepeatedExcludesRedundant(o, more.included, more.excluded, fewer.excluded);
    }
    var diff := ScopedDiff(letters, oldObj, newObj, fewer);
    var rest := DiffWithoutBypass(letters, rule, oldObj, newObj, fewer);
    VerdictIgnoresExcludes(rule, exclude, mode, RemovesBypass(rule, oldObj, newObj), diff, rest);
  }

  /** A rule decides as if the implicit excludes it repeats were not there, whatever else it
      includes and excludes. */
  lemma DefaultExcludesRedundant(env: Environment, rule: Rule, req: Request, oldObj: Fields, newObj: Fields)
    ensures DecideUnderRule(env, rule, req, oldObj, newObj)
         == DecideUnderRule(env, rule.(exclude := WithoutImplicit(rule.exclude)), req, oldObj, newObj)
  {
    hide DecideChanges, ScopeOf, HasTrueAnnotation, WithoutImplicit, Listed, ButImplicit;
    var plain := rule.(exclude := WithoutImplicit(rule.exclude));
    WithoutImplicitScope(rule);
    assert EffectiveMode(env, plain, req.namespace) == EffectiveMode(env, rule, req.namespace);
    match Screening(env, rule, req, HasTrueAnnotation(newObj, rule.bypass))
    case Answered(_) =>
    case ToCompare(mode, more) =>
      RepeatedExcludesInComparison(env.letters, rule, plain.exclude, mode, oldObj, newObj, more, ScopeOf(plain).value);
  }

  // ---- reported paths stay in scope --------------------------------------------------------

  /** A position that the rule may report. */
  predicate Reportable(q: Path, scope: Scope) {
    && !Covered(q, IMPLICIT)
    && (scope.included.Some? && NoFixedIndex(scope.included.value) ==> InScope(q, scope.included.value))
    && (scope.excluded.Some? ==>
          forall i :: 0 <= i < |scope.excluded.value| && EndsInField(scope.excluded.value[i]) ==>
            Untouched(q, scope.excluded.value[i]))
  }

  /** The text of a position where the two scoped objects part, inside the rule's scope. */
  ghost predicate TextReportable(letters: Alphabet, text: string, oldObj: Fields, newObj: Fields, scope: Scope) {
    exists q ::
      && PartsAt(Object(Scoped(oldObj, scope)), Object(Scoped(newObj, scope)), q)
      && text == RenderedPath(letters, q) && Reportable(q, scope)
  }

  lemma DiffReportable(letters: Alphabet, oldObj: Fields, newObj: Fields, scope: Scope)
    ensures forall text :: text in ScopedDiff(letters, oldObj, newObj, scope).changedPaths ==>
              TextReportable(letters, text, oldObj, newObj, scope)
  {
    var v, w := Scoped(oldObj, scope), Scoped(newObj, scope);
    ChangedTexts(letters, v, w);
    forall text | text in Diff(letters, v, w).changedPaths
      ensures TextReportable(letters, text, oldObj, newObj, scope)
    {
      var q :| PartsAt(Object(v), Object(w), q) && text == RenderedPath(letters, q);
      ReportedBelowRoot(v, w, q);
      ReportedPresent(Object(v), Object(w), q);
      if Lookup(Object(v), q).Some? {
        ScopedPositions(oldObj, scope, q);
      } else {
        ScopedPositions(newObj, scope, q);
      }
      assert Reportable(q, scope);
    }
  }

  /** Every path a decision reports is the text of a position inside the rule's scope where
      the scoped objects part; the denied paths of a bypass removal, of one where they part
      without the annotation. */
  lemma ReportsStayInScope(env: Environment, rule: Rule, req: Request, oldObj: Fields, newObj: Fields, text: string)
    ensures var d := DecideUnderRule(env, rule, req, oldObj, newObj);
            && (text in d.changedPaths || text in d.deniedPaths ==> ScopeOf(rule).Ok?)
            && (text in d.changedPaths ==> TextReportable(env.letters, text, oldObj, newObj, ScopeOf(rule).value))
            && (text in d.deniedPaths ==>
                  if RemovesBypass(rule, oldObj, newObj) then
                    TextReportable(env.letters, text, WithoutBypass(oldObj, rule.bypass),
                                   WithoutBypass(newObj, rule.bypass), ScopeOf(rule).value)
                  else
                    TextReportable(env.letters, text, oldObj, newObj, ScopeOf(rule).value))
  {
    hide DecideUnderRule, TextReportable, Verdict, EffectiveMode, ScopeOf, HasTrueAnnotation, WithoutBypass, ParsedAll,
      Classified, Diff, Scoped;
    ExaminedDecision(env, rule, req, oldObj, newObj);
    if Examined(env, rule, req, newObj) {
      var scope := ScopeOf(rule).value;
      DiffReportable(env.letters, oldObj, newObj, scope);
      DiffReportable(env.letters, WithoutBypass(oldObj, rule.bypass), WithoutBypass(newObj, rule.bypass), scope);
      VerdictCases(rule, EffectiveMode(env, rule, req.namespace).value, RemovesBypass(rule, oldObj, newObj),
                   ScopedDiff(env.letters, oldObj, newObj, scope),
                   DiffWithoutBypass(env.letters, rule, oldObj, newObj, scope));
    }
  }
}
