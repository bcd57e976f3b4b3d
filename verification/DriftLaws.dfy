/** Exactly when some mutable list lets a drifting scalar through `Validate`. */
module DriftLaws {
  import opened Text
  import opened Paths
  import opened Trees
  import opened Compare
  import opened CompareLaws
  import opened Rules
  import opened Admission
  import opened ScopeLaws
  import opened ReportLaws
  import opened DriftExact
  import opened DecisionLaws
  import opened RequestLaws

  // ---- one rule ----------------------------------------------------------------------------

  /** With this mutable list the rule allows the update and does not cover the drifting scalar. */
  ghost predicate RuleLetsThrough(env: Environment, rule: Rule, mutable: seq<string>, req: Request,
                                  oldObj: Fields, newObj: Fields, p: Path) {
    && DecideUnderRule(env, rule.(mutable := mutable), req, oldObj, newObj).reason == OnlyMutableChanged
    && ScopeOf(rule).Ok? && Drifts(oldObj, newObj, ScopeOf(rule).value, p)
    && ParsedAll(mutable).Ok? && !Covered(p, ParsedAll(mutable).value)
  }

  /** The update is compared, removes no bypass, and the scalar escapes. */
  ghost predicate EscapesRule(env: Environment, rule: Rule, req: Request, oldObj: Fields, newObj: Fields, p: Path) {
    && Examined(env, rule, req, newObj)
    && !HasTrueAnnotation(oldObj, rule.bypass)
    && Escapes(env.letters, oldObj, newObj, ScopeOf(rule).value, p)
  }

  lemma AnotherList(env: Environment, rule: Rule, mutable: seq<string>, req: Request, newObj: Fields)
    ensures var other := rule.(mutable := mutable);
            && EffectiveMode(env, other, req.namespace) == EffectiveMode(env, rule, req.namespace)
            && ScopeOf(other) == ScopeOf(rule)
            && (Examined(env, other, req, newObj) <==> Examined(env, rule, req, newObj))
  {
  }

  /** When a rule with a given list answers that only mutable fields changed. */
  lemma AllowedAsMutable(env: Environment, rule: Rule, mutable: seq<string>, req: Request, oldObj: Fields,
                         newObj: Fields)
    ensures DecideUnderRule(env, rule.(mutable := mutable), req, oldObj, newObj).reason == OnlyMutableChanged
       <==> && Examined(env, rule, req, newObj)
            && !HasTrueAnnotation(oldObj, rule.bypass)
            && var scope := ScopeOf(rule).value;
               && Scoped(oldObj, scope) != Scoped(newObj, scope)
               && Accepts(env.letters, Scoped(oldObj, scope), Scoped(newObj, scope), mutable)
  {
    hide DecideUnderRule, EffectiveMode, ScopeOf, HasTrueAnnotation, Verdict, Classified, ParsedAll, Scoped, Diff,
      DiffWithoutBypass;
    var other := rule.(mutable := mutable);
    AnotherList(env, rule, mutable, req, newObj);
    ExaminedDecision(env, other, req, oldObj, newObj);
    if Examined(env, rule, req, newObj) {
      var scope := ScopeOf(rule).value;
      IdenticalMeansEqual(env.letters, Scoped(oldObj, scope), Scoped(newObj, scope));
      VerdictCases(other, EffectiveMode(env, other, req.namespace).value, RemovesBypass(other, oldObj, newObj),
                   ScopedDiff(env.letters, oldObj, newObj, scope),
                   DiffWithoutBypass(env.letters, other, oldObj, newObj, scope));
    }
  }

  lemma DriftSeparates(oldObj: Fields, newObj: Fields, scope: Scope, p: Path)
    requires Drifts(oldObj, newObj, scope, p)
    ensures Scoped(oldObj, scope) != Scoped(newObj, scope)
  {
    ScopedLeaves(oldObj, scope, p);
    ScopedLeaves(newObj, scope, p);
  }

  /** Some mutable list makes the rule let the scalar through iff it escapes. */
  lemma RuleDriftExact(env: Environment, rule: Rule, req: Request, oldObj: Fields, newObj: Fields, p: Path)
    ensures (exists mutable :: RuleLetsThrough(env, rule, mutable, req, oldObj, newObj, p))
       <==> EscapesRule(env, rule, req, oldObj, newObj, p)
  {
    hide DecideUnderRule, Examined, ScopeOf, HasTrueAnnotation, Drifts, Escapes, ParsedAll, Covered, Scoped, Accepts;
    if mutable :| RuleLetsThrough(env, rule, mutable, req, oldObj, newObj, p) {
      AllowedAsMutable(env, rule, mutable, req, oldObj, newObj);
      var scope := ScopeOf(rule).value;
      assert LetsThrough(env.letters, oldObj, newObj, scope, mutable, p);
      EscapeExact(env.letters, oldObj, newObj, scope, p);
    }
    if EscapesRule(env, rule, req, oldObj, newObj, p) {
      ExaminedScope(env, rule, req, newObj);
      var scope := ScopeOf(rule).value;
      EscapeExact(env.letters, oldObj, newObj, scope, p);
      var mutable :| LetsThrough(env.letters, oldObj, newObj, scope, mutable, p);
      AllowedAsMutable(env, rule, mutable, req, oldObj, newObj);
      DriftSeparates(oldObj, newObj, scope, p);
      AcceptsParsed(env.letters, Scoped(oldObj, scope), Scoped(newObj, scope), mutable);
      assert RuleLetsThrough(env, rule, mutable, req, oldObj, newObj, p);
    }
  }

  lemma ExaminedScope(env: Environment, rule: Rule, req: Request, newObj: Fields)
    requires Examined(env, rule, req, newObj)
    ensures ScopeOf(rule).Ok?
  {
  }

  lemma AcceptsParsed(letters: Alphabet, v: Fields, w: Fields, mutable: seq<string>)
    requires Accepts(letters, v, w, mutable)
    ensures ParsedAll(mutable).Ok?
  {
  }

  // ---- requests ----------------------------------------------------------------------------------

  /** With this list for its selected rule the request is allowed, and the drifting scalar
      is not covered. */
  ghost predicate RequestLetsThrough(env: Environment, stored: seq<Rule>, mutable: seq<string>, req: Request, p: Path) {
    && CaseOf(env, stored, req).Some?
    && var c := CaseOf(env, stored, req).value;
       && Decide(env, RelistedAll(stored, c.rule, mutable), req).reason == OnlyMutableChanged
       && ScopeOf(c.rule).Ok? && Drifts(c.oldObj, c.newObj, ScopeOf(c.rule).value, p)
       && ParsedAll(mutable).Ok? && !Covered(p, ParsedAll(mutable).value)
  }

  lemma CaseRelisted(env: Environment, stored: seq<Rule>, req: Request, mutable: seq<string>)
    requires CaseOf(env, stored, req).Some?
    ensures var c := CaseOf(env, stored, req).value;
            && CaseOf(env, RelistedAll(stored, c.rule, mutable), req) == Some(c.(rule := c.rule.(mutable := mutable)))
            && Decide(env, RelistedAll(stored, c.rule, mutable), req)
               == DecideUnderRule(env, c.rule.(mutable := mutable), req, c.oldObj, c.newObj)
  {
    hide CaseOf, DecideUnderRule, Decide, Mapped;
    var c := CaseOf(env, stored, req).value;
    RelistingKeeps(env.glob, c.rule, mutable);
    CaseMapped(env, stored, req, Relisting(c.rule, mutable));
    DecisionOfCase(env, RelistedAll(stored, c.rule, mutable), req);
  }

  /** Some mutable list for the selected rule lets the scalar through `Validate` iff a rule is
      selected and the scalar escapes it. */
  lemma RequestDriftExact(env: Environment, stored: seq<Rule>, req: Request, p: Path)
    ensures (exists mutable :: RequestLetsThrough(env, stored, mutable, req, p))
       <==> && CaseOf(env, stored, req).Some?
            && var c := CaseOf(env, stored, req).value; EscapesRule(env, c.rule, req, c.oldObj, c.newObj, p)
  {
    hide CaseOf, Decide, DecideUnderRule, EscapesRule, ScopeOf, Drifts, ParsedAll, Covered, RelistedAll;
    if CaseOf(env, stored, req).Some? {
      var c := CaseOf(env, stored, req).value;
      RuleDriftExact(env, c.rule, req, c.oldObj, c.newObj, p);
      forall mutable
        ensures RequestLetsThrough(env, stored, mutable, req, p)
           <==> RuleLetsThrough(env, c.rule, mutable, req, c.oldObj, c.newObj, p)
      {
        CaseRelisted(env, stored, req, mutable);
      }
    }
  }

  /** More well-formed mutable patterns for the selected rule never turn an allowed request
      into a denied one, and only shrink the denied paths. */
  lemma RequestMonotone(env: Environment, stored: seq<Rule>, req: Request, more: seq<string>)
    requires CaseOf(env, stored, req).Some? && Widens(CaseOf(env, stored, req).value.rule.mutable, more)
    ensures var before := Decide(env, stored, req);
            var after := Decide(env, RelistedAll(stored, CaseOf(env, stored, req).value.rule, more), req);
            && (before.allowed ==> after.allowed)
            && (forall x :: x in after.deniedPaths ==> x in before.deniedPaths)
  {
    hide CaseOf, Decide, DecideUnderRule, RelistedAll, EffectiveMode, Widens;
    var c := CaseOf(env, stored, req).value;
    DecisionOfCase(env, stored, req);
    CaseRelisted(env, stored, req, more);
    MutableMonotone(env, c.rule, more, req, c.oldObj, c.newObj);
  }
}
