/** The mode a namespace asks for (`ResolveMode` in `pkg/rules/watcher.go`), and why a
    running controller never meets a mode it does not know. */
module Modes {
  import opened Text
  import opened Rules
  import opened RuleText
  import opened Trees
  import opened Compare
  import opened Admission
  import opened DecisionLaws
  import opened DecisionTable
  import opened Controller
  import opened ControllerRuns

  /** What the namespace lister finds. */
  datatype Lookup = NotFound | LookupFailed | Found(annotations: map<string, string>)

  type Lister = string -> Lookup

  /** An override by the mode that the namespace names; none without the namespace or its
      annotation; an error for a failed lookup or an unknown mode. */
  function ResolveMode(lister: Lister, namespace: string): (r: Resolution)
    ensures var found := lister(namespace);
            var value := if found.Found? then ValueAt(found.annotations, "drift-sentinel.k8s.io/mode") else "";
            var named := value != "";
            && (r == ResolveError <==> found.LookupFailed? || (named && !r.Override?))
            && (r == NoOverride <==> found.NotFound? || (found.Found? && !named))
            && (forall mode :: r == Override(mode) <==>
                  named && value == mode && mode in {"enforce", "warn", "dry-run", "off"})
  {
    match lister(namespace)
    case NotFound => NoOverride
    case LookupFailed => ResolveError
    case Found(annotations) =>
      var value := ValueAt(annotations, NAMESPACE_MODE_ANNOTATION);
      if value == "" then NoOverride else if IsValidMode(value) then Override(value) else ResolveError
  }

  /** The environment of a validator that asks the controller's own resolver. */
  function Served(env: Environment, lister: Lister): Environment {
    env.(resolver := Some(namespace => ResolveMode(lister, namespace)))
  }

  /** In a namespace that names a mode, an uncovered change is treated as that mode says,
      whatever the rule's own mode. */
  lemma NamespaceGoverns(env: Environment, lister: Lister, stored: seq<Rule>, req: Request, mode: Mode)
    requires req.namespace != "" && mode in {"enforce", "warn", "dry-run", "off"}
    requires lister(req.namespace).Found?
    requires ValueAt(lister(req.namespace).annotations, "drift-sentinel.k8s.io/mode") == mode
    requires CaseOf(Served(env, lister), stored, req).Some?
    ensures var c := CaseOf(Served(env, lister), stored, req).value;
            Breaks(Served(env, lister), c.rule, req, c.oldObj, c.newObj) ==>
              Treated(Served(env, lister), c.rule, mode, c, Decide(Served(env, lister), stored, req))
  {
    hide Decide, CaseOf, Breaks, Treated;
    OverrideGoverns(Served(env, lister), stored, req, mode);
  }

  lemma StoredModesValid(glob: Glob, caches: seq<Cache>, held: Held, rule: Rule)
    requires Faithful(glob, caches, held) && rule in held.rules
    ensures IsValidMode(rule.mode)
  {
    hide CacheRules, ParsedRule, IsRuleConfigMap, IsValidMode;
    var cache := caches[held.version.value];
    CacheRulesExact(glob, cache, rule);
    var cm :| cm in cache.Values && IsRuleConfigMap(cm) && ParsedRule(glob, cm) == Ok(rule);
    ParsedRuleNames(glob, cm);
  }

  /** The decision names a known mode. */
  predicate KnownMode(d: Decision) {
    !d.reason.UnsupportedMode? && IsValidMode(d.mode)
  }

  lemma VerdictMode(rule: Rule, mode: Mode, removed: bool, diff: DiffResult, rest: DiffResult)
    requires IsValidMode(mode) && IsValidMode(rule.mode)
    ensures KnownMode(Verdict(rule, mode, removed, diff, rest))
  {
  }

  lemma EffectiveModeValid(env: Environment, lister: Lister, rule: Rule, namespace: string)
    requires IsValidMode(rule.mode)
    ensures var mode := EffectiveMode(Served(env, lister), rule, namespace); mode.Some? ==> IsValidMode(mode.value)
  {
  }

  lemma UnderRuleMode(env: Environment, lister: Lister, rule: Rule, req: Request, oldObj: Fields, newObj: Fields)
    requires IsValidMode(rule.mode)
    ensures KnownMode(DecideUnderRule(Served(env, lister), rule, req, oldObj, newObj))
  {
    hide Verdict, EffectiveMode, HasTrueAnnotation, IsValidMode, RemovesBypass, ScopedDiff, DiffWithoutBypass;
    var served := Served(env, lister);
    EffectiveModeValid(env, lister, rule, req.namespace);
    match Screening(served, rule, req, HasTrueAnnotation(newObj, rule.bypass))
    case Answered(_) =>
    case ToCompare(mode, scope) =>
      VerdictMode(rule, mode, RemovesBypass(rule, oldObj, newObj), ScopedDiff(env.letters, oldObj, newObj, scope),
                  DiffWithoutBypass(env.letters, rule, oldObj, newObj, scope));
  }

  /** Whatever a run has put into the store so far, the validator decides under a mode it
      knows and never reports an unsupported one. */
  lemma DecisionsUnderKnownModes(env: Environment, lister: Lister, run: seq<State>, i: nat, req: Request)
    requires Run(env.glob, run) && i < |run|
    ensures var d := Decide(Served(env, lister), run[i].store.rules, req);
            KnownMode(d) || d.reason == OperationNotEnforced
  {
    hide Run, DecideUnderRule, Selected, CacheRules, RuleMatches, RuleBefore, Labels;
    StoreNeverMovesBack(env.glob, run, i, i);
    var oldObj, newObj := Decoded(req.oldObject), Decoded(req.newObject);
    if oldObj.Some? && newObj.Some? {
      var rules, input := run[i].store.rules, InputOf(req, newObj.value);
      SelectedIsBest(env.glob, rules, input);
      var rule := Selected(env.glob, rules, input);
      if rule.Some? {
        StoredModesValid(env.glob, run[i].caches, run[i].store, rule.value);
        UnderRuleMode(env, lister, rule.value, req, oldObj.value, newObj.value);
      }
    }
  }
}
