/** What `ParseConfigMap` makes of a ConfigMap, field by field and error by error. */
module ParseLaws {
  import opened Text
  import opened TextLaws
  import opened Rules
  import opened RuleText

  /** The annotation that makes a ConfigMap a rule. */
  ghost predicate Annotated(cm: ConfigMap) {
    var key := "drift-sentinel.k8s.io/rule";
    key in cm.annotations && SaysTrue(cm.annotations[key])
  }

  lemma AnnotatedExact(cm: ConfigMap)
    ensures IsRuleConfigMap(cm) <==> Annotated(cm)
  {
    hide IsTrueText, SaysTrue;
    IsTrueTextExact(ValueAt(cm.annotations, RULE_ANNOTATION_KEY));
    EmptySaysNothing();
  }

  lemma EmptySaysNothing()
    ensures !SaysTrue("")
  {
  }

  /** The text of the rule, without the white space around it. */
  ghost predicate SpecText(cm: ConfigMap, text: string) {
    Trims(if "spec" in cm.data then cm.data["spec"] else "", text)
  }

  /** The twelve fields of the rule. */
  predicate RuleIs(rule: Rule, cm: ConfigMap, spec: RawSpec) {
    && rule.name == cm.name
    && rule.namespace == cm.namespace
    && rule.priority == spec.priority
    && rule.mode == spec.mode
    && rule.namespaces == spec.namespaces
    && rule.selectors == spec.selectors
    && rule.labels == spec.labels
    && rule.exclude == spec.exclude
    && rule.includes == spec.includes
    && rule.mutable == spec.mutable
    && rule.users == spec.users
    && rule.bypass == if spec.bypass == "" then "drift-sentinel.k8s.io/bypass" else spec.bypass
  }

  /** The first namespace pattern that globbing rejects. */
  predicate FirstRejected(glob: Glob, patterns: seq<string>, pattern: string) {
    exists i :: 0 <= i < |patterns| && patterns[i] == pattern && glob(pattern, "").None?
                && forall j :: 0 <= j < i ==> glob(patterns[j], "").Some?
  }

  /** The checks of `ParseConfigMap` on a parsed spec. */
  predicate Acceptable(glob: Glob, spec: RawSpec) {
    && spec.mode in {"enforce", "warn", "dry-run", "off"} && spec.namespaces != [] && spec.selectors != []
    && forall p :: p in spec.namespaces ==> glob(p, "").Some?
  }

  /** What becomes of a parsed spec: the rule it says, or the first check it fails. */
  predicate Outcomes(glob: Glob, cm: ConfigMap, spec: RawSpec, r: Result<Rule, RuleError>) {
    match r
    case Ok(rule) => Acceptable(glob, spec) && RuleIs(rule, cm, spec)
    case Err(InvalidMode(mode)) => mode == spec.mode && spec.mode !in {"enforce", "warn", "dry-run", "off"}
    case Err(NoNamespaces) => spec.mode in {"enforce", "warn", "dry-run", "off"} && spec.namespaces == []
    case Err(NoSelectors) =>
      spec.mode in {"enforce", "warn", "dry-run", "off"} && spec.namespaces != [] && spec.selectors == []
    case Err(InvalidNamespacePattern(pattern)) =>
      && spec.mode in {"enforce", "warn", "dry-run", "off"} && spec.selectors != []
      && FirstRejected(glob, spec.namespaces, pattern)
    case _ => false
  }

  lemma {:induction false} FirstInvalidExact(glob: Glob, patterns: seq<string>)
    ensures match FirstInvalid(glob, patterns)
            case Some(pattern) => FirstRejected(glob, patterns, pattern)
            case None => forall p :: p in patterns ==> glob(p, "").Some?
  {
    if patterns != [] {
      var rest := patterns[1..];
      FirstInvalidExact(glob, rest);
      if glob(patterns[0], "").Some? && FirstInvalid(glob, rest).Some? {
        var pattern := FirstInvalid(glob, rest).value;
        var i :| 0 <= i < |rest| && rest[i] == pattern && glob(pattern, "").None?
          && forall j :: 0 <= j < i ==> glob(rest[j], "").Some?;
        assert patterns[i + 1] == pattern;
        forall j | 0 <= j < i + 1 ensures glob(patterns[j], "").Some? {
          assert j > 0 ==> patterns[j] == rest[j - 1];
        }
      }
    }
  }

  /** Of the outcomes there is only one. */
  lemma OutcomeUnique(glob: Glob, cm: ConfigMap, spec: RawSpec, r: Result<Rule, RuleError>, s: Result<Rule, RuleError>)
    requires Outcomes(glob, cm, spec, r) && Outcomes(glob, cm, spec, s)
    ensures r == s
  {
  }

  lemma CheckedExact(glob: Glob, cm: ConfigMap, spec: RawSpec)
    ensures Outcomes(glob, cm, spec, Checked(glob, cm, spec))
    ensures Checked(glob, cm, spec).Ok? <==> Acceptable(glob, spec)
  {
    hide FirstInvalid;
    FirstInvalidExact(glob, spec.namespaces);
  }

  /** Every ConfigMap: not a rule without the annotation, no spec if the text is white space,
      the error of a text that does not parse, or else what becomes of the parsed spec. */
  lemma ParsedExact(glob: Glob, cm: ConfigMap, text: string)
    requires SpecText(cm, text)
    ensures var r := ParsedRule(glob, cm);
            && (r == Err(NotAnnotated) <==> !Annotated(cm))
            && (r == Err(MissingSpec) <==> Annotated(cm) && text == "")
            && (Annotated(cm) && text != "" ==>
                  match ParsedSpec(text)
                  case Err(e) => r == Err(Unparsable(e))
                  case Ok(spec) => Outcomes(glob, cm, spec, r) && (r.Ok? <==> Acceptable(glob, spec)))
  {
    hide Annotated, IsRuleConfigMap, TrimSpace, Trims, ParsedSpec, Checked, Acceptable;
    AnnotatedExact(cm);
    TrimSpaceExact(ValueAt(cm.data, "spec"), text);
    if ParsedSpec(text).Ok? {
      CheckedExact(glob, cm, ParsedSpec(text).value);
    }
  }
}
