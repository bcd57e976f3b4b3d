/** The decision of the admission controller: `pkg/admission/validator.go`. */
module Admission {
  import opened Text
  import opened Paths
  import opened Trees
  import opened Strip
  import opened Extract
  import opened Compare
  import opened Rules
  import opened RuleStore

  /** The fields of `metadata` that Kubernetes maintains. */
  const MAINTAINED: seq<string> :=
    ["managedFields", "resourceVersion", "generation", "uid", "creationTimestamp", "selfLink"]

  function MetadataTexts(names: seq<string>): (texts: seq<string>)
    ensures |texts| == |names| && forall i :: 0 <= i < |names| ==> texts[i] == "metadata." + names[i]
  {
    seq(|names|, i requires 0 <= i < |names| => "metadata." + names[i])
  }

  function MetadataPaths(names: seq<string>): (paths: seq<Path>)
    ensures |paths| == |names| && forall i :: 0 <= i < |names| ==> paths[i] == [Field("metadata"), Field(names[i])]
  {
    seq(|names|, i requires 0 <= i < |names| => [Field("metadata"), Field(names[i])])
  }

  /** The implicit excludes as texts: the status, and the maintained metadata. */
  const IMPLICIT_EXCLUDES: seq<string> := ["status"] + MetadataTexts(MAINTAINED)

  /** What the implicit excludes parse to. */
  const IMPLICIT: seq<Path> := [[Field("status")]] + MetadataPaths(MAINTAINED)

  /** A raw JSON message: empty, not JSON, or a document. */
  datatype Raw = Absent | Malformed | Document(value: Json)

  datatype Request = Request(
    operation: string,
    namespace: string,
    group: string,
    kind: string,
    username: string,
    oldObject: Raw,
    newObject: Raw)

  datatype Reason =
    | OperationNotEnforced
    | InvalidOldObject
    | InvalidObject
    | NoMatchingRule
    | UserNotScoped
    | BypassPresent
    | ResolveFailed
    | IncludeInvalid(error: PathError)
    | ExcludeInvalid(error: PathError)
    | MutableInvalid(error: PathError)
    | NoChanges
    | BypassRemoved
    | BypassRemovalNotAlone
    | OnlyMutableChanged
    | ImmutableChanged(paths: seq<string>)
    | WouldDeny(paths: seq<string>)
    | UnsupportedMode(mode: Mode)

  datatype Decision = Decision(
    allowed: bool,
    statusCode: int,
    reason: Reason,
    warnings: seq<Reason>,
    changedPaths: seq<string>,
    deniedPaths: seq<string>,
    ruleName: string,
    mode: Mode)

  /** The answer of the namespace lookup: an error, no annotation, or a mode. */
  datatype Resolution = ResolveError | NoOverride | Override(mode: Mode)

  /** What a decision depends on besides the request and the stored rules. */
  datatype Environment = Environment(
    letters: Alphabet,
    glob: Glob,
    resolver: Option<string -> Resolution>)

  function Allow(reason: Reason, changed: seq<string>, ruleName: string, mode: Mode): Decision {
    Decision(true, 0, reason, [], changed, [], ruleName, mode)
  }

  /** `errorDecision` for a known rule. */
  function Fail(rule: Rule, code: int, reason: Reason): Decision {
    Decision(false, code, reason, [], [], [], rule.name, rule.mode)
  }

  // ---- reading objects -------------------------------------------------------

  function Decoded(raw: Raw): Option<Fields> {
    match raw
    case Absent => Some(map[])
    case Malformed => None
    case Document(Object(m)) => Some(m)
    case Document(Null) => Some(map[])
    case Document(_) => None
  }

  /** `o[key].(map[string]any)`. */
  function MapAt(o: Fields, key: string): Option<Fields> {
    if key in o && o[key].Object? then Some(o[key].fields) else None
  }

  function Annotations(o: Fields): Option<Fields> {
    match MapAt(o, "metadata")
    case None => None
    case Some(metadata) => MapAt(metadata, "annotations")
  }

  predicate IsTrueValue(v: Json) {
    match v
    case String(s) => IsTrueText(s)
    case Bool(b) => b
    case _ => false
  }

  predicate HasTrueAnnotation(o: Fields, key: string) {
    match Annotations(o)
    case None => false
    case Some(annotations) => key in annotations && IsTrueValue(annotations[key])
  }

  function TextFields(m: Fields): map<string, string> {
    map k | k in m && m[k].String? :: m[k].text
  }

  function Labels(o: Fields): map<string, string> {
    match MapAt(o, "metadata")
    case None => map[]
    case Some(metadata) =>
      match MapAt(metadata, "labels")
      case None => map[]
      case Some(labels) => TextFields(labels)
  }

  /** Drops an annotation, and the annotations with it when none is left. */
  function MetadataWithout(metadata: Fields, key: string): Fields {
    match MapAt(metadata, "annotations")
    case None => metadata
    case Some(annotations) =>
      var left := annotations - {key};
      if left == map[] then metadata - {"annotations"} else metadata["annotations" := Object(left)]
  }

  function WithoutAnnotation(o: Fields, key: string): Fields {
    match MapAt(o, "metadata")
    case None => o
    case Some(metadata) => o["metadata" := Object(MetadataWithout(metadata, key))]
  }

  method ExtractLabels(obj: Fields) returns (labels: map<string, string>)
    ensures labels == Labels(obj)
  {
    labels := map[];
    if "metadata" !in obj || !obj["metadata"].Object? {
      return;
    }
    var metadata := obj["metadata"].fields;
    if "labels" !in metadata || !metadata["labels"].Object? {
      return;
    }
    var source := metadata["labels"].fields;
    var pending := source.Keys;
    while pending != {}
      invariant pending <= source.Keys
      invariant labels == map k | k in source && k !in pending && source[k].String? :: source[k].text
    {
      var key :| key in pending;
      if source[key].String? {
        labels := labels[key := source[key].text];
      }
      pending := pending - {key};
    }
  }

  method ContainsString(values: array<string>, target: string) returns (found: bool)
    ensures found == (target in values[..])
  {
    for i := 0 to values.Length
      invariant target !in values[..i]
    {
      if values[i] == target {
        assert values[..][i] == target;
        return true;
      }
      assert values[..i + 1] == values[..i] + [values[i]];
    }
    assert values[..values.Length] == values[..];
    return false;
  }

  // ---- scoping ----------------------------------------------------------------

  /** The parsed include and exclude lists of a rule; None where the list is empty. */
  datatype Scope = Scope(included: Option<seq<Path>>, excluded: Option<seq<Path>>)

  function ScopeOf(rule: Rule): Result<Scope, Reason> {
    var included := ParsedAll(rule.includes);
    var excluded := ParsedAll(rule.exclude);
    if rule.includes != [] && included.Err? then Err(IncludeInvalid(included.error))
    else if rule.exclude != [] && excluded.Err? then Err(ExcludeInvalid(excluded.error))
    else Ok(Scope(if rule.includes == [] then None else Some(included.value),
                  if rule.exclude == [] then None else Some(excluded.value)))
  }

  function Included(o: Fields, included: Option<seq<Path>>): Fields {
    match included
    case None => o
    case Some(patterns) => ExtractedObject(o, patterns)
  }

  function Excluded(o: Fields, excluded: Option<seq<Path>>): Fields {
    match excluded
    case None => o
    case Some(patterns) => StrippedObject(o, patterns)
  }

  function Scoped(o: Fields, scope: Scope): Fields {
    Excluded(Included(StrippedObject(o, IMPLICIT), scope.included), scope.excluded)
  }

  method PrepareObjects(oldObj: Fields, newObj: Fields, rule: RuleStruct)
    returns (scopedOld: Fields, scopedNew: Fields, error: Option<Reason>)
    ensures match ScopeOf(ValueOf(rule))
            case Err(e) => error == Some(e)
            case Ok(scope) => error == None && scopedOld == Scoped(oldObj, scope) && scopedNew == Scoped(newObj, scope)
  {
    hide StrippedObject, ExtractedObject, ParsedAll;
    scopedOld := StripObject(oldObj, IMPLICIT);
    scopedNew := StripObject(newObj, IMPLICIT);
    error := None;
    if rule.includes.Length > 0 {
      var includePatterns := ParsePatterns(rule.includes[..]);
      if includePatterns.Err? {
        error := Some(IncludeInvalid(includePatterns.error));
        return;
      }
      scopedOld := ExtractObject(scopedOld, includePatterns.value);
      scopedNew := ExtractObject(scopedNew, includePatterns.value);
    }
    if rule.exclude.Length > 0 {
      var excludePatterns := ParsePatterns(rule.exclude[..]);
      if excludePatterns.Err? {
        error := Some(ExcludeInvalid(excludePatterns.error));
        return;
      }
      scopedOld := StripObject(scopedOld, excludePatterns.value);
      scopedNew := StripObject(scopedNew, excludePatterns.value);
    }
  }

  // ---- bypass removal ------------------------------------------------------------

  function WithoutBypass(o: Fields, key: string): Fields {
    WithoutAnnotation(StrippedObject(o, []), key)
  }

  method DiffWithoutBypassAnnotation(letters: Alphabet, oldObj: Fields, newObj: Fields, rule: RuleStruct)
    returns (result: DiffResult, error: Option<Reason>)
    ensures match ScopeOf(ValueOf(rule))
            case Err(e) => error == Some(e)
            case Ok(scope) =>
              && error == None
              && result == DiffWithoutBypass(letters, ValueOf(rule), oldObj, newObj, scope)
  {
    result := DiffResult(false, []);
    var oldClone := StripObject(oldObj, []);
    var newClone := StripObject(newObj, []);
    var oldWithoutBypass := WithoutAnnotation(oldClone, rule.bypass);
    var newWithoutBypass := WithoutAnnotation(newClone, rule.bypass);
    var scopedOld, scopedNew, failed := PrepareObjects(oldWithoutBypass, newWithoutBypass, rule);
    error := failed;
    if error.None? {
      result := CompareObjects(letters, scopedOld, scopedNew);
    }
  }

  // ---- classification ---------------------------------------------------------------

  /** The changed paths, in order, that match or do not match a mutable pattern. */
  function Classified(changed: seq<string>, patterns: seq<Path>, matching: bool): seq<string> {
    if changed == [] then []
    else
      var last := changed[|changed| - 1];
      Classified(changed[..|changed| - 1], patterns, matching)
        + if TextMatchesSome(last, patterns) == matching then [last] else []
  }

  method PartitionChangedPaths(changedPaths: seq<string>, mutablePatterns: seq<Path>)
    returns (mutableChanged: seq<string>, immutableChanged: seq<string>)
    ensures mutableChanged == Classified(changedPaths, mutablePatterns, true)
    ensures immutableChanged == Classified(changedPaths, mutablePatterns, false)
  {
    mutableChanged, immutableChanged := [], [];
    for i := 0 to |changedPaths|
      invariant mutableChanged == Classified(changedPaths[..i], mutablePatterns, true)
      invariant immutableChanged == Classified(changedPaths[..i], mutablePatterns, false)
    {
      assert changedPaths[..i + 1][..i] == changedPaths[..i];
      var matched := MatchAny(changedPaths[i], mutablePatterns);
      if matched {
        mutableChanged := mutableChanged + [changedPaths[i]];
        continue;
      }
      immutableChanged := immutableChanged + [changedPaths[i]];
    }
    assert changedPaths[..|changedPaths|] == changedPaths;
  }

  // ---- the decision --------------------------------------------------------------------

  /** The outcome for changes that no mutable pattern covers. */
  function Violation(rule: Rule, mode: Mode, changed: seq<string>, denied: seq<string>): Decision {
    if mode == MODE_ENFORCE then
      Decision(false, 403, ImmutableChanged(denied), [], changed, denied, rule.name, mode)
    else if mode == MODE_WARN then
      Decision(true, 0, ImmutableChanged(denied), [ImmutableChanged(denied)], changed, denied, rule.name, mode)
    else if mode == MODE_DRY_RUN then
      Decision(true, 0, WouldDeny(denied), [], changed, denied, rule.name, mode)
    else if mode == MODE_OFF then
      Decision(true, 0, ImmutableChanged(denied), [], changed, denied, rule.name, mode)
    else Fail(rule, 500, UnsupportedMode(mode))
  }

  /** The decision on a scoped diff; `rest` is the diff without the bypass annotation, and
      counts only when the update removes that annotation. */
  function Verdict(rule: Rule, mode: Mode, bypassRemoved: bool, diff: DiffResult, rest: DiffResult): Decision {
    if diff.identical then Allow(NoChanges, [], rule.name, mode)
    else if bypassRemoved then
      if rest.identical then Allow(BypassRemoved, diff.changedPaths, rule.name, mode)
      else Decision(false, 403, BypassRemovalNotAlone, [], diff.changedPaths, rest.changedPaths, rule.name, mode)
    else match ParsedAll(rule.mutable)
      case Err(e) => Fail(rule, 500, MutableInvalid(e))
      case Ok(patterns) =>
        var denied := Classified(diff.changedPaths, patterns, false);
        if denied == [] then Allow(OnlyMutableChanged, diff.changedPaths, rule.name, mode)
        else Violation(rule, mode, diff.changedPaths, denied)
  }

  predicate RemovesBypass(rule: Rule, oldObj: Fields, newObj: Fields) {
    HasTrueAnnotation(oldObj, rule.bypass) && !HasTrueAnnotation(newObj, rule.bypass)
  }

  ghost function ScopedDiff(letters: Alphabet, oldObj: Fields, newObj: Fields, scope: Scope): DiffResult {
    Diff(letters, Scoped(oldObj, scope), Scoped(newObj, scope))
  }

  ghost function DiffWithoutBypass(letters: Alphabet, rule: Rule, oldObj: Fields, newObj: Fields,
                                   scope: Scope): DiffResult {
    ScopedDiff(letters, WithoutBypass(oldObj, rule.bypass), WithoutBypass(newObj, rule.bypass), scope)
  }

  ghost function DecideChanges(letters: Alphabet, rule: Rule, mode: Mode, oldObj: Fields, newObj: Fields,
                               scope: Scope): Decision {
    Verdict(rule, mode, RemovesBypass(rule, oldObj, newObj),
            ScopedDiff(letters, oldObj, newObj, scope), DiffWithoutBypass(letters, rule, oldObj, newObj, scope))
  }

  /** The rule's own mode, unless the namespace overrides it. */
  function EffectiveMode(env: Environment, rule: Rule, namespace: string): Option<Mode> {
    if env.resolver == None || namespace == "" then Some(rule.mode)
    else match env.resolver.value(namespace)
      case ResolveError => None
      case NoOverride => Some(rule.mode)
      case Override(mode) => Some(mode)
  }

  /** What comes before any comparison: an answer, or the mode and scope to compare with. */
  datatype Screened = Answered(decision: Decision) | ToCompare(mode: Mode, scope: Scope)

  function Screening(env: Environment, rule: Rule, req: Request, bypassed: bool): Screened {
    if rule.users != [] && req.username !in rule.users then Answered(Allow(UserNotScoped, [], rule.name, rule.mode))
    else if bypassed then Answered(Allow(BypassPresent, [], rule.name, rule.mode))
    else match EffectiveMode(env, rule, req.namespace)
      case None => Answered(Fail(rule, 500, ResolveFailed))
      case Some(mode) =>
        match ScopeOf(rule)
        case Err(e) => Answered(Fail(rule, 500, e))
        case Ok(scope) => ToCompare(mode, scope)
  }

  ghost function DecideUnderRule(env: Environment, rule: Rule, req: Request, oldObj: Fields, newObj: Fields): Decision {
    match Screening(env, rule, req, HasTrueAnnotation(newObj, rule.bypass))
    case Answered(decision) => decision
    case ToCompare(mode, scope) => DecideChanges(env.letters, rule, mode, oldObj, newObj, scope)
  }

  function InputOf(req: Request, newObj: Fields): MatchInput {
    MatchInput(req.namespace, req.group, req.kind, Labels(newObj))
  }

  ghost function Decide(env: Environment, stored: seq<Rule>, req: Request): Decision {
    if req.operation != "" && req.operation != "UPDATE" then Allow(OperationNotEnforced, [], "", "")
    else match Decoded(req.oldObject)
      case None => Decision(false, 400, InvalidOldObject, [], [], [], "", MODE_OFF)
      case Some(oldObj) =>
        match Decoded(req.newObject)
        case None => Decision(false, 400, InvalidObject, [], [], [], "", MODE_OFF)
        case Some(newObj) =>
          match Selected(env.glob, stored, InputOf(req, newObj))
          case None => Allow(NoMatchingRule, [], "", MODE_OFF)
          case Some(rule) => DecideUnderRule(env, rule, req, oldObj, newObj)
  }

  class Validator {
    const store: Store
    const env: Environment

    constructor (store: Store, env: Environment)
      ensures this.store == store && this.env == env
    {
      this.store, this.env := store, env;
    }

    method Validate(req: Request) returns (decision: Decision)
      requires store.Valid()
      ensures decision == Decide(env, store.Contents(), req)
    {
      if req.operation != "" && req.operation != "UPDATE" {
        return Allow(OperationNotEnforced, [], "", "");
      }
      var oldObj := Decoded(req.oldObject);
      if oldObj.None? {
        return Decision(false, 400, InvalidOldObject, [], [], [], "", MODE_OFF);
      }
      var newObj := Decoded(req.newObject);
      if newObj.None? {
        return Decision(false, 400, InvalidObject, [], [], [], "", MODE_OFF);
      }
      var labels := ExtractLabels(newObj.value);
      var rule := store.Match(env.glob, MatchInput(req.namespace, req.group, req.kind, labels));
      if rule.None? {
        return Allow(NoMatchingRule, [], "", MODE_OFF);
      }
      decision := ValidateUnderRule(rule.value, req, oldObj.value, newObj.value);
    }

    method UserInScope(rule: RuleStruct, username: string) returns (scoped: bool)
      ensures scoped == (rule.users[..] == [] || username in rule.users[..])
    {
      if rule.users.Length == 0 {
        return true;
      }
      scoped := ContainsString(rule.users, username);
    }

    method ResolveMode(rule: RuleStruct, namespace: string) returns (mode: Option<Mode>)
      ensures mode == EffectiveMode(env, ValueOf(rule), namespace)
    {
      mode := Some(rule.mode);
      if env.resolver.Some? && namespace != "" {
        match env.resolver.value(namespace)
        case ResolveError => mode := None;
        case NoOverride =>
        case Override(resolved) => mode := Some(resolved);
      }
    }

    method ValidateUnderRule(rule: RuleStruct, req: Request, oldObj: Fields, newObj: Fields)
      returns (decision: Decision)
      ensures decision == DecideUnderRule(env, ValueOf(rule), req, oldObj, newObj)
    {
      ghost var value := ValueOf(rule);
      var scoped := UserInScope(rule, req.username);
      if !scoped {
        return Allow(UserNotScoped, [], rule.name, rule.mode);
      }
      if HasTrueAnnotation(newObj, rule.bypass) {
        return Allow(BypassPresent, [], rule.name, rule.mode);
      }
      var mode := ResolveMode(rule, req.namespace);
      if mode.None? {
        return Decision(false, 500, ResolveFailed, [], [], [], rule.name, rule.mode);
      }
      decision := ValidateChanges(rule, mode.value, oldObj, newObj);
    }

    method ValidateChanges(rule: RuleStruct, mode: Mode, oldObj: Fields, newObj: Fields) returns (decision: Decision)
      ensures decision
           == match ScopeOf(ValueOf(rule))
              case Err(e) => Fail(ValueOf(rule), 500, e)
              case Ok(scope) => DecideChanges(env.letters, ValueOf(rule), mode, oldObj, newObj, scope)
    {
      hide Scoped, Diff, WithoutBypass, ScopeOf, ParsedAll, Classified, HasTrueAnnotation;
      var scopedOld, scopedNew, error := PrepareObjects(oldObj, newObj, rule);
      if error.Some? {
        return Decision(false, 500, error.value, [], [], [], rule.name, rule.mode);
      }
      var diffResult := CompareObjects(env.letters, scopedOld, scopedNew);
      if diffResult.identical {
        return Allow(NoChanges, [], rule.name, mode);
      }
      if HasTrueAnnotation(oldObj, rule.bypass) && !HasTrueAnnotation(newObj, rule.bypass) {
        var diffWithoutBypass, bypassError := DiffWithoutBypassAnnotation(env.letters, oldObj, newObj, rule);
        if bypassError.Some? {
          // The same lists parsed a moment ago, so the error answer is never given.
          assert false;
        }
        if diffWithoutBypass.identical {
          return Allow(BypassRemoved, diffResult.changedPaths, rule.name, mode);
        }
        return Decision(false, 403, BypassRemovalNotAlone, [], diffResult.changedPaths,
                        diffWithoutBypass.changedPaths, rule.name, mode);
      }
      var mutablePatterns := ParsePatterns(rule.mutable[..]);
      if mutablePatterns.Err? {
        return Decision(false, 500, MutableInvalid(mutablePatterns.error), [], [], [], rule.name, rule.mode);
      }
      var mutableChanged, immutableChanged := PartitionChangedPaths(diffResult.changedPaths, mutablePatterns.value);
      if |immutableChanged| == 0 {
        return Allow(OnlyMutableChanged, diffResult.changedPaths, rule.name, mode);
      }
      decision := Decision(true, 0, ImmutableChanged(immutableChanged), [], diffResult.changedPaths, immutableChanged,
                           rule.name, mode);
      if mode == MODE_ENFORCE {
        decision := decision.(allowed := false, statusCode := 403);
      } else if mode == MODE_WARN {
        decision := decision.(warnings := [ImmutableChanged(immutableChanged)]);
      } else if mode == MODE_DRY_RUN {
        decision := decision.(reason := WouldDeny(immutableChanged));
      } else if mode == MODE_OFF {
      } else {
        return Decision(false, 500, UnsupportedMode(mode), [], [], [], rule.name, rule.mode);
      }
    }
  }
}
