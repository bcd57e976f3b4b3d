/** Every answer of `Validate`: when it is given, and what it says. */
module AnswerLaws {
  import opened Text
  import opened TextLaws
  import opened Paths
  import opened Trees
  import opened Extract
  import opened Rules
  import opened RuleLaws
  import opened Admission
  import opened ScopeLaws
  import opened DecisionLaws

  // ---- reading a request ----------------------------------------------------------------

  /** The message stands for the object: nothing and null stand for the empty one. */
  predicate Names(raw: Raw, o: Fields) {
    || raw == Document(Object(o))
    || (o == map[] && (raw == Absent || raw == Document(Null)))
  }

  lemma DecodedExact(raw: Raw, o: Fields)
    ensures Decoded(raw) == Some(o) <==> Names(raw, o)
  {
  }

  predicate Labelled(o: Fields, key: string, value: string) {
    Lookup(Object(o), [Field("metadata"), Field("labels"), Field(key)]) == Some(String(value))
  }

  lemma LookupThree(o: Fields, a: string, b: string, c: string)
    ensures Lookup(Object(o), [Field(a), Field(b), Field(c)])
         == match MapAt(o, a)
            case None => None
            case Some(m) =>
              match MapAt(m, b)
              case None => None
              case Some(n) => Child(Object(n), Field(c))
  {
    var p := [Field(a), Field(b), Field(c)];
    assert p[1..] == [Field(b), Field(c)] && p[1..][1..] == [Field(c)];
    if a in o && o[a].Object? {
      var m := o[a].fields;
      if b in m {
        LookupStep(m[b], Field(c));
      }
    }
  }

  /** The labels of an object are the texts below its metadata. */
  lemma LabelsExact(o: Fields, key: string, value: string)
    ensures key in Labels(o) && Labels(o)[key] == value <==> Labelled(o, key, value)
  {
    LookupThree(o, "metadata", "labels", key);
  }

  /** The annotation is the boolean true, or a text that says so. */
  ghost predicate Marked(o: Fields, key: string) {
    match Lookup(Object(o), [Field("metadata"), Field("annotations"), Field(key)])
    case Some(Bool(flag)) => flag
    case Some(String(text)) => SaysTrue(text)
    case _ => false
  }

  lemma MarkedExact(o: Fields, key: string)
    ensures HasTrueAnnotation(o, key) <==> Marked(o, key)
  {
    hide SaysTrue, IsTrueText;
    LookupThree(o, "metadata", "annotations", key);
    match Annotations(o)
    case None =>
    case Some(annotations) =>
      if key in annotations && annotations[key].String? {
        IsTrueTextExact(annotations[key].text);
      }
  }

  // ---- the selected rule ---------------------------------------------------------------------

  predicate IsUpdate(req: Request) {
    req.operation == "" || req.operation == "UPDATE"
  }

  /** The label asked for stands on the object. */
  ghost predicate OnObject(o: Fields, key: string, value: Option<string>) {
    key != "" && exists text :: Labelled(o, key, text) && (value.Some? ==> text == value.value)
  }

  ghost predicate AskedOf(selector: string, o: Fields) {
    exists key, value :: Asks(selector, key, value) && OnObject(o, key, value)
  }

  /** The rule covers the request: its namespace, its group and kind, and the labels of its
      new object. */
  ghost predicate Concerns(glob: Glob, rule: Rule, req: Request, newObj: Fields) {
    && Globbed(glob, rule.namespaces, req.namespace)
    && Selects(rule.selectors, req.group, req.kind)
    && forall selector :: selector in rule.labels ==> AskedOf(selector, newObj)
  }

  lemma OnObjectExact(o: Fields, key: string, value: Option<string>)
    ensures HasLabel(Labels(o), key, value) <==> OnObject(o, key, value)
  {
    hide Labels, Labelled;
    if key in Labels(o) {
      LabelsExact(o, key, Labels(o)[key]);
    }
    forall text | Labelled(o, key, text) ensures key in Labels(o) && Labels(o)[key] == text {
      LabelsExact(o, key, text);
    }
  }

  lemma ConcernsExact(glob: Glob, rule: Rule, req: Request, newObj: Fields)
    ensures Covers(glob, rule, InputOf(req, newObj)) <==> Concerns(glob, rule, req, newObj)
  {
    hide Globbed, Selects, Labels, HasLabel, OnObject, Asks;
    forall key, value ensures HasLabel(Labels(newObj), key, value) <==> OnObject(newObj, key, value) {
      OnObjectExact(newObj, key, value);
    }
    forall selector ensures Met(selector, Labels(newObj)) <==> AskedOf(selector, newObj) {
      if Met(selector, Labels(newObj)) {
        var key, value :| Asks(selector, key, value) && HasLabel(Labels(newObj), key, value);
        assert OnObject(newObj, key, value);
      }
      if AskedOf(selector, newObj) {
        var key, value :| Asks(selector, key, value) && OnObject(newObj, key, value);
        assert HasLabel(Labels(newObj), key, value);
      }
    }
  }

  /** What is compared: an update of two objects under the stored rule that concerns it and
      ranks first among those that do. */
  lemma CaseExact(env: Environment, stored: seq<Rule>, req: Request)
    ensures match CaseOf(env, stored, req)
            case Some(c) =>
              && IsUpdate(req) && Names(req.oldObject, c.oldObj) && Names(req.newObject, c.newObj)
              && c.rule in stored && Concerns(env.glob, c.rule, req, c.newObj)
              && forall r :: r in stored && Concerns(env.glob, r, req, c.newObj) ==> RanksFirst(c.rule, r)
            case None =>
              forall o, n :: IsUpdate(req) && Names(req.oldObject, o) && Names(req.newObject, n) ==>
                forall r :: r in stored ==> !Concerns(env.glob, r, req, n)
  {
    hide Selected, Covers, Concerns, Labels, RanksFirst;
    forall o ensures Decoded(req.oldObject) == Some(o) <==> Names(req.oldObject, o) {
      DecodedExact(req.oldObject, o);
    }
    forall n ensures Decoded(req.newObject) == Some(n) <==> Names(req.newObject, n) {
      DecodedExact(req.newObject, n);
    }
    if Decoded(req.newObject).Some? {
      var n := Decoded(req.newObject).value;
      SelectedCovers(env.glob, stored, InputOf(req, n));
      forall r ensures Covers(env.glob, r, InputOf(req, n)) <==> Concerns(env.glob, r, req, n) {
        ConcernsExact(env.glob, r, req, n);
      }
    }
  }

  // ---- early answers -----------------------------------------------------------------------------

  /** A plain allow, without changes. */
  predicate AllowsAs(d: Decision, reason: Reason, ruleName: string, mode: string) {
    d == Decision(true, 0, reason, [], [], [], ruleName, mode)
  }

  predicate FailsAs(d: Decision, code: int, reason: Reason, ruleName: string, mode: string) {
    d == Decision(false, code, reason, [], [], [], ruleName, mode)
  }

  /** The answers given before any rule is looked at. */
  lemma EarlyAnswers(env: Environment, stored: seq<Rule>, req: Request)
    requires CaseOf(env, stored, req).None?
    ensures var d := Decide(env, stored, req);
            if !IsUpdate(req) then AllowsAs(d, OperationNotEnforced, "", "")
            else if forall o :: !Names(req.oldObject, o) then FailsAs(d, 400, InvalidOldObject, "", "off")
            else if forall n :: !Names(req.newObject, n) then FailsAs(d, 400, InvalidObject, "", "off")
            else AllowsAs(d, NoMatchingRule, "", "off")
  {
    hide Selected, DecideUnderRule, Labels, Names;
    forall o ensures Decoded(req.oldObject) == Some(o) <==> Names(req.oldObject, o) {
      DecodedExact(req.oldObject, o);
    }
    forall n ensures Decoded(req.newObject) == Some(n) <==> Names(req.newObject, n) {
      DecodedExact(req.newObject, n);
    }
  }

  // ---- modes --------------------------------------------------------------------------------------

  /** What the namespace of a request says about the mode. */
  function Says(env: Environment, namespace: string): Resolution {
    if env.resolver.Some? && namespace != "" then env.resolver.value(namespace) else NoOverride
  }

  /** An override governs; without one the rule's own mode does; none does after an error. */
  lemma EffectiveModeExact(env: Environment, rule: Rule, namespace: string)
    ensures match Says(env, namespace)
            case Override(m) => EffectiveMode(env, rule, namespace) == Some(m)
            case NoOverride => EffectiveMode(env, rule, namespace) == Some(rule.mode)
            case ResolveError => EffectiveMode(env, rule, namespace) == None
  {
  }

  function Governing(rule: Rule, said: Resolution): Mode {
    match said
    case Override(m) => m
    case _ => rule.mode
  }

  // ---- scope --------------------------------------------------------------------------------------

  /** Every text of the list parses. */
  predicate WellFormed(texts: seq<string>) {
    forall text :: text in texts ==> Parsed(text).Ok?
  }

  /** The error of the first text that does not parse. */
  ghost predicate FirstError(texts: seq<string>, error: PathError) {
    exists i :: 0 <= i < |texts| && WellFormed(texts[..i]) && Parsed(texts[i]) == Err(error)
  }

  lemma FirstErrorSnoc(init: seq<string>, last: string, error: PathError)
    ensures WellFormed(init + [last]) <==> WellFormed(init) && Parsed(last).Ok?
    ensures FirstError(init + [last], error) <==>
              FirstError(init, error) || (WellFormed(init) && Parsed(last) == Err(error))
  {
    hide Parsed;
    var texts := init + [last];
    if FirstError(init, error) {
      var i :| 0 <= i < |init| && WellFormed(init[..i]) && Parsed(init[i]) == Err(error);
      assert texts[..i] == init[..i];
    }
    if FirstError(texts, error) {
      var i :| 0 <= i < |texts| && WellFormed(texts[..i]) && Parsed(texts[i]) == Err(error);
      assert i < |init| ==> init[..i] == texts[..i];
      assert i == |init| ==> init == texts[..i];
    }
    assert texts[..|init|] == init;
  }

  lemma NothingParses(error: PathError)
    ensures WellFormed([]) && !FirstError([], error) && ParsedAll([]) == Ok([])
  {
  }

  lemma {:induction false} FirstErrorExact(texts: seq<string>, error: PathError)
    ensures ParsedAll(texts).Ok? <==> WellFormed(texts)
    ensures ParsedAll(texts) == Err(error) <==> FirstError(texts, error)
  {
    hide Parsed, WellFormed, FirstError;
    if texts == [] {
      NothingParses(error);
    } else {
      var init, last := texts[..|texts| - 1], texts[|texts| - 1];
      FirstErrorExact(init, error);
      FirstErrorSnoc(init, last, error);
      assert texts == init + [last];
    }
  }

  /** Where a rule looks, by the texts of its lists: under no implicit field, in the scope of
      its includes if it has any, and under none of its excludes. */
  ghost predicate LooksAt(rule: Rule, p: Path)
    requires WellFormed(rule.includes) && WellFormed(rule.exclude)
  {
    FirstErrorExact(rule.includes, EmptyPath);
    FirstErrorExact(rule.exclude, EmptyPath);
    && !Covered(p, IMPLICIT)
    && (rule.includes != [] ==> InScope(p, ParsedAll(rule.includes).value))
    && !Covered(p, ParsedAll(rule.exclude).value)
  }

  /** The scope of a rule is what its lists say; a malformed include is reported before a
      malformed exclude. */
  lemma ScopeExact(rule: Rule, error: PathError)
    ensures ScopeOf(rule) == Err(IncludeInvalid(error)) <==> FirstError(rule.includes, error)
    ensures ScopeOf(rule) == Err(ExcludeInvalid(error)) <==>
              WellFormed(rule.includes) && FirstError(rule.exclude, error)
    ensures ScopeOf(rule).Err? ==> ScopeOf(rule).error.IncludeInvalid? || ScopeOf(rule).error.ExcludeInvalid?
    ensures ScopeOf(rule).Ok? <==> WellFormed(rule.includes) && WellFormed(rule.exclude)
  {
    hide Parsed;
    FirstErrorExact(rule.includes, error);
    FirstErrorExact(rule.exclude, error);
  }

  lemma ScopeSees(rule: Rule, p: Path)
    requires ScopeOf(rule).Ok?
    ensures WellFormed(rule.includes) && WellFormed(rule.exclude)
    ensures RuleSees(p, ScopeOf(rule).value) <==> LooksAt(rule, p)
  {
    hide Parsed;
    ScopeExact(rule, EmptyPath);
    CoveredByNothing(p);
  }

  lemma CoveredByNothing(p: Path)
    ensures !Covered(p, []) && ParsedAll([]) == Ok([])
  {
  }

  lemma JoinedTo(name: string, i: nat)
    requires i < |MAINTAINED| && MAINTAINED[i] == name
    ensures MetadataTexts(MAINTAINED)[i] == "metadata." + name
  {
  }

  /** The seven implicit texts. */
  lemma ImplicitTexts()
    ensures IMPLICIT_EXCLUDES
         == ["status", "metadata.managedFields", "metadata.resourceVersion", "metadata.generation", "metadata.uid",
             "metadata.creationTimestamp", "metadata.selfLink"]
  {
    hide MetadataTexts;
    JoinedTo("managedFields", 0);
    JoinedTo("resourceVersion", 1);
    JoinedTo("generation", 2);
    JoinedTo("uid", 3);
    JoinedTo("creationTimestamp", 4);
    JoinedTo("selfLink", 5);
    assert "metadata." + "managedFields" == "metadata.managedFields";
    assert "metadata." + "resourceVersion" == "metadata.resourceVersion";
    assert "metadata." + "generation" == "metadata.generation";
    assert "metadata." + "uid" == "metadata.uid";
    assert "metadata." + "creationTimestamp" == "metadata.creationTimestamp";
    assert "metadata." + "selfLink" == "metadata.selfLink";
  }
}
