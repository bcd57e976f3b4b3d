/** The decision table of `Validate`: for every request, which answer it gets. */
module DecisionTable {
  import opened Text
  import opened Sorting
  import opened Paths
  import opened Trees
  import opened Compare
  import opened CompareLaws
  import opened Rules
  import opened Admission
  import opened ScopeLaws
  import opened ReportLaws
  import opened DecisionLaws
  import opened AnswerLaws

  // ---- lists of texts ----------------------------------------------------------------------

  /** The positions where the objects part, each once, in some order. */
  ghost predicate Partings(v: Fields, w: Fields, positions: seq<Path>) {
    NoRepeats(positions) && forall q :: q in positions <==> PartsAt(Object(v), Object(w), q)
  }

  /** Sorted texts, one for each position where the objects part. */
  ghost predicate Lists(letters: Alphabet, v: Fields, w: Fields, texts: seq<string>) {
    && Sorted(texts, StringLess)
    && exists positions :: Partings(v, w, positions) && multiset(texts) == multiset(RenderedAll(letters, positions))
  }

  /** The text is not read back as a concrete path that one of the patterns matches. */
  predicate Refused(text: string, patterns: seq<Path>) {
    !(Parsed(text).Ok? && Concrete(Parsed(text).value) && MatchesSome(Parsed(text).value, patterns))
  }

  /** Sorted texts: the refused ones, each as often as in the whole list. */
  ghost predicate ListsRefused(texts: seq<string>, all: seq<string>, patterns: seq<Path>) {
    && Sorted(texts, StringLess)
    && forall x :: multiset(texts)[x] == if Refused(x, patterns) then multiset(all)[x] else 0
  }

  lemma DiffLists(letters: Alphabet, v: Fields, w: Fields)
    ensures Lists(letters, v, w, Diff(letters, v, w).changedPaths)
  {
    var positions := DocumentChanges(v, w);
    CompareExact(v, w);
    SortStringsCorrect(RenderedAll(letters, positions));
    assert Partings(v, w, positions);
  }

  lemma RefusedMeansUnmatched(text: string, patterns: seq<Path>)
    ensures Refused(text, patterns) <==> !TextMatchesSome(text, patterns)
  {
    var r := Parsed(text);
    if r.Ok? && MatchesSome(r.value, patterns) {
      var i :| 0 <= i < |patterns| && Matches(patterns[i], r.value);
      assert forall k :: 0 <= k < |r.value| ==> SegmentsMatch(patterns[i][k], r.value[k]);
    }
  }

  lemma {:induction false} ClassifiedSorted(changed: seq<string>, patterns: seq<Path>)
    requires Sorted(changed, StringLess)
    ensures Sorted(Classified(changed, patterns, false), StringLess)
  {
    hide TextMatchesSome, StringLess;
    if changed != [] {
      var init, last := changed[..|changed| - 1], changed[|changed| - 1];
      ClassifiedSorted(init, patterns);
      ClassifiedContents(init, patterns, false);
      var kept := Classified(init, patterns, false);
      forall i | 0 <= i < |kept| ensures !StringLess(last, kept[i]) {
        assert kept[i] in kept;
        var j :| 0 <= j < |init| && init[j] == kept[i];
        assert changed[j] == kept[i];
      }
    }
  }

  lemma {:induction false} ClassifiedCounts(changed: seq<string>, patterns: seq<Path>, x: string)
    ensures multiset(Classified(changed, patterns, false))[x]
         == if TextMatchesSome(x, patterns) then 0 else multiset(changed)[x]
  {
    hide TextMatchesSome;
    if changed != [] {
      var init, last := changed[..|changed| - 1], changed[|changed| - 1];
      ClassifiedCounts(init, patterns, x);
      assert changed == init + [last];
      assert multiset(changed) == multiset(init) + multiset{last};
    }
  }

  lemma ClassifiedLists(changed: seq<string>, patterns: seq<Path>)
    requires Sorted(changed, StringLess)
    ensures ListsRefused(Classified(changed, patterns, false), changed, patterns)
  {
    hide Refused, TextMatchesSome, StringLess, Classified;
    ClassifiedSorted(changed, patterns);
    var denied := Classified(changed, patterns, false);
    forall x ensures multiset(denied)[x] == if Refused(x, patterns) then multiset(changed)[x] else 0 {
      RefusedMeansUnmatched(x, patterns);
      ClassifiedCounts(changed, patterns, x);
    }
  }

  /** The refused part is empty iff no parting position is refused. */
  lemma NoneRefused(letters: Alphabet, v: Fields, w: Fields, all: seq<string>, patterns: seq<Path>,
                    refused: seq<string>)
    requires Lists(letters, v, w, all) && ListsRefused(refused, all, patterns)
    ensures refused == [] <==>
              forall q :: PartsAt(Object(v), Object(w), q) ==> !Refused(RenderedPath(letters, q), patterns)
  {
    hide Refused, RenderedPath, PartsAt;
    var positions :| Partings(v, w, positions) && multiset(all) == multiset(RenderedAll(letters, positions));
    var texts := RenderedAll(letters, positions);
    if refused != [] {
      assert refused[0] in multiset(refused);
      assert refused[0] in multiset(texts);
      var i :| 0 <= i < |texts| && texts[i] == refused[0];
      assert positions[i] in positions;
    }
    forall q | PartsAt(Object(v), Object(w), q) && refused == [] ensures !Refused(RenderedPath(letters, q), patterns) {
      assert q in positions;
      var i :| 0 <= i < |positions| && positions[i] == q;
      assert texts[i] in multiset(texts);
    }
  }

  // ---- the verdict on two objects ----------------------------------------------------------

  /** No change that the rule sees; with changes, all that is reported about them. */
  ghost predicate Reports(letters: Alphabet, v: Fields, w: Fields, d: Decision, rule: Rule, mode: Mode) {
    Lists(letters, v, w, d.changedPaths) && d.ruleName == rule.name && d.mode == mode
  }

  /** Some change is not covered by the mutable texts. */
  ghost predicate Immutable(letters: Alphabet, v: Fields, w: Fields, mutable: seq<string>)
    requires WellFormed(mutable)
  {
    FirstErrorExact(mutable, EmptyPath);
    exists q :: PartsAt(Object(v), Object(w), q) && Refused(RenderedPath(letters, q), ParsedAll(mutable).value)
  }

  /** The answer to a change that is not covered, mode by mode. */
  ghost predicate Punished(letters: Alphabet, v: Fields, w: Fields, rule: Rule, mode: Mode, d: Decision)
    requires WellFormed(rule.mutable)
  {
    FirstErrorExact(rule.mutable, EmptyPath);
    && (mode in {"enforce", "warn", "dry-run", "off"} ==>
          && Reports(letters, v, w, d, rule, mode)
          && ListsRefused(d.deniedPaths, d.changedPaths, ParsedAll(rule.mutable).value)
          && (d.allowed <==> mode != "enforce")
          && d.statusCode == (if mode == "enforce" then 403 else 0)
          && d.warnings == (if mode == "warn" then [ImmutableChanged(d.deniedPaths)] else [])
          && d.reason == (if mode == "dry-run" then WouldDeny(d.deniedPaths) else ImmutableChanged(d.deniedPaths)))
    && (mode !in {"enforce", "warn", "dry-run", "off"} ==>
          FailsAs(d, 500, UnsupportedMode(mode), rule.name, rule.mode))
  }

  /** The answer once both objects are scoped to `v` and `w`, and without the bypass to
      `v'` and `w'`. */
  ghost predicate Judged(letters: Alphabet, rule: Rule, mode: Mode, removed: bool,
                         v: Fields, w: Fields, v': Fields, w': Fields, d: Decision)
  {
    if v == w then AllowsAs(d, NoChanges, rule.name, mode)
    else if removed then
      && Reports(letters, v, w, d, rule, mode) && d.warnings == []
      && if v' == w' then d.allowed && d.statusCode == 0 && d.reason == BypassRemoved && d.deniedPaths == []
         else !d.allowed && d.statusCode == 403 && d.reason == BypassRemovalNotAlone
              && Lists(letters, v', w', d.deniedPaths)
    else if !WellFormed(rule.mutable) then
      exists error :: FirstError(rule.mutable, error) && FailsAs(d, 500, MutableInvalid(error), rule.name, rule.mode)
    else if !Immutable(letters, v, w, rule.mutable) then
      && Reports(letters, v, w, d, rule, mode)
      && d.allowed && d.statusCode == 0 && d.reason == OnlyMutableChanged && d.warnings == [] && d.deniedPaths == []
    else Punished(letters, v, w, rule, mode, d)
  }

  lemma ViolationExact(letters: Alphabet, v: Fields, w: Fields, rule: Rule, mode: Mode, changed: seq<string>,
                       denied: seq<string>)
    requires WellFormed(rule.mutable) && ParsedAll(rule.mutable).Ok? && Lists(letters, v, w, changed)
    requires ListsRefused(denied, changed, ParsedAll(rule.mutable).value)
    ensures Punished(letters, v, w, rule, mode, Violation(rule, mode, changed, denied))
  {
    hide Lists, ListsRefused, ParsedAll, WellFormed, FirstError;
  }

  lemma VerdictExact(letters: Alphabet, rule: Rule, mode: Mode, removed: bool,
                     v: Fields, w: Fields, v': Fields, w': Fields)
    ensures Judged(letters, rule, mode, removed, v, w, v', w',
                   Verdict(rule, mode, removed, Diff(letters, v, w), Diff(letters, v', w')))
  {
    hide Diff, Lists, ListsRefused, ParsedAll, WellFormed, FirstError, Classified, Punished, Violation, Immutable;
    IdenticalMeansEqual(letters, v, w);
    IdenticalMeansEqual(letters, v', w');
    DiffLists(letters, v, w);
    DiffLists(letters, v', w');
    var parsed := ParsedAll(rule.mutable);
    match parsed {
      case Err(e) => FirstErrorExact(rule.mutable, e);
      case Ok(patterns) =>
        FirstErrorExact(rule.mutable, EmptyPath);
        UncoveredExact(letters, v, w, rule.mutable);
        var changed := Diff(letters, v, w).changedPaths;
        ChangedSorted(letters, v, w);
        ClassifiedLists(changed, patterns);
        ViolationExact(letters, v, w, rule, mode, changed, Classified(changed, patterns, false));
    }
  }

  lemma ChangedSorted(letters: Alphabet, v: Fields, w: Fields)
    ensures Sorted(Diff(letters, v, w).changedPaths, StringLess)
  {
    ChangedTexts(letters, v, w);
  }

  lemma UncoveredExact(letters: Alphabet, v: Fields, w: Fields, mutable: seq<string>)
    requires WellFormed(mutable)
    ensures ParsedAll(mutable).Ok?
    ensures Classified(Diff(letters, v, w).changedPaths, ParsedAll(mutable).value, false) == []
       <==> !Immutable(letters, v, w, mutable)
  {
    hide Diff, Lists, ListsRefused, WellFormed, FirstError, Classified, PartsAt, Refused, ParsedAll;
    FirstErrorExact(mutable, EmptyPath);
    var patterns, changed := ParsedAll(mutable).value, Diff(letters, v, w).changedPaths;
    DiffLists(letters, v, w);
    ChangedSorted(letters, v, w);
    ClassifiedLists(changed, patterns);
    NoneRefused(letters, v, w, changed, patterns, Classified(changed, patterns, false));
  }

  // ---- the table ------------------------------------------------------------------------------

  predicate Admits(rule: Rule, username: string) {
    rule.users != [] ==> username in rule.users
  }

  /** Every answer under a rule. */
  ghost predicate AnswersUnder(env: Environment, rule: Rule, req: Request, oldObj: Fields, newObj: Fields,
                               d: Decision)
  {
    var said := Says(env, req.namespace);
    if !Admits(rule, req.username) then AllowsAs(d, UserNotScoped, rule.name, rule.mode)
    else if Marked(newObj, rule.bypass) then AllowsAs(d, BypassPresent, rule.name, rule.mode)
    else if said.ResolveError? then FailsAs(d, 500, ResolveFailed, rule.name, rule.mode)
    else if !WellFormed(rule.includes) then
      exists error :: FirstError(rule.includes, error) && FailsAs(d, 500, IncludeInvalid(error), rule.name, rule.mode)
    else if !WellFormed(rule.exclude) then
      exists error :: FirstError(rule.exclude, error) && FailsAs(d, 500, ExcludeInvalid(error), rule.name, rule.mode)
    else
      ScopeExact(rule, EmptyPath);
      var scope := ScopeOf(rule).value;
      Judged(env.letters, rule, Governing(rule, said), Marked(oldObj, rule.bypass),
             Scoped(oldObj, scope), Scoped(newObj, scope),
             WithBypassExcluded(oldObj, rule.bypass, scope), WithBypassExcluded(newObj, rule.bypass, scope), d)
  }

  lemma UnderRuleExact(env: Environment, rule: Rule, req: Request, oldObj: Fields, newObj: Fields)
    ensures AnswersUnder(env, rule, req, oldObj, newObj, DecideUnderRule(env, rule, req, oldObj, newObj))
  {
    hide Marked, HasTrueAnnotation, EffectiveMode, Says, ScopeOf, Judged, Verdict, WellFormed, FirstError, Scoped,
      WithBypassExcluded, WithoutBypass, Diff;
    MarkedExact(oldObj, rule.bypass);
    MarkedExact(newObj, rule.bypass);
    EffectiveModeExact(env, rule, req.namespace);
    ScopeExact(rule, EmptyPath);
    match ScopeOf(rule) {
      case Err(IncludeInvalid(e)) => ScopeExact(rule, e); FirstErrorExact(rule.includes, e);
      case Err(ExcludeInvalid(e)) => ScopeExact(rule, e); FirstErrorExact(rule.exclude, e);
      case Ok(scope) =>
        BypassRemovalRefines(oldObj, rule.bypass, scope);
        BypassRemovalRefines(newObj, rule.bypass, scope);
        BypassScoped(oldObj, rule.bypass, scope);
        BypassScoped(newObj, rule.bypass, scope);
        VerdictExact(env.letters, rule, Governing(rule, Says(env, req.namespace)), Marked(oldObj, rule.bypass),
                     Scoped(oldObj, scope), Scoped(newObj, scope),
                     WithBypassExcluded(oldObj, rule.bypass, scope), WithBypassExcluded(newObj, rule.bypass, scope));
    }
  }

  lemma BypassScoped(o: Fields, key: string, scope: Scope)
    ensures Scoped(WithoutBypass(o, key), scope) == WithBypassExcluded(o, key, scope)
  {
    hide Scoped, WithoutBypass;
    BypassRemovalRefines(o, key, scope);
  }

  /** Every answer to every request. */
  lemma DecisionExact(env: Environment, stored: seq<Rule>, req: Request)
    ensures var d := Decide(env, stored, req);
            match CaseOf(env, stored, req)
            case Some(c) => AnswersUnder(env, c.rule, req, c.oldObj, c.newObj, d)
            case None =>
              if !IsUpdate(req) then AllowsAs(d, OperationNotEnforced, "", "")
              else if forall o :: !Names(req.oldObject, o) then FailsAs(d, 400, InvalidOldObject, "", "off")
              else if forall n :: !Names(req.newObject, n) then FailsAs(d, 400, InvalidObject, "", "off")
              else AllowsAs(d, NoMatchingRule, "", "off")
  {
    hide Decide, CaseOf, DecideUnderRule, AnswersUnder, Names;
    DecisionOfCase(env, stored, req);
    match CaseOf(env, stored, req)
    case Some(c) => UnderRuleExact(env, c.rule, req, c.oldObj, c.newObj);
    case None => EarlyAnswers(env, stored, req);
  }

  // ---- what follows from the table ----------------------------------------------------------

  /** A request is allowed iff its answer has no error code, and the codes are these. */
  lemma AllowedExact(env: Environment, stored: seq<Rule>, req: Request)
    ensures var d := Decide(env, stored, req);
            && (d.allowed <==> d.statusCode == 0)
            && d.statusCode in {0, 400, 403, 500}
            && (d.statusCode == 400 <==>
                  && IsUpdate(req)
                  && ((forall o :: !Names(req.oldObject, o)) || forall n :: !Names(req.newObject, n)))
  {
    hide Decide, CaseOf, AnswersUnder, Names, Concerns, RanksFirst;
    DecisionExact(env, stored, req);
    CaseExact(env, stored, req);
    match CaseOf(env, stored, req)
    case None =>
    case Some(c) => CodesUnder(env, c.rule, req, c.oldObj, c.newObj, Decide(env, stored, req));
  }

  lemma CodesUnder(env: Environment, rule: Rule, req: Request, oldObj: Fields, newObj: Fields, d: Decision)
    requires AnswersUnder(env, rule, req, oldObj, newObj, d)
    ensures d.allowed <==> d.statusCode == 0
    ensures d.statusCode in {0, 403, 500}
    ensures d.reason == BypassPresent <==> Admits(rule, req.username) && Marked(newObj, rule.bypass)
  {
    hide Marked, Says, ScopeOf, Scoped, WithBypassExcluded, WellFormed, FirstError, Lists, ListsRefused, Immutable,
      Reports;
  }

  /** The bypass is the reason iff a rule is selected, its users admit the request, and the
      new object is marked with the rule's key. */
  lemma BypassExact(env: Environment, stored: seq<Rule>, req: Request)
    ensures Decide(env, stored, req).reason == BypassPresent
       <==> && CaseOf(env, stored, req).Some?
            && var c := CaseOf(env, stored, req).value;
               Admits(c.rule, req.username) && Marked(c.newObj, c.rule.bypass)
  {
    hide Decide, CaseOf, AnswersUnder, Names, Marked;
    DecisionExact(env, stored, req);
    match CaseOf(env, stored, req)
    case None =>
    case Some(c) => CodesUnder(env, c.rule, req, c.oldObj, c.newObj, Decide(env, stored, req));
  }

  /** The update is compared: the user is admitted, the new object carries no bypass, the
      namespace is looked up without an error and the scope of the rule is well-formed. */
  ghost predicate Compared(env: Environment, rule: Rule, req: Request, newObj: Fields) {
    && Admits(rule, req.username) && !Marked(newObj, rule.bypass) && !Says(env, req.namespace).ResolveError?
    && WellFormed(rule.includes) && WellFormed(rule.exclude)
  }

  /** The rule sees a change that no mutable text covers, and no bypass is removed. */
  ghost predicate Breaks(env: Environment, rule: Rule, req: Request, oldObj: Fields, newObj: Fields) {
    && Compared(env, rule, req, newObj) && !Marked(oldObj, rule.bypass) && WellFormed(rule.mutable)
    && (ScopeExact(rule, EmptyPath);
        var scope := ScopeOf(rule).value;
        Immutable(env.letters, Scoped(oldObj, scope), Scoped(newObj, scope), rule.mutable))
  }

  /** The bypass is removed together with something else that the rule sees. */
  ghost predicate RemovesMore(env: Environment, rule: Rule, req: Request, oldObj: Fields, newObj: Fields) {
    && Compared(env, rule, req, newObj) && Marked(oldObj, rule.bypass)
    && (ScopeExact(rule, EmptyPath);
        var scope := ScopeOf(rule).value;
        && Scoped(oldObj, scope) != Scoped(newObj, scope)
        && WithBypassExcluded(oldObj, rule.bypass, scope) != WithBypassExcluded(newObj, rule.bypass, scope))
  }

  lemma EqualNeverParts(letters: Alphabet, v: Fields, mutable: seq<string>)
    requires WellFormed(mutable)
    ensures !Immutable(letters, v, v, mutable)
  {
  }

  lemma DeniedUnderRule(env: Environment, rule: Rule, req: Request, oldObj: Fields, newObj: Fields, d: Decision)
    requires AnswersUnder(env, rule, req, oldObj, newObj, d)
    ensures !d.allowed && d.statusCode == 403 <==>
              || RemovesMore(env, rule, req, oldObj, newObj)
              || (Breaks(env, rule, req, oldObj, newObj) && Governing(rule, Says(env, req.namespace)) == "enforce")
  {
    hide Marked, Says, ScopeOf, Scoped, WithBypassExcluded, WellFormed, FirstError, Lists, ListsRefused, Immutable,
      Reports;
    if Breaks(env, rule, req, oldObj, newObj) {
      ScopeExact(rule, EmptyPath);
      EqualNeverParts(env.letters, Scoped(oldObj, ScopeOf(rule).value), rule.mutable);
    }
  }

  /** The denial of any request, said of its texts and objects: the rule that concerns it
      and ranks first admits the user, the new object is not marked, and either a bypass is
      removed with something else, or an uncovered change meets the mode enforce. */
  lemma DenialInPlainTerms(env: Environment, stored: seq<Rule>, req: Request)
    ensures var d := Decide(env, stored, req);
            !d.allowed && d.statusCode == 403 <==>
              && CaseOf(env, stored, req).Some?
              && var c := CaseOf(env, stored, req).value;
                 || RemovesMore(env, c.rule, req, c.oldObj, c.newObj)
                 || (&& Breaks(env, c.rule, req, c.oldObj, c.newObj)
                     && Governing(c.rule, Says(env, req.namespace)) == "enforce")
  {
    hide Decide, CaseOf, AnswersUnder, Names, Breaks, RemovesMore, Says;
    DecisionExact(env, stored, req);
    match CaseOf(env, stored, req)
    case None =>
    case Some(c) => DeniedUnderRule(env, c.rule, req, c.oldObj, c.newObj, Decide(env, stored, req));
  }

  /** What an uncovered change leads to, mode by mode. */
  ghost predicate Treated(env: Environment, rule: Rule, mode: Mode, c: Case, d: Decision) {
    && d.ruleName == rule.name && d.mode == mode
    && (d.allowed <==> mode != "enforce")
    && (d.warnings != [] <==> mode == "warn")
    && (d.reason.WouldDeny? <==> mode == "dry-run")
    && (d.reason.ImmutableChanged? <==> mode != "dry-run")
    && WellFormed(rule.mutable) && WellFormed(rule.includes) && WellFormed(rule.exclude)
    && (ScopeExact(rule, EmptyPath);
        var scope := ScopeOf(rule).value;
        Lists(env.letters, Scoped(c.oldObj, scope), Scoped(c.newObj, scope), d.changedPaths))
    && (FirstErrorExact(rule.mutable, EmptyPath);
        ListsRefused(d.deniedPaths, d.changedPaths, ParsedAll(rule.mutable).value))
  }

  lemma BreaksTreated(env: Environment, rule: Rule, req: Request, c: Case, d: Decision)
    requires AnswersUnder(env, rule, req, c.oldObj, c.newObj, d)
    requires Breaks(env, rule, req, c.oldObj, c.newObj)
    ensures var mode := Governing(rule, Says(env, req.namespace));
            mode in {"enforce", "warn", "dry-run", "off"} ==> Treated(env, rule, mode, c, d)
  {
    hide Marked, Says, ScopeOf, Scoped, WithBypassExcluded, WellFormed, FirstError, Lists, ListsRefused, Immutable,
      ParsedAll;
    ScopeExact(rule, EmptyPath);
    FirstErrorExact(rule.mutable, EmptyPath);
    EqualNeverParts(env.letters, Scoped(c.oldObj, ScopeOf(rule).value), rule.mutable);
  }

  /** An uncovered change is denied, warned of, reported or let through as the mode says;
      the denied paths are those of its changed paths that no mutable text covers. */
  lemma BreachTreated(env: Environment, stored: seq<Rule>, req: Request)
    requires CaseOf(env, stored, req).Some?
    ensures var c := CaseOf(env, stored, req).value;
            var mode := Governing(c.rule, Says(env, req.namespace));
            Breaks(env, c.rule, req, c.oldObj, c.newObj) && mode in {"enforce", "warn", "dry-run", "off"} ==>
              Treated(env, c.rule, mode, c, Decide(env, stored, req))
  {
    hide Decide, CaseOf, AnswersUnder, Names, Breaks, Says, Treated;
    DecisionExact(env, stored, req);
    var c := CaseOf(env, stored, req).value;
    if Breaks(env, c.rule, req, c.oldObj, c.newObj) {
      BreaksTreated(env, c.rule, req, c, Decide(env, stored, req));
    }
  }

  /** Where the namespace overrides the mode, an uncovered change is treated as the override
      says, whatever the rule's own mode. */
  lemma OverrideGoverns(env: Environment, stored: seq<Rule>, req: Request, mode: Mode)
    requires env.resolver.Some? && req.namespace != "" && env.resolver.value(req.namespace) == Override(mode)
    requires CaseOf(env, stored, req).Some? && mode in {"enforce", "warn", "dry-run", "off"}
    ensures var c := CaseOf(env, stored, req).value;
            Breaks(env, c.rule, req, c.oldObj, c.newObj) ==> Treated(env, c.rule, mode, c, Decide(env, stored, req))
  {
    hide Decide, CaseOf, Breaks, Treated;
    BreachTreated(env, stored, req);
  }
}
