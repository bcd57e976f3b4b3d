/** Keys with single quotes: why the guarantees about decisions set them apart. */
module QuotedKeys {
  import opened Text
  import opened Paths
  import opened PathText
  import opened Trees
  import opened Compare
  import opened CompareLaws
  import opened Rules
  import opened Admission
  import opened ScopeLaws
  import opened ReportLaws
  import opened DriftExact
  import opened DecisionLaws

  const KEY: string := "a'].b"
  const KEY_TEXT: string := "['a\\'].b']"
  const TWO_STEPS: seq<Path> := [[FieldWildcard, FieldWildcard]]

  lemma KeyQuoted()
    ensures Quoted("a'].b") == "['a\\'].b']"
  {
    EscapeUnquoted("].b");
    assert "'].b"[1..] == "].b";
    assert Escape("'].b") == "\\'" + "].b";
    assert "a'].b"[1..] == "'].b";
    assert Escape("a'].b") == "a" + Escape("'].b");
  }

  lemma KeyRendered(letters: Alphabet)
    ensures RenderedPath(letters, [Field(KEY)]) == KEY_TEXT
  {
    assert !IsBareCharacter(letters, KEY[1]);
    RenderedKey(letters, KEY);
    KeyQuoted();
  }

  lemma KeyTextParsed()
    ensures Parsed(KEY_TEXT) == Ok([Field("a\\"), Field("b']")])
  {
    var text := KEY_TEXT;
    TrimSpaceKeeps(text);
    IndexOfUnique(text, '\'', 2, 4);
    assert text[2..4] == "a\\" && text[6..] == ".b']";
    DotSkipped("b']");
    TokenParsed("b']", "");
    assert "." + "b']" == ".b']" && "b']" + "" == "b']";
    assert [Field("b']")] + [] == [Field("b']")];
    assert Segments(".b']") == Ok([Field("b']")]);
    assert Bracket(text) == Ok(Scanned(Field("a\\"), 6));
    assert [Field("a\\")] + [Field("b']")] == [Field("a\\"), Field("b']")];
  }

  /** The printed position of this key reads back as a two-step path, so a pattern for
      two-step paths takes it for mutable. */
  lemma KeyMisclassified(letters: Alphabet)
    ensures TextMatchesSome(RenderedPath(letters, [Field(KEY)]), TWO_STEPS)
    ensures !MatchesSome([Field(KEY)], TWO_STEPS)
  {
    hide Parsed, RenderedPath;
    KeyRendered(letters);
    KeyTextParsed();
    assert Matches(TWO_STEPS[0], [Field("a\\"), Field("b']")]);
  }

  lemma TwoStepsParsed()
    ensures ParsedAll(["*.*"]) == Ok(TWO_STEPS)
  {
    TrimSpaceKeeps("*.*");
    TokenParsed("*", "");
    DotSkipped("*");
    TokenParsed("*", ".*");
    assert "*" + "" == "*" && "." + "*" == ".*" && "*" + ".*" == "*.*";
    assert [FieldWildcard] + [] == [FieldWildcard];
    assert [FieldWildcard] + [FieldWildcard] == [FieldWildcard, FieldWildcard];
    ParsedAllOf(["*.*"], TWO_STEPS);
  }

  /** A document with one flag. */
  function Flagged(key: string, flag: bool): Fields {
    map[key := Bool(flag)]
  }

  lemma FlaggedPositions(key: string, flag: bool, p: Path)
    requires p != [] && Lookup(Object(Flagged(key, flag)), p).Some?
    ensures p == [Field(key)]
  {
    assert p == [p[0]] + p[1..];
  }

  lemma FlaggedScoped(key: string, flag: bool)
    requires key != "status"
    ensures RuleSees([Field(key)], Scope(None, None))
    ensures Leaf(Object(Scoped(Flagged(key, flag), Scope(None, None))), [Field(key)]) == Some(Bool(flag))
  {
    var p := [Field(key)];
    forall n | 0 <= n <= |p| ensures !MatchesSome(p[..n], IMPLICIT) {
      forall i | 0 <= i < |IMPLICIT| ensures !Matches(IMPLICIT[i], p[..n]) {
        assert i == 0 ==> !SegmentsMatch(IMPLICIT[0][0], p[0]);
      }
    }
    ScopedLeaves(Flagged(key, flag), Scope(None, None), p);
    LookupStep(Object(Flagged(key, flag)), Field(key));
  }

  lemma FlagsDiffer(letters: Alphabet, key: string)
    requires key != "status"
    ensures !ScopedDiff(letters, Flagged(key, true), Flagged(key, false), Scope(None, None)).identical
  {
    FlaggedScoped(key, true);
    FlaggedScoped(key, false);
    IdenticalMeansEqual(letters, Scoped(Flagged(key, true), Scope(None, None)),
                        Scoped(Flagged(key, false), Scope(None, None)));
  }

  lemma FlaggedUnannotated(key: string, flag: bool, bypass: string)
    requires key != "status"
    ensures !HasTrueAnnotation(Flagged(key, flag), bypass)
  {
  }

  lemma OnlyKeyReported(letters: Alphabet, key: string, patterns: seq<Path>)
    requires TextMatchesSome(RenderedPath(letters, [Field(key)]), patterns)
    ensures Classified(ScopedDiff(letters, Flagged(key, true), Flagged(key, false), Scope(None, None)).changedPaths,
                       patterns, false) == []
  {
    var scope := Scope(None, None);
    var v, w := Scoped(Flagged(key, true), scope), Scoped(Flagged(key, false), scope);
    var changed := ScopedDiff(letters, Flagged(key, true), Flagged(key, false), scope).changedPaths;
    var denied := Classified(changed, patterns, false);
    assert denied == [] || denied[0] in denied;
    ChangedTexts(letters, v, w);
    ClassifiedContents(changed, patterns, false);
    forall text | text in changed ensures TextMatchesSome(text, patterns) {
      var q :| PartsAt(Object(v), Object(w), q) && text == RenderedPath(letters, q);
      ReportedBelowRoot(v, w, q);
      ReportedPresent(Object(v), Object(w), q);
      if Lookup(Object(v), q).Some? {
        ScopedPositions(Flagged(key, true), scope, q);
        FlaggedPositions(key, true, q);
      } else {
        ScopedPositions(Flagged(key, false), scope, q);
        FlaggedPositions(key, false, q);
      }
    }
  }

  lemma FlagAllowed(letters: Alphabet, rule: Rule, mode: Mode, key: string)
    requires key != "status" && ParsedAll(rule.mutable).Ok?
    requires TextMatchesSome(RenderedPath(letters, [Field(key)]), ParsedAll(rule.mutable).value)
    ensures var d := DecideChanges(letters, rule, mode, Flagged(key, true), Flagged(key, false), Scope(None, None));
            d.allowed && d.reason == OnlyMutableChanged
  {
    hide TextMatchesSome, ParsedAll, HasTrueAnnotation, Verdict, ScopedDiff, DiffWithoutBypass;
    var o, n, scope := Flagged(key, true), Flagged(key, false), Scope(None, None);
    FlagsDiffer(letters, key);
    OnlyKeyReported(letters, key, ParsedAll(rule.mutable).value);
    FlaggedUnannotated(key, true, rule.bypass);
    var diff, rest := ScopedDiff(letters, o, n, scope), DiffWithoutBypass(letters, rule, o, n, scope);
    VerdictCases(rule, mode, false, diff, rest);
    MutableAllowed(rule, mode, false, diff, rest);
  }

  lemma MutableAllowed(rule: Rule, mode: Mode, removed: bool, diff: DiffResult, rest: DiffResult)
    ensures var d := Verdict(rule, mode, removed, diff, rest); d.reason == OnlyMutableChanged ==> d.allowed
  {
  }

  /** The update of one flag, and a rule that compares it whole. */
  predicate FlagUpdate(env: Environment, stored: seq<Rule>, req: Request, rule: Rule, key: string) {
    && (req.operation == "" || req.operation == "UPDATE")
    && req.oldObject == Document(Object(Flagged(key, true))) && req.newObject == Document(Object(Flagged(key, false)))
    && Selected(env.glob, stored, InputOf(req, Flagged(key, false))) == Some(rule)
    && rule.users == [] && rule.includes == [] && rule.exclude == []
    && EffectiveMode(env, rule, req.namespace).Some?
  }

  /** Such requests exist for every key and mutable list: one rule that matches everything,
      asked about itself. */
  lemma FlagUpdatePossible(letters: Alphabet, key: string, mutable: seq<string>)
    returns (env: Environment, req: Request, rule: Rule)
    ensures env.letters == letters && rule.mutable == mutable
    ensures FlagUpdate(env, [rule], req, rule, key)
  {
    hide Labels, Selected, RuleMatches;
    env := Environment(letters, (pattern, name) => Some(true), None);
    rule := Rule("rule", "default", 0, MODE_ENFORCE, ["*"], [ResourceSelector("", "ConfigMap")], [], [], [], mutable,
                 [], DEFAULT_BYPASS_ANNOTATION);
    req := Request("UPDATE", "default", "", "ConfigMap", "user", Document(Object(Flagged(key, true))),
                   Document(Object(Flagged(key, false))));
    var input := InputOf(req, Flagged(key, false));
    MatchesAll(env.glob, rule, input);
    OnlyRuleSelected(env.glob, rule, input);
  }

  lemma MatchesAll(glob: Glob, rule: Rule, input: MatchInput)
    requires rule.namespaces == ["*"] && glob("*", input.namespace) == Some(true)
    requires rule.selectors == [ResourceSelector(input.apiGroup, input.kind)] && rule.labels == []
    ensures RuleMatches(glob, rule, input)
  {
    assert glob(rule.namespaces[0], input.namespace) == Some(true);
  }

  lemma OnlyRuleSelected(glob: Glob, rule: Rule, input: MatchInput)
    requires RuleMatches(glob, rule, input)
    ensures Selected(glob, [rule], input) == Some(rule)
  {
    hide RuleMatches, StringLess;
    assert [rule][..0] == [];
    assert SortRules([rule]) == [rule];
  }

  lemma FlagDecided(env: Environment, stored: seq<Rule>, req: Request, rule: Rule, key: string)
    requires key != "status" && FlagUpdate(env, stored, req, rule, key)
    ensures CaseOf(env, stored, req) == Some(Case(rule, Flagged(key, true), Flagged(key, false)))
    ensures ScopeOf(rule) == Ok(Scope(None, None))
    ensures Decide(env, stored, req)
         == DecideChanges(env.letters, rule, EffectiveMode(env, rule, req.namespace).value,
                          Flagged(key, true), Flagged(key, false), Scope(None, None))
  {
    hide Selected, DecideChanges, HasTrueAnnotation, EffectiveMode, Labels, Flagged, DecideUnderRule;
    DecisionOfCase(env, stored, req);
    FlaggedUnannotated(key, false, rule.bypass);
    ExaminedDecision(env, rule, req, Flagged(key, true), Flagged(key, false));
  }

  /** Without the restriction to quote-free keys the guarantee fails: here the only change
      of a request is taken for mutable, and the request allowed, although the rule looks at
      it and no mutable pattern covers it. */
  lemma DriftBehindQuotedKey(env: Environment, stored: seq<Rule>, req: Request, rule: Rule)
    requires FlagUpdate(env, stored, req, rule, KEY) && rule.mutable == ["*.*"]
    ensures Decide(env, stored, req).allowed && Decide(env, stored, req).reason == OnlyMutableChanged
    ensures Drifts(Flagged(KEY, true), Flagged(KEY, false), Scope(None, None), [Field(KEY)])
    ensures ParsedAll(rule.mutable) == Ok(TWO_STEPS) && !Covered([Field(KEY)], TWO_STEPS)
  {
    hide TextMatchesSome, DecideChanges, Decide, Selected, EffectiveMode, Flagged, Leaf, RuleSees, ParsedAll, Covered;
    TwoStepsParsed();
    KeyMisclassified(env.letters);
    FlagAllowed(env.letters, rule, EffectiveMode(env, rule, req.namespace).value, KEY);
    FlagDecided(env, stored, req, rule, KEY);
    DriftUncovered();
  }

  lemma DriftUncovered()
    ensures Drifts(Flagged(KEY, true), Flagged(KEY, false), Scope(None, None), [Field(KEY)])
    ensures ParsedAll(["*.*"]) == Ok(TWO_STEPS) && !Covered([Field(KEY)], TWO_STEPS)
  {
    hide Drifts, ParsedAll;
    TwoStepsParsed();
    FlagDrifts(KEY);
  }

  /** For a key without a single quote the same request, with the key's own printed path as
      mutable list, is allowed, and the change is covered. (The status is never compared.) */
  lemma PlainKeyCovered(env: Environment, stored: seq<Rule>, req: Request, rule: Rule, key: string)
    requires key != "status" && '\'' !in key && FlagUpdate(env, stored, req, rule, key)
    requires rule.mutable == [RenderedPath(env.letters, [Field(key)])]
    ensures Decide(env, stored, req).allowed && Decide(env, stored, req).reason == OnlyMutableChanged
    ensures Printable(Flagged(key, true)) && Printable(Flagged(key, false))
    ensures Drifts(Flagged(key, true), Flagged(key, false), Scope(None, None), [Field(key)])
    ensures ParsedAll(rule.mutable).Ok? && Covered([Field(key)], ParsedAll(rule.mutable).value)
  {
    hide DecideChanges, Decide, Selected, EffectiveMode, Flagged, Drifts, ParsedAll, TextMatchesSome, Covered;
    OwnPath(env.letters, key);
    FlagAllowed(env.letters, rule, EffectiveMode(env, rule, req.namespace).value, key);
    FlagDecided(env, stored, req, rule, key);
    FlagDrifts(key);
    FlaggedPrintable(key, true);
    FlaggedPrintable(key, false);
  }

  lemma OwnPath(letters: Alphabet, key: string)
    requires '\'' !in key
    ensures var p := [Field(key)];
            && ParsedAll([RenderedPath(letters, p)]) == Ok([p])
            && TextMatchesSome(RenderedPath(letters, p), [p]) && Covered(p, [p])
  {
    hide Parsed, RenderedPath;
    var p := [Field(key)];
    RoundTripExact(letters, p);
    ParsedAllOf([RenderedPath(letters, p)], [p]);
    assert Matches([p][0], p) && p[..1] == p;
  }

  lemma FlagDrifts(key: string)
    requires key != "status"
    ensures Drifts(Flagged(key, true), Flagged(key, false), Scope(None, None), [Field(key)])
  {
    FlaggedScoped(key, true);
    LookupStep(Object(Flagged(key, true)), Field(key));
    LookupStep(Object(Flagged(key, false)), Field(key));
  }

  lemma FlaggedPrintable(key: string, flag: bool)
    requires '\'' !in key
    ensures Printable(Flagged(key, flag))
  {
    forall q | Lookup(Object(Flagged(key, flag)), q).Some? ensures Faithful(q) {
      if q != [] {
        FlaggedPositions(key, flag, q);
      }
    }
  }
}
