# Drift Sentinel: the decision engine, verified

Drift Sentinel is a Kubernetes admission controller. For every `UPDATE` it compares the old
and the new object under the best matching rule and allows or denies the change. This
project models that decision, from the text of a rule to the answer of `Validate`, and proves
what the answer guarantees.

`dafny verify dfyconfig.toml` checks everything.

## How the model is laid out

| file | what it models |
|---|---|
| `Text.dfy`, `TextLaws.dfy`, `Sorting.dfy` | trimming, decimal numbers, string order, and what they mean position by position; in-place stable insertion sort and the uniqueness of sorted orders |
| `Paths.dfy`, `PathText.dfy`, `PathGrammar.dfy` | the path language: scanner, printer, matching; which paths survive printing; the grammar of all texts |
| `Trees.dfy` | decoded JSON, positions in it, and the marks scoping must keep |
| `Strip.dfy`, `Extract.dfy`, `Compare.dfy`, `CompareLaws.dfy` | removal, selection and the structural diff |
| `Linked.dfy` | maps and slices behind references: copying, and deleting an annotation in place |
| `Rules.dfy`, `RuleLaws.dfy`, `RuleStore.dfy`, `StoreSession.dfy` | rule order and matching, and what a rule covers; the store that owns its slices; callers that write to theirs |
| `Admission.dfy` | `Validate` |
| `ScopeLaws.dfy`, `ReportLaws.dfy`, `DecisionLaws.dfy`, `RequestLaws.dfy` | what scoping, reporting and deciding guarantee |
| `AnswerLaws.dfy`, `DecisionTable.dfy` | every answer of `Validate`: when it is given, and what it says |
| `DriftExact.dfy`, `DriftLaws.dfy`, `QuotedKeys.dfy` | exactly where the guarantee against drift ends, and an example |
| `RuleText.dfy`, `RuleTextLaws.dfy`, `RuleTextSections.dfy`, `RuleTextForms.dfy`, `RuleTextRoundTrip.dfy` | the rule text parser, and what it reads |
| `ScannerLaws.dfy`, `CommentLaws.dfy`, `ParserLaws.dfy`, `ParseLaws.dfy` | how a line is cut up, that comments change nothing, where parsing gives up, and what becomes of a ConfigMap |
| `Controller.dfy`, `ControllerRuns.dfy`, `Modes.dfy` | rebuilding the store from ConfigMaps, every interleaving of it, and namespace modes |

Loops and objects of the program are methods and classes here, each proved equal to a
recursive specification function (`Parsed`, `Stripped`, `Extracted`, `Changes`, `Sort`,
`ParsedSpec`, `Decide`). The lemmas are about those functions, so they hold of what the
methods compute. Positions are sequences of segments, and everything about trees is said
through two notions: `Lookup(value, path)`, and `Covered(path, patterns)`, which holds when some
prefix of the path matches a pattern.

## Main results

- **No drift slips through.** If a request is allowed with "no changes detected", every scalar that
  differs between the raw objects is unseen by the rule; if with "only mutable fields changed", it
  is unseen, covered by a mutable pattern, or escapes (`DecisionLaws.NoDriftSlipsThrough`). A scalar escapes
  iff every reported text is read back as a concrete path and none of these paths is a prefix of
  the scalar's place. That exception is exact: some mutable list for the selected rule lets the
  scalar through iff it escapes (`DriftExact.EscapeExact`, `DriftLaws.RequestDriftExact`). Nothing
  escapes where no reported key holds a single quote (`DecisionLaws.NoDriftWithoutQuotes`), and
  `QuotedKeys` has a request where a scalar does.
- **Every answer is accounted for.** `DecisionTable.DecisionExact` says for every request which answer it gets, with its
  code, reason, warnings and paths, in terms of the request's objects, the rule's texts and the mode that governs;
  nothing is allowed beside an error code, and a request is denied with 403 iff the rule that concerns it and
  ranks first is broken in mode enforce, or a bypass is removed with something else
  (`DecisionTable.DenialInPlainTerms`). An override of the namespace governs whatever the rule's own mode
  (`DecisionTable.OverrideGoverns`).
- **Denials are exact** for all requests, mutable patterns only ever help, system-maintained
  fields never matter, repeating implicit excludes never matters, reports stay in scope
  (`DecisionLaws`, `RequestLaws`, `DriftLaws`).
- **The diff is exact** (`CompareLaws.CompareExact`); strip fuses, commutes and absorbs;
  strip and extract keep exactly the scalars their patterns say.
- **The store is isolated** from every write its callers can make: its whole history is the one
  that the calls record (`StoreSession.Session.Run`).
- **Rule texts round-trip**: any sections in any order and layout are read as what they say, optional
  lists left out or not, and the inline form of a list, whenever it parses, means its block form
  (`RuleTextRoundTrip`, `RuleTextForms`, `RuleTextLaws`). A comment behind any line of plain text and closed strings
  changes neither the spec nor the problem nor its line (`CommentLaws.TrailingComment`); each of the twelve
  fields of the rule is what the sections say, and the first failing check decides otherwise
  (`RuleTextRoundTrip.RuleRead`); a faulty line or block is reported where it stands (`ParserLaws.FaultLocated`).
- **Paths have a grammar**: every text is a sequence of tokens and denotes their path, or has a malformed bracket
  after some tokens that decides the error (`PathGrammar.ParsedExact`).
- **The controller never mixes listings or goes back**, and once it is quiet its store is
  current unless the last change fell between Start's listing and the ready flag
  (`ControllerRuns.SettledExact`; `ControllerRuns.StaleAfterStart` gives a run for every rule).

## Where the code differs from its documentation

- The tests expect the reasons "bypass annotation present" and "bypass annotation removed"; the
  code answers "bypass marker present" and "bypass marker removed"
  (`pkg/admission/validator.go:101` and `pkg/admission/validator.go:143`). Reasons are an enumeration here.
- The documented order of steps has no user check and no rule for removing the bypass
  annotation. The code checks users before the bypass annotation, and denies a bypass removal
  that comes with any other change, whatever the mode. The model follows the code.
- The error branch after `diffWithoutBypassAnnotation` (`pkg/admission/validator.go:136-139`) is
  dead: the same lists have parsed a moment before. The model proves that.
- The printer escapes a single quote as `\'`, and the scanner does not undo it.

## Model

| member | source | states |
|---|---|---|
| Paths.ParseBracketSegment | pkg/diff/paths.go:182-223 | the index-driven scan reads one bracket segment (index, wildcard, quoted key) or fails with the same error as the specification, and ends where it does |
| Paths.ParsePath | pkg/diff/paths.go:42-79 | the scanning loop computes the segments of the trimmed text, or its first error |
| Paths.ParsePatterns | pkg/diff/paths.go:30-40 | parses a list of patterns in order; the first malformed one decides the error |
| Paths.ParsedAllPointwise | pkg/diff/paths.go:30-40 | a pattern list parses iff every pattern does, and then pattern by pattern in order |
| Paths.ParsedAllFailsEarly | pkg/diff/paths.go:30-40 | once a beginning of the list fails, the whole list fails with that very error |
| Paths.RenderPath | pkg/diff/paths.go:96-137 | the builder loop writes each segment with the punctuation its predecessor calls for |
| Paths.IsBareIdentifier | pkg/diff/paths.go:225-238 | true iff the key is non-empty and all its characters are letters, digits, underscore or hyphen |
| Paths.MatchesPath | pkg/diff/paths.go:139-151 | true iff lengths agree and every segment matches, wildcards included |
| Paths.HasDescendantMatch | pkg/diff/paths.go:153-165 | true iff the prefix agrees with the beginning of the pattern |
| Paths.LeadsToExact | pkg/diff/paths.go:153-165 | the cut-off test is exact: it holds iff some concrete extension of the prefix matches the pattern |
| Paths.MatchesAnyPath | pkg/diff/diff.go:100-109 | true iff some pattern matches the position |
| Paths.HasAnyDescendantMatch | pkg/diff/diff.go:111-119 | true iff some pattern begins with the position |
| Paths.MatchAny | pkg/diff/paths.go:81-94 | true iff the text parses and what it parses to matches a pattern |
| PathText.RoundTripExact | pkg/diff/paths.go:42-137 | for all paths: parsing the printed path gives the path back iff it is non-empty, no key holds a single quote and every index fits the machine integer |
| PathText.RenderedParsed | pkg/diff/paths.go:42-137 | the same for the rest of a path in the middle of a text, whatever segment came before it |
| PathText.RenderInjective | pkg/diff/paths.go:96-137 | two such paths with the same text are the same path |
| PathText.NormalForm | pkg/diff/paths.go:42-137 | printing what was parsed gives a text with the same meaning iff the parsed path is printable |
| PathText.ClassificationExact | pkg/diff/paths.go:81-94 | matching the printed text agrees with matching the position for every pattern list iff the position is printable |
| PathGrammar.ParsedExact | pkg/diff/paths.go:42-79 | every text: empty but for white space, or tokens (dots, names, wildcards, numbers in brackets, keys between quotes of either kind) that denote their path, or tokens and then a malformed bracket that decides the error |
| PathGrammar.SegmentsExact | pkg/diff/paths.go:42-79 | whatever way a trimmed text is cut into such tokens, it denotes their path or fails with the error of its malformed bracket |
| PathGrammar.EveryTextShaped | pkg/diff/paths.go:42-79 | every trimmed text can be cut in that way |
| PathGrammar.BracketFails | pkg/diff/paths.go:182-223 | what is wrong with a bracket, error by error: too short, a wildcard or a quoted key not closed, no closing bracket, or no machine integer inside |
| PathGrammar.RenderedStep | pkg/diff/paths.go:96-137 | printing one segment more: a word follows a dot, any other key stands in brackets and single quotes, a number and the list wildcard in brackets |
| PathGrammar.MatchesExact | pkg/diff/paths.go:139-180 | a pattern matches exactly the positions that filling its wildcards gives, `*` with any key and `[*]` with any number |
| TextLaws.TrimSpaceExact | pkg/diff/paths.go:43-48 | the text without the white space at both ends, and the only such text |
| TextLaws.AtoiExact | pkg/diff/paths.go:212-217 | a number is an optional sign and digits whose weighed sum fits the machine integer, and nothing else is |
| Strip.StripValue | pkg/diff/strip.go:17-49 | the recursive traversal keeps what the specification keeps, and drops what it drops |
| Strip.StripFields | pkg/diff/strip.go:22-33 | filling a fresh map key by key in any order gives the kept fields; an empty map vanishes |
| Strip.StripItems | pkg/diff/strip.go:34-44 | a list keeps its length, with null where an element was dropped |
| Strip.StripObject | pkg/diff/strip.go:3-15 | a document of which nothing is kept reads as the empty document |
| Strip.StripKeepsMarks | pkg/diff/strip.go:3-49 | a non-null scalar, or a list length, sits at a position of the result iff it sat there before and no prefix of the position matches a pattern |
| Strip.StripMarks | pkg/diff/strip.go:17-49 | the same below any point of the traversal |
| Strip.StripPositions | pkg/diff/strip.go:17-49 | every position of the result is one of the source, no strict prefix of it matches, and if it matches itself it is a list element replaced by null |
| Strip.StripFuses | pkg/diff/strip.go:17-49 | stripping twice equals stripping once with both pattern lists, at every point of the traversal, despite pruning and placeholders |
| Strip.StripTwice | pkg/diff/strip.go:3-15 | the same for whole documents |
| Strip.StripsCommute | pkg/diff/strip.go:3-15 | the order of two strips does not matter |
| Strip.StripAbsorbs | pkg/diff/strip.go:3-15 | stripping again with patterns already applied changes nothing; idempotence is the case of equal lists |
| Strip.StripAgrees | pkg/diff/strip.go:17-49 | pattern lists that agree at all positions of a value strip it alike |
| Extract.ExtractValue | pkg/diff/extract.go:17-57 | the recursive traversal with its early cut-off selects what the specification selects |
| Extract.ExtractFields | pkg/diff/extract.go:26-38 | the selected fields of a map, or nothing if none is selected |
| Extract.ExtractItems | pkg/diff/extract.go:39-53 | the list in full length with null placeholders if some element is selected, else nothing |
| Extract.ExtractObject | pkg/diff/extract.go:3-15 | a document of which nothing is selected reads as the empty document |
| Extract.ExtractKeepsLeaves | pkg/diff/extract.go:3-57 | a non-null scalar sits at a position of the selection iff it sat there before and a prefix of the position matches or the position is a proper ancestor position of a pattern |
| Extract.ExtractLeaves | pkg/diff/extract.go:17-57 | the same below any point of the traversal |
| Extract.CutOffSound | pkg/diff/extract.go:21-23 | the early cut-off loses nothing: no position below it is in scope |
| Extract.ExtractPositions | pkg/diff/extract.go:17-57 | every position of the selection is a position of the source |
| Extract.ExtractInScope | pkg/diff/extract.go:17-57 | without numbered list elements in the patterns every position of the selection is in scope |
| Extract.ExtractTwice | pkg/diff/extract.go:3-15 | selecting from a selection gives it back |
| Extract.ExtractIdempotent | pkg/diff/extract.go:17-57 | the same at every point of the traversal |
| Compare.CompareValue | pkg/diff/diff.go:23-49 | appends to the slice it is pointed to exactly the changes between the two values, after what was there |
| Compare.CompareMap | pkg/diff/diff.go:51-78 | the same for two maps, over the sorted union of keys |
| Compare.CompareList | pkg/diff/diff.go:80-94 | the same for two lists, up to the longer length |
| Compare.KeysInOrder | pkg/diff/diff.go:52-64 | collecting the keys in any order and sorting them in place gives one sequence |
| Compare.CompareObjects | pkg/diff/diff.go:12-21 | the printed paths sorted, and identical iff there are none |
| Compare.ChangesExact | pkg/diff/diff.go:23-94 | the traversal reports exactly the positions where two values part, each once |
| Compare.ValuesEqualExact | pkg/diff/diff.go:147-196 | on values that are neither maps nor lists the type switch decides equality |
| CompareLaws.CompareExact | pkg/diff/diff.go:12-94 | a path is reported iff both documents hold containers of one kind at all its strict prefixes, and at it exactly one side is present, the kinds differ, or the scalars differ; no path is reported twice |
| CompareLaws.PrefixFree | pkg/diff/diff.go:23-94 | no reported path is a prefix of another |
| CompareLaws.ReportedBelowRoot | pkg/diff/diff.go:12-21 | reported paths start with a field, so the text of an empty path is never reported |
| CompareLaws.DiffSymmetric | pkg/diff/diff.go:12-94 | swapping the documents gives the same result |
| CompareLaws.IdenticalMeansEqual | pkg/diff/diff.go:12-21 | the result is identical iff the documents are equal |
| CompareLaws.UnequalPart | pkg/diff/diff.go:23-94 | unequal values part somewhere |
| CompareLaws.DifferenceReported | pkg/diff/diff.go:23-94 | wherever two documents differ a related path is reported; where scalars differ, one on the way down |
| Sorting.SortOfPermutation | pkg/rules/store.go:46-59 | without ties all permutations of a list sort to the same sequence |
| Sorting.SortInPlace | pkg/rules/store.go:46-59 | the in-place sort of an array leaves the sorted sequence of its old contents |
| Sorting.SortStable | pkg/rules/store.go:46-59 | elements of a tie keep their order |
| TextLaws.StringLessExact | pkg/rules/store.go:46-59 | one text is less than another iff after a common beginning it ends, or has the smaller character |
| Rules.MatchesNamespace | pkg/rules/matcher.go:30-39 | true iff some pattern globs the namespace, malformed patterns counting as no match |
| Rules.MatchesSelector | pkg/rules/matcher.go:41-49 | true iff the group and kind pair is listed |
| Rules.MatchesLabels | pkg/rules/matcher.go:51-73 | true iff every label selector is met: presence for a bare key, equality for a pair |
| Rules.SelectedIsBest | pkg/rules/matcher.go:8-28 | the selected rule matches and no matching rule comes before it in the stored order; with unique names it precedes all others; none is selected iff none matches |
| Rules.SelectedRanksFirst | pkg/rules/store.go:46-59 | the selected rule has the highest priority of all matching ones; among equal priorities no earlier namespace matches, among equal namespaces no earlier name |
| RuleLaws.LabelMatchesExact | pkg/rules/matcher.go:51-73 | a selector with an equals sign holds iff the label of the trimmed key has the trimmed value, one without iff the label is there |
| RuleLaws.RuleMatchesExact | pkg/rules/matcher.go:8-73 | a rule matches iff one pattern globs the namespace, one selector names the group and kind, and every label it asks for is there |
| RuleLaws.SelectedCovers | pkg/rules/matcher.go:8-28 | the selected rule is one that matches in that sense and ranks first among those by priority, namespace and name; none is selected iff none matches |
| Rules.ChoiceIgnoresListing | pkg/rules/store.go:18-59 | for rules of unique namespace and name, stored order and choice are the same for every permutation |
| Rules.ResortIsIdentity | pkg/rules/matcher.go:8-15 | sorting a stored snapshot again changes nothing |
| RuleStore.CloneRule | pkg/rules/store.go:61-71 | all slices of the copy are fresh and it stands for the same rule |
| RuleStore.CloneRules | pkg/rules/store.go:18-40 | fresh copies of all rules, in order |
| RuleStore.SortRuleStructs | pkg/rules/store.go:46-59 | sorting structs in place sorts the rules they stand for |
| RuleStore.SortValues | pkg/rules/store.go:46-59 | the order looks at no slice, so sorting structs and sorting rules commute |
| RuleStore.MatchRules | pkg/rules/matcher.go:8-28 | the answer is a fresh copy of the selected rule, or none |
| RuleStore.Store.Replace | pkg/rules/store.go:18-29 | the store holds the sorted values passed in, in memory of its own |
| RuleStore.Store.Snapshot | pkg/rules/store.go:31-40 | the caller gets the contents in memory of its own |
| RuleStore.Store.Match | pkg/rules/store.go:42-44 | the caller gets its own copy of the selected rule, or none; it ranks first, by priority, namespace and name, among the stored rules that match |
| StoreSession.Session.Ask | pkg/rules/store.go:42-44 | the struct handed to the caller stands for the recorded answer, which is that of the last replacement, and its slices are the caller's own |
| StoreSession.Session.Perform | pkg/rules/store.go:18-71 | one call or one write of the caller: what it adds to the history of replacements and answers, given what then stands in the caller's arrays, how it may change these arrays, and what it hands out; a snapshot brings a copy of what the store holds |
| StoreSession.Session.Run | pkg/rules/store.go:18-71 | over any sequence of Replace, Snapshot, Match and arbitrary writes to arrays passed in or handed out, the replacements and answers are exactly those the actions record, each from what stood in the caller's array at the time and from the last replacement before it; the store holds the last replaced rules as they were then, sorted; and a sequence that ends with Match hands out a struct that stands for its answer |
| StoreSession.QuietDetermined | pkg/rules/store.go:18-71 | where the caller writes nothing, what stands in its arrays, and with it the whole history, is determined by the calls alone |
| Admission.PrepareObjects | pkg/admission/validator.go:217-240 | both objects scoped by implicit excludes, includes and excludes in that order, or the error of the first malformed list |
| Admission.PartitionChangedPaths | pkg/admission/validator.go:242-255 | the loop splits the texts into those that match a mutable pattern and the others, each in order |
| Admission.DiffWithoutBypassAnnotation | pkg/admission/validator.go:299-312 | the scoped diff of both objects without the bypass annotation |
| Admission.ExtractLabels | pkg/admission/validator.go:335-354 | the string-valued labels, or none where metadata or labels are no maps |
| Admission.ContainsString | pkg/admission/validator.go:356-364 | true iff the string is listed |
| Admission.Validator.Validate | pkg/admission/validator.go:55-215 | the answer is the decision on the stored rules, which `DecisionTable.DecisionExact` spells out |
| Admission.Validator.ValidateUnderRule | pkg/admission/validator.go:86-215 | the same once a rule is chosen: users, bypass, mode, comparison in that order |
| Admission.Validator.ValidateChanges | pkg/admission/validator.go:119-215 | the same from scoping on; the second error check is never taken |
| AnswerLaws.MarkedExact | pkg/admission/validator.go:273-297 | an annotation counts as true iff it is the boolean, or white space, the four letters in either case, and white space |
| AnswerLaws.LabelsExact | pkg/admission/validator.go:335-354 | the labels are exactly the texts that stand below metadata and labels |
| AnswerLaws.CaseExact | pkg/admission/validator.go:55-84 | what is compared: an update whose two messages stand for objects, under the stored rule that concerns it and ranks first; nothing iff it is no such update or no rule concerns it |
| AnswerLaws.EarlyAnswers | pkg/admission/validator.go:55-84 | the answers given before any rule is looked at, whole |
| AnswerLaws.EffectiveModeExact | pkg/admission/validator.go:105-117 | an override governs, without one the rule's own mode does, and none does after a lookup error |
| AnswerLaws.FirstErrorExact | pkg/diff/paths.go:30-40 | a list fails with an error iff some text does and all before it parse |
| AnswerLaws.ScopeExact | pkg/admission/validator.go:217-240 | a malformed include is reported before a malformed exclude, with the error of the first; else there is a scope |
| AnswerLaws.ScopeSees | pkg/admission/validator.go:217-240 | a rule sees a position iff no implicit field covers it, it is in the scope of the includes if there are any, and no exclude covers it |
| AnswerLaws.ImplicitTexts | pkg/admission/validator.go:13-21 | the seven implicit texts |
| DecisionTable.DecisionExact | pkg/admission/validator.go:55-215 | the whole answer to every request: allowed, code, reason, warnings, changed and denied paths, rule name and mode |
| DecisionTable.UnderRuleExact | pkg/admission/validator.go:86-215 | the same once a rule is chosen |
| DecisionTable.VerdictExact | pkg/admission/validator.go:125-215 | the same for two scoped objects: equal ones, a bypass removed alone or not, malformed mutable texts, covered changes, and uncovered ones mode by mode |
| DecisionTable.DiffLists | pkg/admission/validator.go:125-133 | the changed paths are sorted and hold one text for each position where the scoped objects part |
| DecisionTable.ClassifiedLists | pkg/admission/validator.go:242-255 | the denied paths are sorted and hold each changed path that is not read back as a path matching a mutable pattern, as often as it changed, and no other |
| DecisionTable.AllowedExact | pkg/admission/validator.go:55-215 | allowed iff there is no error code; the codes are 400, 403 and 500, and 400 exactly for updates whose objects do not decode |
| DecisionTable.BypassExact | pkg/admission/validator.go:94-104 | "bypass marker present" is the reason iff a rule is selected, its users admit the request, and the new object is marked with its key |
| DecisionTable.DenialInPlainTerms | pkg/admission/validator.go:55-215 | not allowed, with 403, iff a rule is selected, admits the user and the new object is not marked, and either a marked old object loses its mark together with another change the rule sees, or an uncovered change meets the governing mode enforce |
| DecisionTable.BreachTreated | pkg/admission/validator.go:180-215 | an uncovered change is allowed iff the mode is not enforce, warned of iff it is warn, and "would deny" iff it is dry-run; in each, the exact changed and denied paths |
| DecisionTable.OverrideGoverns | pkg/admission/validator.go:105-117 | in a namespace whose lookup gives an override, an uncovered change is treated as the override says |
| Linked.StripNode | pkg/diff/strip.go:17-49 | on maps and lists behind references, the kept value is a tree of fresh memory that shows what stripping keeps, and nothing existing is written |
| Linked.CloneObject | pkg/admission/validator.go:314-316 | the clone is fresh and shows the object stripped of its empty maps |
| Linked.RemoveAnnotationInPlace | pkg/admission/validator.go:318-333 | deleting in place leaves the object showing itself without the annotation, and without the annotations if none is left; everything else is untouched |
| Linked.PrepareWithoutBypass | pkg/admission/validator.go:299-304 | the object to compare is built in fresh memory, and the request's own object is unchanged |
| ScopeLaws.ImplicitParsed | pkg/admission/validator.go:13-21 | the seven implicit texts parse, to the patterns used throughout |
| ScopeLaws.ScopedLeaves | pkg/admission/validator.go:217-240 | the scalars of a scoped object are exactly those of the raw object at positions the rule sees |
| ScopeLaws.ScopedPositions | pkg/admission/validator.go:217-240 | a position of a scoped object is one of the raw object, under no implicit pattern, in scope of the includes, and under no exclude that ends in a field |
| ScopeLaws.RepeatedExcludesRedundant | pkg/admission/validator.go:217-240 | excludes that repeat implicit ones, among any others and with any includes, change nothing in what is scoped |
| ScopeLaws.DeletedThenStripped | pkg/admission/validator.go:318-333 | deleting an annotation and then stripping its pattern equals stripping the pattern |
| ScopeLaws.BypassRemovalIsStrip | pkg/admission/validator.go:299-333 | clone, delete, strip equals one strip with the annotation's literal pattern added |
| ScopeLaws.BypassRemovalRefines | pkg/admission/validator.go:299-333 | the same through the whole scope of a rule |
| ScopeLaws.NoiseOutsideScope | pkg/admission/validator.go:13-21 | objects that differ only in the seven system fields are scoped to the same object, with and without the bypass annotation |
| ReportLaws.ChangedTexts | pkg/diff/diff.go:12-21 | the reported texts are exactly the printed positions where the objects part, sorted |
| ReportLaws.PartitionExact | pkg/admission/validator.go:242-255 | where reported positions are printable, a path is in the mutable half iff its position matches a mutable pattern; the halves are strictly increasing, disjoint, and together the changed paths |
| ReportLaws.RefusedExact | pkg/admission/validator.go:242-255 | for all keys: the immutable half is non-empty iff some reported text is not read back as a concrete path that matches a mutable pattern |
| ReportLaws.AcceptedExact | pkg/admission/validator.go:242-255 | for all keys: a well-formed mutable list accepts an update iff every reported text is read back as a concrete path that matches one of its patterns |
| ReportLaws.ImmutableExact | pkg/admission/validator.go:242-255 | where reported positions are printable, that is: some position parts that no mutable pattern matches |
| ReportLaws.PrintableReports | pkg/admission/validator.go:119-133 | if no key of either object holds a single quote, and no list is longer than a machine integer counts, every reported position is printable |
| DriftExact.EscapeExact | pkg/admission/validator.go:119-178 | for all keys: some well-formed mutable list accepts an update and leaves the differing scalar at a given place uncovered iff the rule sees that scalar, every reported text is read back as a concrete path, and none of these paths is a prefix of the place (it escapes) |
| DriftExact.PrintableNeverEscapes | pkg/admission/validator.go:119-178 | where reported positions are printable no scalar escapes |
| DecisionLaws.NoDriftUnderRule | pkg/admission/validator.go:119-178 | for one rule and all objects: if nothing changed, no scalar that the rule sees differs; if only mutable fields changed, one that differs is covered by a mutable pattern, unless it escapes |
| DecisionLaws.NoDriftSlipsThrough | pkg/admission/validator.go:55-215 | the same end to end, for every request and all stored rules |
| DecisionLaws.NoDriftWithoutQuotes | pkg/admission/validator.go:55-215 | without exception where the reported positions are printable |
| DriftLaws.AllowedAsMutable | pkg/admission/validator.go:86-178 | for one rule with any mutable list: it answers that only mutable fields changed iff the update is compared, the old object had no bypass, the scoped objects differ and the list accepts the update |
| DriftLaws.RuleDriftExact | pkg/admission/validator.go:86-178 | for one rule: some mutable list makes it let a differing scalar through uncovered iff the update is compared, the old object had no bypass, and the scalar escapes |
| DriftLaws.RequestDriftExact | pkg/admission/validator.go:55-215 | the same end to end: some mutable list for the selected rule lets the scalar through iff a rule is selected and the scalar escapes it |
| DriftLaws.CaseRelisted | pkg/admission/validator.go:55-114 | with another mutable list for the selected rule the request is decided by that rule with that list |
| DriftLaws.RequestMonotone | pkg/admission/validator.go:55-215 | more mutable patterns that parse, for the selected rule, never turn an allowed request into a denied one, and denied paths only shrink |
| DecisionLaws.BypassRemovalAlone | pkg/admission/validator.go:135-150 | for one rule: if a bypass removal is allowed, every differing scalar the rule sees is under the bypass annotation |
| RequestLaws.RemovalAlone | pkg/admission/validator.go:55-150 | the same end to end, for every request and all stored rules |
| RequestLaws.AnswersStayInScope | pkg/admission/validator.go:55-215 | every path in an answer is the text of a parting position in the scope of the rule selected for the request |
| RequestLaws.ImplicitExcludesRedundant | pkg/admission/validator.go:55-240 | a whole rule set answers every request as if none of its rules repeated an implicit exclude |
| RequestLaws.SelectedMapped | pkg/rules/matcher.go:8-28 | a change of rules that touches neither order nor matching changes nothing about which rule is selected |
| DecisionLaws.DenialUnderRuleExact | pkg/admission/validator.go:86-215 | for one rule and all objects: denied with 403 iff the update is compared, the scoped objects differ, and either a bypass was removed with something else, or the mode is enforce, the mutable list is well-formed and some reported text is not read back as a path it matches; allowed iff there is no error code |
| DecisionLaws.DenialExact | pkg/admission/validator.go:55-215 | the same end to end, for every request and all stored rules |
| DecisionLaws.DenialByPosition | pkg/admission/validator.go:86-215 | where reported positions are printable, the last condition is that some parting position matches no mutable pattern |
| DecisionLaws.MutableMonotone | pkg/admission/validator.go:163-215 | for one rule: adding mutable patterns that parse never turns an allow into a deny, and denied paths only shrink, even where the rule's own list is malformed |
| DecisionLaws.NoiseNeverDecides | pkg/admission/validator.go:13-21 | setting, changing or deleting any of the seven system fields in either object leaves the whole decision unchanged |
| DecisionLaws.DefaultExcludesRedundant | pkg/admission/validator.go:217-240 | every rule decides as if the implicit excludes it repeats were not there, whatever else it includes and excludes, errors included |
| DecisionLaws.ReportsStayInScope | pkg/admission/validator.go:119-215 | for one rule: every changed path is the text of a position in the rule's scope where the scoped objects part; so is every denied path, of the objects without the bypass annotation if a bypass was removed |
| DriftExact.SlippingExact | pkg/admission/validator.go:119-178 | for reported positions instead of scalars: some well-formed mutable list accepts an update without covering every reported position iff all reported texts are read back as concrete paths and one reported position has none of them as a prefix |
| DriftExact.EscapeMisleads | pkg/admission/validator.go:119-178 | if a scalar escapes, some reported position can be left uncovered |
| DriftExact.PrintableNeverMisleads | pkg/admission/validator.go:242-255 | where reported positions are printable no reported position can be |
| QuotedKeys.PlainKeyCovered | pkg/admission/validator.go:55-178 | for every key without a single quote other than status, which is never compared: a request that changes it is allowed by its own printed pattern, the change is seen and covered, and both objects are printable |
| QuotedKeys.KeyMisclassified | pkg/diff/paths.go:111-124 | a concrete key with a single quote whose printed position reads back as a two-step path |
| QuotedKeys.DriftBehindQuotedKey | pkg/admission/validator.go:55-178 | a request that changes that key is allowed as mutable by a selected rule that sees the change, and no pattern of the rule covers it |
| QuotedKeys.FlagUpdatePossible | pkg/admission/validator.go:55-178 | such requests exist, for every key and mutable list |
| QuotedKeys.DriftUncovered | pkg/admission/validator.go:242-255 | the change of that key is seen, and the two-step pattern does not cover it |
| RuleText.StripComment | pkg/rules/config.go:419-441 | cuts at the first hash outside quotes, with the spaces before it (`ScannerLaws.WithoutCommentExact` says what that cut is) |
| RuleText.SanitizeLine | pkg/rules/config.go:410-417 | drops carriage returns and the comment; a blank line is empty |
| RuleText.CountIndent | pkg/rules/config.go:443-452 | the number of leading spaces |
| RuleText.SplitKeyValue | pkg/rules/config.go:454-481 | splits at the first colon outside quotes; no empty key |
| RuleText.ParseInlineList | pkg/rules/config.go:347-395 | the items of a bracketed list, split at commas outside quotes |
| RuleText.GatherIndentedBlock | pkg/rules/config.go:243-262 | the deeper lines after a key, blank ones passed over, and where they end |
| RuleText.ParseStringList | pkg/rules/config.go:264-280 | the items of a block list, or the first line that is none |
| RuleText.ParseSelectorList | pkg/rules/config.go:282-327 | selectors with the deeper lines grouped under their item, each with a kind |
| RuleText.AssignSelectorField | pkg/rules/config.go:329-345 | sets the named field only, or rejects the name |
| RuleText.SpecFields.AssignInlineValue | pkg/rules/config.go:129-190 | sets the field the key names and no other, or reports the problem |
| RuleText.SpecFields.AssignBlockValue | pkg/rules/config.go:192-241 | the same for a block |
| RuleText.ParseRuleSpec | pkg/rules/config.go:88-127 | the line loop computes the spec of the text, or the first problem with its line number |
| RuleText.ParseConfigMap | pkg/rules/config.go:27-77 | the rule of a ConfigMap, or the first of its defects in the order checked |
| ScannerLaws.FindUnquotedExact | pkg/rules/config.go:419-481 | however a line is cut into plain text and closed strings of either quote, the scan stops at the first delimiter after them, and runs to the end if there is none or a string is never closed |
| ScannerLaws.MadeUp | pkg/rules/config.go:419-481 | every line can be cut in that way |
| ScannerLaws.WithoutCommentExact | pkg/rules/config.go:419-441 | a comment is cut with the spaces before it, and a hash in a string starts none |
| ScannerLaws.SplitPairExact | pkg/rules/config.go:454-481 | key and value are what stands before and after the first colon outside quotes, without white space around them; no pair iff there is no such colon or no key |
| ScannerLaws.ScalarExact | pkg/rules/config.go:397-408 | what stands between the outer quotes, of either kind, or the text itself |
| ScannerLaws.InlineListExact | pkg/rules/config.go:347-395 | a value without brackets is refused; between them stands nothing, or items that commas outside quotes separate, each read as a scalar |
| CommentLaws.TrailingComment | pkg/rules/config.go:88-127 | for every text and every line of it that is made of plain text and closed strings: appending spaces, a hash and anything, or carriage returns, changes neither the spec, nor the problem, nor its line number |
| CommentLaws.TailIgnored | pkg/rules/config.go:410-441 | the same for one line |
| CommentLaws.QuotedHashKept | pkg/rules/config.go:410-441 | such a line, hashes in its strings included, is kept as it is |
| CommentLaws.BlankIgnored | pkg/rules/config.go:410-417 | white space, with or without a comment after it, makes a blank line |
| CommentLaws.JoinedSplit | pkg/rules/config.go:89-91 | a text is its lines with line breaks between them |
| ParserLaws.SplitPairSays | pkg/rules/config.go:454-481 | a line splits into a key and a value iff it is made up of them and a colon outside quotes |
| ParserLaws.InlineFaults | pkg/rules/config.go:129-190 | a value is refused for a key that takes none, a priority that is no number, or a list without brackets, and for nothing else |
| ParserLaws.StringListExact | pkg/rules/config.go:264-280 | the items of a block, line by line, or an error iff some line is none |
| ParserLaws.ItemFieldExact | pkg/rules/config.go:282-302 | the first line of a selector: a known field after a hyphen, or what is wrong with it |
| ParserLaws.WithLineExact | pkg/rules/config.go:303-320 | each deeper line gives one more field, or is refused for what is wrong with it |
| ParserLaws.SelectorItemExact | pkg/rules/config.go:282-345 | a selector is its item and all deeper lines after it, in any order and indentation; of two values for one field the later counts, and a kind is required |
| ParserLaws.ParsedPrefix | pkg/rules/config.go:88-127 | up to a line at the left a text is parsed as if it ended there: the same problem at the same line, or the spec to go on with |
| ParserLaws.FaultLocated | pkg/rules/config.go:88-190 | after any sections in any layout a faulty line (a tab, no pair, an unknown key, a bad priority or list) is reported with its problem and its own line number, whatever comes after |
| ParserLaws.BlockFaultLocated | pkg/rules/config.go:117-327 | a block with a line that is no item, or with a faulty selector, is reported at the line of its key |
| ParserLaws.IndentedLocated | pkg/rules/config.go:100-102 | an indented line below a value is reported at its own line |
| ParseLaws.AnnotatedExact | pkg/rules/config.go:23-25 | a ConfigMap is a rule iff its annotation says true, white space and case aside |
| ParseLaws.CheckedExact | pkg/rules/config.go:39-77 | a parsed spec becomes a rule with these twelve fields iff its mode is one of four, it has namespaces and selectors, and every namespace pattern is well-formed; else the first check that fails is the error |
| ParseLaws.OutcomeUnique | pkg/rules/config.go:39-77 | of these outcomes a spec has only one |
| ParseLaws.ParsedExact | pkg/rules/config.go:27-77 | every ConfigMap: not annotated, no text but white space, a text that does not parse, or what becomes of its spec |
| RuleTextLaws.ParsedAgrees | pkg/rules/config.go:88-127 | the parser's outcome depends on the sanitized, non-blank lines only |
| RuleTextLaws.LayoutIrrelevant | pkg/rules/config.go:88-127 | texts with the same such lines parse alike |
| RuleTextLaws.BlankLineIrrelevant | pkg/rules/config.go:88-127 | inserting a blank or comment-only line anywhere changes no field and no success or problem |
| RuleTextLaws.CommentOnlyBlank | pkg/rules/config.go:410-441 | spaces, a hash and any comment make a blank line |
| RuleTextRoundTrip.SectionsRead | pkg/rules/config.go:88-345 | on sanitized lines: any sections (mode, priority, bypass, the six lists in either form, selectors), in any order, repeated or left out, are read as what they say, the later of two for one key counting |
| RuleTextRoundTrip.TextRead | pkg/rules/config.go:88-345 | the same for a text in any layout: blank lines and comment lines between the written ones, and comments or carriage returns after them, make no difference |
| RuleTextRoundTrip.SectionsCommentable | pkg/rules/config.go:88-441 | every written line, in inline and in block form, may be followed by a comment |
| RuleTextRoundTrip.SectionsRoundTrip | pkg/rules/config.go:88-345 | the same for the sections written line by line |
| RuleTextRoundTrip.SaidInAnyOrder | pkg/rules/config.go:88-241 | sections given once each say the same in any order |
| RuleTextRoundTrip.SpecRoundTrip | pkg/rules/config.go:88-345 | every spec whose texts can be double-quoted has a text in the documented form that is parsed back field by field, whether its empty lists are left out or written as bare keys |
| RuleTextRoundTrip.RuleRead | pkg/rules/config.go:27-77 | a ConfigMap whose text has such sections, in any layout, becomes the rule whose twelve fields are what they say, the bypass key being the default one if none is said, iff that has a known mode, namespaces, selectors and well-formed globs; else the first failing check is reported |
| RuleTextRoundTrip.RuleRoundTrip | pkg/rules/config.go:27-77 | the same for the sections written line by line, with a line break at the end |
| RuleTextSections.ListSection | pkg/rules/config.go:192-280 | a written list is read back under its key, and parsing goes on after it |
| RuleTextSections.SelectorSection | pkg/rules/config.go:282-345 | so are written selectors |
| RuleTextForms.InlineRead | pkg/rules/config.go:347-395 | the inline form of a double-quoted list is read back item by item, commas, hashes and brackets in items included |
| RuleTextForms.FormsAgree | pkg/rules/config.go:129-280 | on sanitized lines, the inline and the block form of a list lead to the same spec or problem, if no indented line follows |
| RuleTextForms.FormsInterchangeable | pkg/rules/config.go:88-280 | in any text with any layout, exchanging the two forms changes neither the parsed spec nor the problem found, if the next line that is not blank is not indented |
| RuleTextForms.InlineMeansBlock | pkg/rules/config.go:129-280 | on sanitized lines, with nothing assumed of what follows: whenever the inline form parses, no indented line follows and the block form gives the same spec |
| RuleTextForms.InlineTextMeansBlock | pkg/rules/config.go:88-280 | the same in any text with any layout |
| RuleTextForms.IndentedLineSeparates | pkg/rules/config.go:88-280 | the block form can parse where the inline form does not: an indented item line after the list is an error below the inline form, one more item below the block |
| Controller.Controller.RebuildRules | pkg/rules/watcher.go:145-179 | the store holds the sorted valid rules of what was listed, and only those |
| Controller.Controller.TriggerRebuild | pkg/rules/watcher.go:135-143 | before the ready flag is set nothing happens |
| Controller.Controller.Start | pkg/rules/watcher.go:68-84 | one rebuild, then the ready flag |
| Controller.Controller.OnUpdate | pkg/rules/watcher.go:118-127 | an update that leaves the resource version is skipped |
| Controller.RulesOfPermutation | pkg/rules/watcher.go:145-175 | listing the ConfigMaps in another order finds the same rules |
| Controller.ListingIrrelevant | pkg/rules/watcher.go:145-175 | what a rebuild stores depends on the cache, not on the order in which it is listed |
| ControllerRuns.InvStep | pkg/rules/watcher.go:68-179 | every step of every participant keeps the invariant and never moves the store to an older cache version |
| ControllerRuns.StoreNeverMovesBack | pkg/rules/watcher.go:145-179 | in every run the store is empty or holds all valid rules of one listed cache version, and versions never decrease |
| ControllerRuns.CacheRulesExact | pkg/rules/watcher.go:145-179 | the rules of a cache are exactly those of its annotated, valid ConfigMaps, under unique names |
| ControllerRuns.AnswersFromOneListing | pkg/rules/store.go:31-44 | every answer in every run is none before the first replacement, or the best matching rule of a single cache version |
| ControllerRuns.HandlingRefreshes | pkg/rules/watcher.go:135-179 | a handled change leaves the store with the parsed, sorted cache its rebuild listed, at a version that includes the change |
| ControllerRuns.NeverBehindHandled | pkg/rules/watcher.go:112-143 | the store never falls behind a change that was handled and not dropped |
| ControllerRuns.SettledExact | pkg/rules/watcher.go:68-143 | once quiet, the store is at the current cache version iff the last change was not dropped or Start had listed it already; what it holds in either case |
| ControllerRuns.SettledStays | pkg/rules/watcher.go:118-127 | until the cache changes again nothing moves a quiet store: resyncs are skipped |
| ControllerRuns.StaleAfterStart | pkg/rules/watcher.go:78-82 | for every rule ConfigMap there is a run after which it is in the cache and missing from the quiet store |
| Modes.ResolveMode | pkg/rules/watcher.go:90-110 | an override iff the namespace is found and its annotation names a known mode; none iff it is missing or names nothing; an error iff the lookup failed or the mode is unknown |
| Modes.NamespaceGoverns | pkg/admission/validator.go:105-215 | in a namespace whose annotation names a known mode, an uncovered change is denied, warned of, reported or let through as that mode says, whatever the rule's own mode |
| Modes.DecisionsUnderKnownModes | pkg/admission/validator.go:180-215 | with the controller's rules and resolver every decision of every run names a known mode; the "unsupported mode" answer is never given |

## Left out

- HTTP, JSON encoding and decoding, logging, metrics, health, command line and Helm charts: plumbing around the decision. A request starts as a decoded document, an empty message or a malformed one.
- The wording of reasons and errors: an enumeration with the paths, patterns or problems they carry. `Decision.Result` is left out because it is "allowed" iff `Allowed`. `DiffResult.MutableChanged` and `ImmutableChanged`, which nothing reads, are left out as well.
- Globbing (`path.Match`): any function from a pattern and a name to match, no match or malformed.
- Unicode letter and digit tables: any predicate on characters. White space is the set `strings.TrimSpace` trims.
- Case folding of "true": ASCII letters only, which are the only ones that fold to it.
- Numbers are reals with equality. No rounding happens after decoding.
- Heap layout outside `Linked` and the rule store: scoping and diffing are on values, so sharing between a diffed object and its copies is modelled in `Linked` only.
- Sorting algorithms of the library: an in-place insertion sort, whose result is the only sorted one where there are no ties.
- DecisionLaws.NoDriftWithoutQuotes: assumes printable reported positions, since `QuotedKeys` shows the statement false for a key with a single quote; DecisionLaws.NoDriftSlipsThrough and DriftLaws.RequestDriftExact have no such assumption.
- ReportLaws.PartitionExact: assumes printable reported positions, since other positions can share one text; ReportLaws.RefusedExact does not.
- Extract.ExtractInScope: assumes patterns without numbered list elements, because selecting one element keeps null placeholders for its neighbours.
- RuleTextLaws.BlankLineIrrelevant: says nothing about the line number in an error, which does move.
- CommentLaws.TrailingComment: takes lines whose strings are all closed, since behind an open quote a hash starts no comment, and that end in no space of their own.
- Controller.Controller.RebuildRules: the lister never fails here; it reads memory and fails on no selector. The log lines and the count of invalid rules are left out.
- ControllerRuns.StoreNeverMovesBack: takes a listing, a replacement, a snapshot and an access to the ready flag as atomic steps, events as handled one at a time in the order of the cache changes, and each change as visible in the cache before its event. The informer library itself is not part of this model.
- Mutexes: the store's lock is the atomicity of those steps.
- Timeouts and cancellation: Start may give up while it waits, and then nothing is ever stored.
