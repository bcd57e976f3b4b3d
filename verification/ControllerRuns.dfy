/** Every interleaving of cache changes, event deliveries, Start, rebuilds and readers:
    `pkg/rules/watcher.go` as a state machine.

    A listing, a store replacement, a snapshot and a read or write of the ready flag are one
    step each; events are handled one at a time, in the order in which the cache changed. */
module ControllerRuns {
  import opened Text
  import opened Sorting
  import opened Rules
  import opened RuleLaws
  import opened RuleText
  import opened Controller

  // ---- states --------------------------------------------------------------------

  /** What the informer tells the handlers: the cache moved on to a version, or a periodic
      resync repeated an unchanged object. */
  datatype Event = Change(version: nat) | Resync

  /** How far Start has come; `version` is the cache version it listed. */
  datatype StartPhase =
    | Waiting
    | StartListed(listing: seq<ConfigMap>, version: nat)
    | StartReplaced(version: nat)
    | Started(version: nat)
    | TimedOut

  /** How far the handler has come with the change it works on. */
  datatype HandlerPhase =
    | Idle
    | Triggered(change: nat)
    | Rebuilding(change: nat, listing: seq<ConfigMap>, version: nat)

  /** What became of a change event. */
  datatype Handled = Dropped | Rebuilt(version: nat)

  /** Rules as some reader or the store holds them, and the cache version they were listed from. */
  datatype Held = Held(rules: seq<Rule>, version: Option<nat>)

  datatype Answer = Answer(input: MatchInput, found: Option<Rule>, version: Option<nat>)

  datatype State = State(
    caches: seq<Cache>,
    queue: seq<Event>,
    start: StartPhase,
    handler: HandlerPhase,
    ready: bool,
    store: Held,
    handled: seq<Handled>,
    snapshots: seq<Held>,
    answers: seq<Answer>)

  ghost predicate Init(s: State) {
    s == State([map[]], [], Waiting, Idle, false, Held([], None), [], [], [])
  }

  // ---- steps ---------------------------------------------------------------------

  datatype Step =
    | ChangeCache(cache: Cache)
    | SendResync
    | GiveUp
    | ListAtStart(listing: seq<ConfigMap>)
    | ReplaceAtStart
    | SetReady
    | Deliver
    | ListInHandler(listing: seq<ConfigMap>)
    | ReplaceInHandler
    | TakeSnapshot
    | AnswerFrom(reader: nat, input: MatchInput)

  function Current(s: State): nat
    requires s.caches != []
  {
    |s.caches| - 1
  }

  ghost predicate Enabled(s: State, step: Step)
    requires s.caches != []
  {
    match step
    case ChangeCache(_) => true
    case SendResync => true
    case GiveUp => s.start.Waiting?
    case ListAtStart(listing) => s.start.Waiting? && ListingOf(listing, s.caches[Current(s)])
    case ReplaceAtStart => s.start.StartListed?
    case SetReady => s.start.StartReplaced?
    case Deliver => s.handler.Idle? && s.queue != []
    case ListInHandler(listing) => s.handler.Triggered? && ListingOf(listing, s.caches[Current(s)])
    case ReplaceInHandler => s.handler.Rebuilding?
    case TakeSnapshot => true
    case AnswerFrom(reader, _) => reader < |s.snapshots|
  }

  /** What a rebuild puts into the store after it has listed. */
  function Rebuild(glob: Glob, listing: seq<ConfigMap>, version: nat): Held {
    Held(SortRules(RulesOf(glob, listing)), Some(version))
  }

  /** The update handler skips a resync; every other event ends in `triggerRebuild`. */
  function Delivered(s: State): State
    requires s.queue != []
  {
    var rest := s.(queue := s.queue[1..]);
    match s.queue[0]
    case Resync => rest
    case Change(version) =>
      if s.ready then rest.(handler := Triggered(version)) else rest.(handled := s.handled + [Dropped])
  }

  ghost function After(glob: Glob, s: State, step: Step): State
    requires s.caches != [] && Enabled(s, step)
  {
    match step
    case ChangeCache(cache) => s.(caches := s.caches + [cache], queue := s.queue + [Change(|s.caches|)])
    case SendResync => s.(queue := s.queue + [Resync])
    case GiveUp => s.(start := TimedOut)
    case ListAtStart(listing) => s.(start := StartListed(listing, Current(s)))
    case ReplaceAtStart =>
      s.(start := StartReplaced(s.start.version), store := Rebuild(glob, s.start.listing, s.start.version))
    case SetReady => s.(start := Started(s.start.version), ready := true)
    case Deliver => Delivered(s)
    case ListInHandler(listing) => s.(handler := Rebuilding(s.handler.change, listing, Current(s)))
    case ReplaceInHandler =>
      s.(handler := Idle, store := Rebuild(glob, s.handler.listing, s.handler.version),
         handled := s.handled + [Rebuilt(s.handler.version)])
    case TakeSnapshot => s.(snapshots := s.snapshots + [s.store])
    case AnswerFrom(reader, input) =>
      var held := s.snapshots[reader];
      s.(answers := s.answers + [Answer(input, FirstMatch(glob, SortRules(held.rules), input), held.version)])
  }

  ghost predicate Next(glob: Glob, s: State, t: State) {
    s.caches != [] && exists step :: Enabled(s, step) && t == After(glob, s, step)
  }

  ghost predicate Run(glob: Glob, run: seq<State>) {
    && run != [] && Init(run[0])
    && forall i :: 0 < i < |run| ==> Next(glob, run[i - 1], run[i])
  }

  // ---- the invariant ---------------------------------------------------------------

  /** The empty initial rules, or all valid rules of one cache version. */
  ghost predicate Faithful(glob: Glob, caches: seq<Cache>, held: Held) {
    match held.version
    case None => held.rules == []
    case Some(v) => v < |caches| && held.rules == CacheRules(glob, caches[v])
  }

  /** `None` is the state before any listing. */
  predicate NotNewer(v: Option<nat>, w: Option<nat>) {
    v.Some? ==> w.Some? && v.value <= w.value
  }

  /** The changes of a queue are numbered `first` up to, not including, `end`. */
  predicate Consecutive(queue: seq<Event>, first: nat, end: nat) {
    if queue == [] then first == end
    else match queue[0]
      case Resync => Consecutive(queue[1..], first, end)
      case Change(version) => version == first && Consecutive(queue[1..], first + 1, end)
  }

  lemma {:induction false} ConsecutiveSnoc(queue: seq<Event>, first: nat, end: nat, e: Event)
    requires Consecutive(queue, first, end) && (e.Change? ==> e.version == end)
    ensures Consecutive(queue + [e], first, if e.Change? then end + 1 else end)
  {
    if queue == [] {
      assert (queue + [e])[1..] == [];
    } else {
      assert (queue + [e])[1..] == queue[1..] + [e];
      ConsecutiveSnoc(queue[1..], if queue[0].Change? then first + 1 else first, end, e);
    }
  }

  lemma {:induction false} ConsecutiveBelow(queue: seq<Event>, first: nat, end: nat)
    requires Consecutive(queue, first, end)
    ensures first <= end
  {
    if queue != [] {
      ConsecutiveBelow(queue[1..], if queue[0].Change? then first + 1 else first, end);
    }
  }

  lemma ConsecutiveHead(queue: seq<Event>, first: nat, end: nat)
    requires Consecutive(queue, first, end) && queue != []
    ensures queue[0].Change? ==> queue[0].version == first < end
  {
    if queue[0].Change? {
      ConsecutiveBelow(queue[1..], first + 1, end);
    }
  }

  /** Every change is in exactly one place: handled, being handled, or queued, in order. */
  ghost predicate EventsAccounted(s: State) {
    && (s.handler.Triggered? || s.handler.Rebuilding? ==> s.handler.change == |s.handled| + 1)
    && Consecutive(s.queue, |s.handled| + (if s.handler.Idle? then 1 else 2), |s.caches|)
  }

  ghost predicate StartSound(s: State) {
    && (s.ready <==> s.start.Started?)
    && (s.start.StartListed? ==> s.start.version < |s.caches| && ListingOf(s.start.listing, s.caches[s.start.version]))
    && (s.start.Waiting? || s.start.StartListed? || s.start.TimedOut? ==> s.store.version == None)
    && (s.start.StartReplaced? ==> s.store.version == Some(s.start.version))
    && (s.start.Started? ==> NotNewer(Some(s.start.version), s.store.version))
  }

  /** A rebuild in the handler never overlaps the one of Start. */
  ghost predicate HandlerSound(s: State) {
    && (!s.handler.Idle? ==> s.ready && s.handler.change < |s.caches|)
    && (s.handler.Rebuilding? ==>
          && s.handler.change <= s.handler.version < |s.caches|
          && ListingOf(s.handler.listing, s.caches[s.handler.version])
          && NotNewer(s.store.version, Some(s.handler.version)))
  }

  /** The store holds what the latest rebuild listed: that of the last handled change, or Start's. */
  ghost predicate HandledSound(s: State) {
    && (forall i :: 0 <= i < |s.handled| && s.handled[i].Rebuilt? ==> i + 1 <= s.handled[i].version < |s.caches|)
    && (forall i, j :: 0 <= i < j < |s.handled| && s.handled[i].Rebuilt? ==> s.handled[j].Rebuilt?)
    && (!s.ready ==> forall i :: 0 <= i < |s.handled| ==> s.handled[i].Dropped?)
    && (forall i, j :: 0 <= i < j < |s.handled| && s.handled[i].Rebuilt? && s.handled[j].Rebuilt? ==>
          s.handled[i].version <= s.handled[j].version)
    && (s.start.Started? ==>
          s.store.version == Some(if s.handled != [] && s.handled[|s.handled| - 1].Rebuilt?
                                  then s.handled[|s.handled| - 1].version else s.start.version))
  }

  /** The answer is the one that the rules of a snapshot give. */
  ghost predicate AnsweredFrom(glob: Glob, a: Answer, held: Held) {
    a.version == held.version && a.found == Selected(glob, held.rules, a.input)
  }

  ghost predicate ReadersSound(glob: Glob, s: State) {
    && (forall held :: held in s.snapshots ==>
          Faithful(glob, s.caches, held) && NotNewer(held.version, s.store.version))
    && (forall i, j :: 0 <= i <= j < |s.snapshots| ==> NotNewer(s.snapshots[i].version, s.snapshots[j].version))
    && (forall a :: a in s.answers ==>
          exists held :: held in s.snapshots && AnsweredFrom(glob, a, held))
  }

  ghost predicate Inv(glob: Glob, s: State) {
    && s.caches != []
    && Faithful(glob, s.caches, s.store)
    && (s.store.version.Some? ==> s.store.version.value < |s.caches|)
    && StartSound(s) && HandlerSound(s) && EventsAccounted(s) && HandledSound(s) && ReadersSound(glob, s)
  }

  lemma RebuildFaithful(glob: Glob, caches: seq<Cache>, listing: seq<ConfigMap>, version: nat)
    requires version < |caches| && ListingOf(listing, caches[version])
    ensures Faithful(glob, caches, Rebuild(glob, listing, version))
  {
    hide SortRules, RulesOf, CacheRules, ListingOf;
    ListingIrrelevant(glob, listing, caches[version]);
  }

  /** What a step does to the store and the caches: a new version is never older. */
  lemma StoreStep(glob: Glob, s: State, step: Step)
    requires Inv(glob, s) && Enabled(s, step)
    ensures var t := After(glob, s, step);
            && s.caches <= t.caches
            && Faithful(glob, t.caches, t.store)
            && NotNewer(s.store.version, t.store.version)
  {
    hide SortRules, RulesOf, CacheRules, ListingOf, ReadersSound, EventsAccounted, HandledSound;
    if step.ReplaceAtStart? {
      RebuildFaithful(glob, s.caches, s.start.listing, s.start.version);
    } else if step.ReplaceInHandler? {
      RebuildFaithful(glob, s.caches, s.handler.listing, s.handler.version);
    }
  }

  lemma EventsStep(glob: Glob, s: State, step: Step)
    requires Inv(glob, s) && Enabled(s, step)
    ensures EventsAccounted(After(glob, s, step))
  {
    hide SortRules, RulesOf, CacheRules, ListingOf, ReadersSound, Faithful, HandledSound;
    var first := |s.handled| + if s.handler.Idle? then 1 else 2;
    match step
    case ChangeCache(_) => ConsecutiveSnoc(s.queue, first, |s.caches|, Change(|s.caches|));
    case SendResync => ConsecutiveSnoc(s.queue, first, |s.caches|, Resync);
    case _ =>
  }

  lemma PhasesStep(glob: Glob, s: State, step: Step)
    requires Inv(glob, s) && Enabled(s, step)
    ensures var t := After(glob, s, step); StartSound(t) && HandlerSound(t)
  {
    hide SortRules, RulesOf, CacheRules, ListingOf, ReadersSound, Faithful, Consecutive;
    if step.Deliver? {
      ConsecutiveHead(s.queue, |s.handled| + 1, |s.caches|);
    }
  }

  lemma HandledStep(glob: Glob, s: State, step: Step)
    requires Inv(glob, s) && Enabled(s, step)
    ensures HandledSound(After(glob, s, step))
  {
    hide SortRules, RulesOf, CacheRules, ListingOf, ReadersSound, Faithful, Consecutive, EventsAccounted, HandledSound;
    match step
    case SetReady => HandledWhenReady(s);
    case Deliver => HandledWhenDelivered(s);
    case ReplaceInHandler => HandledWhenRebuilt(glob, s);
    case _ => HandledElsewhere(glob, s, step);
  }

  lemma HandledWhenReady(s: State)
    requires StartSound(s) && HandledSound(s) && s.start.StartReplaced?
    ensures HandledSound(s.(start := Started(s.start.version), ready := true))
  {
  }

  lemma HandledWhenDelivered(s: State)
    requires StartSound(s) && HandledSound(s) && s.queue != []
    ensures HandledSound(Delivered(s))
  {
  }

  lemma HandledWhenRebuilt(glob: Glob, s: State)
    requires StartSound(s) && HandlerSound(s) && EventsAccounted(s) && HandledSound(s) && s.handler.Rebuilding?
    ensures HandledSound(s.(handler := Idle, store := Rebuild(glob, s.handler.listing, s.handler.version),
                            handled := s.handled + [Rebuilt(s.handler.version)]))
  {
    hide SortRules, RulesOf, Consecutive, ListingOf;
  }

  lemma HandledElsewhere(glob: Glob, s: State, step: Step)
    requires s.caches != [] && Enabled(s, step) && StartSound(s) && HandledSound(s)
    requires !step.SetReady? && !step.Deliver? && !step.ReplaceInHandler?
    ensures HandledSound(After(glob, s, step))
  {
    hide SortRules, RulesOf, ListingOf, FirstMatch;
  }

  lemma ReadersStep(glob: Glob, s: State, step: Step)
    requires Inv(glob, s) && Enabled(s, step)
    ensures ReadersSound(glob, After(glob, s, step))
  {
    hide SortRules, RulesOf, CacheRules, ListingOf, FirstMatch, Consecutive, HandledSound, EventsAccounted,
      StartSound, HandlerSound, Selected, AnsweredFrom;
    StoreStep(glob, s, step);
    var t := After(glob, s, step);
    forall a | a in t.answers ensures exists held :: held in t.snapshots && AnsweredFrom(glob, a, held) {
      if a in s.answers {
        var held :| held in s.snapshots && AnsweredFrom(glob, a, held);
        assert held in t.snapshots;
      } else {
        NewAnswer(glob, s, step.reader, step.input);
        assert s.snapshots[step.reader] in t.snapshots;
      }
    }
  }

  lemma NewAnswer(glob: Glob, s: State, reader: nat, input: MatchInput)
    requires reader < |s.snapshots|
    ensures var held := s.snapshots[reader];
            AnsweredFrom(glob, Answer(input, FirstMatch(glob, SortRules(held.rules), input), held.version), held)
  {
  }

  lemma InvStep(glob: Glob, s: State, t: State)
    requires Inv(glob, s) && Next(glob, s, t)
    ensures Inv(glob, t) && s.caches <= t.caches && NotNewer(s.store.version, t.store.version)
  {
    hide SortRules, RulesOf, CacheRules, After, Enabled, EventsAccounted, HandledSound, StartSound, HandlerSound,
      ReadersSound;
    var step :| Enabled(s, step) && t == After(glob, s, step);
    StoreStep(glob, s, step);
    EventsStep(glob, s, step);
    PhasesStep(glob, s, step);
    HandledStep(glob, s, step);
    ReadersStep(glob, s, step);
  }

  lemma {:induction false} InvHolds(glob: Glob, run: seq<State>, i: nat)
    requires Run(glob, run) && i < |run|
    ensures Inv(glob, run[i])
  {
    if i > 0 {
      InvHolds(glob, run, i - 1);
      InvStep(glob, run[i - 1], run[i]);
    }
  }

  // ---- what holds of every run --------------------------------------------------------

  /** The store is empty or holds all valid rules of one listed cache version, and it never
      moves to an older version. */
  lemma {:induction false} StoreNeverMovesBack(glob: Glob, run: seq<State>, i: nat, j: nat)
    requires Run(glob, run) && i <= j < |run|
    ensures Faithful(glob, run[j].caches, run[j].store)
    ensures run[i].caches <= run[j].caches && NotNewer(run[i].store.version, run[j].store.version)
  {
    hide Init, Next, Faithful;
    InvHolds(glob, run, j);
    if i < j {
      StoreNeverMovesBack(glob, run, i, j - 1);
      InvHolds(glob, run, j - 1);
      InvStep(glob, run[j - 1], run[j]);
    }
  }

  /** `rule` is what an annotated, valid ConfigMap of the cache says. */
  ghost predicate RuleOfCache(glob: Glob, cache: Cache, rule: Rule) {
    exists cm :: cm in cache.Values && IsRuleConfigMap(cm) && ParsedRule(glob, cm) == Ok(rule)
  }

  lemma {:induction false} RuleListed(glob: Glob, listing: seq<ConfigMap>, cm: ConfigMap)
    requires cm in listing && IsRuleConfigMap(cm) && ParsedRule(glob, cm).Ok?
    ensures ParsedRule(glob, cm).value in RulesOf(glob, listing)
  {
    hide IsRuleConfigMap, ParsedRule;
    if listing[|listing| - 1] != cm {
      assert cm in listing[..|listing| - 1];
      RuleListed(glob, listing[..|listing| - 1], cm);
    }
  }

  /** The stored rules are exactly the cache's. */
  lemma CacheRulesExact(glob: Glob, cache: Cache, rule: Rule)
    ensures rule in CacheRules(glob, cache) <==> RuleOfCache(glob, cache, rule)
    ensures UniqueNames(CacheRules(glob, cache))
  {
    hide IsRuleConfigMap, ParsedRule, RulesOf;
    var listing := Listed(cache.Values);
    SortContents(RulesOf(glob, listing), RuleBefore);
    SameElements(CacheRules(glob, cache), RulesOf(glob, listing));
    SameElements(listing, listing);
    ListingUnique(glob, listing, cache);
    if rule in RulesOf(glob, listing) {
      var cm := RulesOfSource(glob, listing, rule);
      assert cm in multiset(listing);
    }
    if RuleOfCache(glob, cache, rule) {
      var cm :| cm in cache.Values && IsRuleConfigMap(cm) && ParsedRule(glob, cm) == Ok(rule);
      assert cm in multiset(listing);
      RuleListed(glob, listing, cm);
    }
  }

  /** The right answer for a cache: of its rules that cover the request the one that ranks
      first, before all others, or none iff none covers it. */
  ghost predicate BestOfCache(glob: Glob, cache: Cache, input: MatchInput, found: Option<Rule>) {
    match found
    case None => forall r :: RuleOfCache(glob, cache, r) ==> !Covers(glob, r, input)
    case Some(best) =>
      && RuleOfCache(glob, cache, best) && Covers(glob, best, input)
      && forall r :: RuleOfCache(glob, cache, r) && Covers(glob, r, input) && r != best ==>
           RanksFirst(best, r) && RuleBefore(best, r)
  }

  lemma CacheChoice(glob: Glob, cache: Cache, input: MatchInput)
    ensures BestOfCache(glob, cache, input, Selected(glob, CacheRules(glob, cache), input))
  {
    hide RuleOfCache, RuleMatches, RuleBefore, RanksFirst, Covers, CacheRules, Selected;
    var rules := CacheRules(glob, cache);
    SelectedIsBest(glob, rules, input);
    SelectedCovers(glob, rules, input);
    forall r ensures RuleMatches(glob, r, input) <==> Covers(glob, r, input) {
      RuleMatchesExact(glob, r, input);
    }
    forall r ensures r in rules <==> RuleOfCache(glob, cache, r) {
      CacheRulesExact(glob, cache, r);
    }
    CacheRulesExact(glob, cache, Rule("", "", 0, "", [], [], [], [], [], [], [], ""));
  }

  /** Every answer is that of the empty initial rules, or the right one for a single cache
      version: no reader sees a half-replaced store or two listings mixed. */
  lemma AnswersFromOneListing(glob: Glob, run: seq<State>, i: nat, a: Answer)
    requires Run(glob, run) && i < |run| && a in run[i].answers
    ensures match a.version
            case None => a.found == None
            case Some(v) => v < |run[i].caches| && BestOfCache(glob, run[i].caches[v], a.input, a.found)
  {
    hide Run, CacheRules, BestOfCache, StartSound, HandlerSound, HandledSound, EventsAccounted;
    InvHolds(glob, run, i);
    var held :| held in run[i].snapshots && AnsweredFrom(glob, a, held);
    assert Faithful(glob, run[i].caches, held);
    if held.version.Some? {
      CacheChoice(glob, run[i].caches[held.version.value], a.input);
    }
  }

  /** Handling a change that is not dropped leaves the store at a version that includes the
      change: it holds exactly what that rebuild listed. */
  lemma HandlingRefreshes(glob: Glob, s: State)
    requires Inv(glob, s) && s.handler.Rebuilding?
    ensures var t := After(glob, s, ReplaceInHandler);
            && t.handled == s.handled + [Rebuilt(s.handler.version)]
            && |s.handled| + 1 == s.handler.change <= s.handler.version < |t.caches|
            && t.store == Held(CacheRules(glob, t.caches[s.handler.version]), Some(s.handler.version))
  {
    hide SortRules, RulesOf, CacheRules, ListingOf, ReadersSound, HandledSound, StartSound, Consecutive;
    ListingIrrelevant(glob, s.handler.listing, s.caches[s.handler.version]);
  }

  /** From then on the store never falls behind a change that was handled and not dropped. */
  lemma NeverBehindHandled(glob: Glob, run: seq<State>, i: nat, change: nat)
    requires Run(glob, run) && i < |run| && 1 <= change <= |run[i].handled| && run[i].handled[change - 1].Rebuilt?
    ensures run[i].store.version.Some? && change <= run[i].store.version.value
  {
    hide Run, CacheRules, ReadersSound, EventsAccounted, HandlerSound;
    InvHolds(glob, run, i);
    var s := run[i];
    assert s.handled[|s.handled| - 1].Rebuilt?;
  }

  // ---- quiet states ----------------------------------------------------------------------

  /** Started, with no change left to handle. */
  ghost predicate Settled(s: State) {
    s.start.Started? && s.handler.Idle? && forall i :: 0 <= i < |s.queue| ==> s.queue[i].Resync?
  }

  lemma {:induction false} OnlyResyncs(queue: seq<Event>, first: nat, end: nat)
    requires Consecutive(queue, first, end) && forall i :: 0 <= i < |queue| ==> queue[i].Resync?
    ensures first == end
  {
    if queue != [] {
      OnlyResyncs(queue[1..], first, end);
    }
  }

  /** The last change was delivered before Start set the ready flag. */
  predicate LastChangeDropped(s: State) {
    s.handled != [] && s.handled[|s.handled| - 1].Dropped?
  }

  /** Once settled, the store is at the current cache version unless the last change was
      dropped after Start had listed; then it stays at the version Start listed. */
  lemma SettledExact(glob: Glob, run: seq<State>, i: nat)
    requires Run(glob, run) && i < |run| && Settled(run[i])
    ensures var s := run[i];
            && s.caches != [] && s.start.version < |s.caches|
            && (s.store.version == Some(Current(s)) <==> LastChangeDropped(s) ==> s.start.version == Current(s))
            && s.store.rules == CacheRules(glob, s.caches[if LastChangeDropped(s) then s.start.version else Current(s)])
  {
    hide Run, CacheRules, ReadersSound, Consecutive;
    InvHolds(glob, run, i);
    var s := run[i];
    OnlyResyncs(s.queue, |s.handled| + 1, |s.caches|);
  }

  /** Until the cache changes again nothing repairs a stale store: resyncs are skipped. */
  lemma SettledStays(glob: Glob, s: State, step: Step)
    requires s.caches != [] && Settled(s) && Enabled(s, step) && !step.ChangeCache?
    ensures var t := After(glob, s, step); Settled(t) && t.store == s.store && t.caches == s.caches
  {
    hide ListingOf, SortRules, RulesOf, FirstMatch;
  }

  lemma SingleRule(glob: Glob, cm: ConfigMap, cache: Cache)
    requires IsRuleConfigMap(cm) && ParsedRule(glob, cm).Ok? && cache.Values == {cm}
    ensures CacheRules(glob, cache) == [ParsedRule(glob, cm).value]
  {
    hide IsRuleConfigMap, ParsedRule;
    assert [cm][..0] == [];
    assert RulesOf(glob, [cm]) == [ParsedRule(glob, cm).value];
    assert ListingOf([cm], cache);
    ListingIrrelevant(glob, [cm], cache);
  }

  lemma Taken(glob: Glob, s: State, step: Step)
    requires s.caches != [] && Enabled(s, step)
    ensures Next(glob, s, After(glob, s, step))
  {
  }

  /** A run in which the cache changes once, after Start has listed and before it is ready. */
  lemma ChangeDuringStart(glob: Glob, cache: Cache) returns (run: seq<State>)
    ensures Run(glob, run)
    ensures run[|run| - 1]
         == State([map[], cache], [], Started(0), Idle, true, Held([], Some(0)), [Dropped], [], [])
  {
    hide Next, CacheRules;
    var s0 := State([map[]], [], Waiting, Idle, false, Held([], None), [], [], []);
    var s1 := s0.(start := StartListed([], 0));
    assert Next(glob, s0, s1) by { Taken(glob, s0, ListAtStart([])); assert After(glob, s0, ListAtStart([])) == s1; }
    var s2 := s1.(caches := [map[], cache], queue := [Change(1)]);
    assert Next(glob, s1, s2) by {
      Taken(glob, s1, ChangeCache(cache));
      assert After(glob, s1, ChangeCache(cache)) == s2;
    }
    var s3 := s2.(queue := [], handled := [Dropped]);
    assert Next(glob, s2, s3) by { Taken(glob, s2, Deliver); assert After(glob, s2, Deliver) == s3; }
    var s4 := s3.(start := StartReplaced(0), store := Held([], Some(0)));
    assert Next(glob, s3, s4) by { Taken(glob, s3, ReplaceAtStart); assert After(glob, s3, ReplaceAtStart) == s4; }
    var s5 := s4.(start := Started(0), ready := true);
    assert Next(glob, s4, s5) by { Taken(glob, s4, SetReady); assert After(glob, s4, SetReady) == s5; }
    run := [s0, s1, s2, s3, s4, s5];
  }

  /** Staleness is real for every rule ConfigMap: one that appears between Start's listing
      and the ready flag is missing from the settled store. */
  lemma StaleAfterStart(glob: Glob, cm: ConfigMap) returns (run: seq<State>)
    requires IsRuleConfigMap(cm) && ParsedRule(glob, cm).Ok?
    ensures Run(glob, run)
    ensures var last := run[|run| - 1];
            && Settled(last) && last.queue == []
            && last.caches == [map[], map[Id(cm.namespace, cm.name) := cm]]
            && last.store.rules == [] && CacheRules(glob, last.caches[1]) == [ParsedRule(glob, cm).value]
  {
    hide IsRuleConfigMap, ParsedRule, Run, CacheRules;
    var full: Cache := map[Id(cm.namespace, cm.name) := cm];
    run := ChangeDuringStart(glob, full);
    assert full.Values == {cm};
    SingleRule(glob, cm, full);
  }
}
