/** Isolation of the rule store from its callers, over whole sessions. */
module StoreSession {
  import opened Text
  import opened Sorting
  import opened Rules
  import opened RuleStore

  /** What a caller may do. The last three write to memory that the caller passed in or was
      handed out: any contents into every slice it can reach, a rule of its own into any
      rule array, or a reachable rule under another name into any rule array. */
  datatype Action =
    | ReplaceWith(which: nat)
    | TakeSnapshot
    | Ask(input: MatchInput)
    | OverwriteSlices
    | OverwriteRule(which: nat, index: nat, rule: RuleStruct)
    | RenameRule(which: nat, index: nat, from: nat, at: nat, name: string, namespace: string, priority: int, mode: Mode)

  /** A question, how many replacements came before it, and the answer. */
  datatype Answer = Answer(epoch: nat, input: MatchInput, rule: Option<Rule>)

  /** What the store must hold after the given replacements. */
  ghost function Expected(initial: seq<Rule>, replaced: seq<seq<Rule>>): seq<Rule> {
    if replaced == [] then initial else SortRules(replaced[|replaced| - 1])
  }

  ghost predicate AnswersRight(glob: Glob, initial: seq<Rule>, replaced: seq<seq<Rule>>, answers: seq<Answer>) {
    forall i :: 0 <= i < |answers| ==>
      && answers[i].epoch <= |replaced|
      && answers[i].rule == Selected(glob, Expected(initial, replaced[..answers[i].epoch]), answers[i].input)
  }

  // ---- what a session must do -------------------------------------------------------------

  /** The rules that stand in each of the caller's arrays. */
  type View = seq<seq<Rule>>

  /** The history of a session: what was replaced, and what was answered. */
  datatype History = History(replaced: seq<seq<Rule>>, answers: seq<Answer>)

  /** What an action adds to the history, given what stands in the caller's arrays before it. */
  ghost function Recorded(glob: Glob, initial: seq<Rule>, h: History, action: Action, view: View): History {
    match action
    case ReplaceWith(which) => if which < |view| then h.(replaced := h.replaced + [view[which]]) else h
    case Ask(input) =>
      h.(answers := h.answers + [Answer(|h.replaced|, input, Selected(glob, Expected(initial, h.replaced), input))])
    case _ => h
  }

  /** How an action may change what stands in the caller's arrays: a snapshot brings a copy of
      what the store holds, and only the caller's own writes alter contents. */
  ghost predicate ViewStep(initial: seq<Rule>, h: History, action: Action, before: View, after: View) {
    match action
    case TakeSnapshot => after == before + [Expected(initial, h.replaced)]
    case ReplaceWith(_) => after == before
    case Ask(_) => after == before
    case _ => SameShape(before, after)
  }

  ghost predicate SameShape(before: View, after: View) {
    |after| == |before| && forall i :: 0 <= i < |before| ==> |after[i]| == |before[i]|
  }

  /** The history after the first `n` actions, of which action `i` found `views[i]`. */
  ghost function HistoryAt(glob: Glob, initial: seq<Rule>, h: History, actions: seq<Action>, views: seq<View>,
                           n: nat): History
    requires n <= |actions| && n <= |views|
  {
    if n == 0 then h
    else Recorded(glob, initial, HistoryAt(glob, initial, h, actions, views, n - 1), actions[n - 1], views[n - 1])
  }

  /** The views follow the actions. */
  ghost predicate Follows(glob: Glob, initial: seq<Rule>, h: History, actions: seq<Action>, views: seq<View>, n: nat) {
    && n <= |actions| && |views| == n + 1
    && forall i :: 0 <= i < n ==>
         ViewStep(initial, HistoryAt(glob, initial, h, actions, views, i), actions[i], views[i], views[i + 1])
  }

  lemma {:induction false} HistoryPrefix(glob: Glob, initial: seq<Rule>, h: History, actions: seq<Action>,
                                         views: seq<View>, more: seq<View>, n: nat)
    requires n <= |actions| && n <= |views| && views <= more
    ensures HistoryAt(glob, initial, h, actions, more, n) == HistoryAt(glob, initial, h, actions, views, n)
  {
    hide Recorded;
    if n > 0 {
      HistoryPrefix(glob, initial, h, actions, views, more, n - 1);
    }
  }

  lemma FollowsOn(glob: Glob, initial: seq<Rule>, h: History, actions: seq<Action>, views: seq<View>, n: nat,
                  view: View)
    requires n < |actions| && Follows(glob, initial, h, actions, views, n)
    requires ViewStep(initial, HistoryAt(glob, initial, h, actions, views, n), actions[n], views[n], view)
    ensures Follows(glob, initial, h, actions, views + [view], n + 1)
    ensures HistoryAt(glob, initial, h, actions, views + [view], n + 1)
         == Recorded(glob, initial, HistoryAt(glob, initial, h, actions, views, n), actions[n], views[n])
  {
    hide Recorded, ViewStep;
    var more := views + [view];
    forall i | 0 <= i <= n
      ensures HistoryAt(glob, initial, h, actions, more, i) == HistoryAt(glob, initial, h, actions, views, i)
    {
      HistoryPrefix(glob, initial, h, actions, views, more, i);
    }
  }

  /** Without writes of the caller's own, views and history are determined by the actions and
      the first view. */
  lemma {:induction false} QuietDetermined(glob: Glob, initial: seq<Rule>, h: History, actions: seq<Action>,
                                           views: seq<View>, others: seq<View>, n: nat)
    requires Follows(glob, initial, h, actions, views, n) && Follows(glob, initial, h, actions, others, n)
    requires views[0] == others[0]
    requires forall i :: 0 <= i < n ==> actions[i].ReplaceWith? || actions[i].TakeSnapshot? || actions[i].Ask?
    ensures views == others
  {
    if n == 0 {
      assert views == others;
    } else {
      var init, inits := views[..n], others[..n];
      forall i | 0 <= i < n
        ensures HistoryAt(glob, initial, h, actions, init, i) == HistoryAt(glob, initial, h, actions, views, i)
        ensures HistoryAt(glob, initial, h, actions, inits, i) == HistoryAt(glob, initial, h, actions, others, i)
      {
        HistoryPrefix(glob, initial, h, actions, init, views, i);
        HistoryPrefix(glob, initial, h, actions, inits, others, i);
      }
      QuietDetermined(glob, initial, h, actions, init, inits, n - 1);
      assert views == init + [views[n]] && others == inits + [others[n]];
      assert views[n - 1] == init[n - 1] && others[n - 1] == inits[n - 1];
    }
  }

  ghost function ViewOf(arrays: seq<array<RuleStruct>>, slices: set<object>): (view: View)
    requires forall a :: a in arrays ==> Owned(a[..], slices)
    reads arrays, slices
    ensures |view| == |arrays|
    ensures forall i :: 0 <= i < |arrays| ==> view[i] == ValuesOf(arrays[i][..], slices)
  {
    seq(|arrays|, i requires 0 <= i < |arrays| && Owned(arrays[i][..], slices) reads arrays, slices =>
      ValuesOf(arrays[i][..], slices))
  }

  /** More reachable slices make no difference to what stands in the arrays. */
  lemma ViewGrows(arrays: seq<array<RuleStruct>>, slices: set<object>, more: set<object>)
    requires slices <= more && forall a :: a in arrays ==> Owned(a[..], slices)
    ensures forall a :: a in arrays ==> Owned(a[..], more)
    ensures ViewOf(arrays, more) == ViewOf(arrays, slices)
  {
    forall a | a in arrays ensures Owned(a[..], more) && ValuesOf(a[..], more) == ValuesOf(a[..], slices) {
      assert Owned(a[..], slices);
    }
  }

  lemma ViewAppends(arrays: seq<array<RuleStruct>>, a: array<RuleStruct>, slices: set<object>)
    requires Owned(a[..], slices) && forall b :: b in arrays ==> Owned(b[..], slices)
    ensures ViewOf(arrays + [a], slices) == ViewOf(arrays, slices) + [ViewOf([a], slices)[0]]
  {
    hide Owned;
  }

  lemma AnswersStayRight(glob: Glob, initial: seq<Rule>, replaced: seq<seq<Rule>>, answers: seq<Answer>,
                         next: seq<Rule>)
    requires AnswersRight(glob, initial, replaced, answers)
    ensures AnswersRight(glob, initial, replaced + [next], answers)
  {
    forall i | 0 <= i < |answers|
      ensures (replaced + [next])[..answers[i].epoch] == replaced[..answers[i].epoch]
    {
    }
  }

  lemma AnswersGrow(glob: Glob, initial: seq<Rule>, replaced: seq<seq<Rule>>, answers: seq<Answer>, input: MatchInput)
    requires AnswersRight(glob, initial, replaced, answers)
    ensures AnswersRight(glob, initial, replaced,
              answers + [Answer(|replaced|, input, Selected(glob, Expected(initial, replaced), input))])
  {
    assert replaced[..|replaced|] == replaced;
  }

  /** A store and a caller with everything the caller can reach. */
  class Session {
    const store: Store
    const glob: Glob
    /** Rule arrays the caller passed in or was handed out. */
    var arrays: seq<array<RuleStruct>>
    /** The slices it can reach. */
    ghost var slices: set<object>
    ghost const initial: seq<Rule>
    /** The rules given to each `Replace`, as they were at the call. */
    ghost var replaced: seq<seq<Rule>>
    ghost var answers: seq<Answer>

    /** The caller's memory is apart from the store's own. */
    ghost predicate Apart()
      reads this, store, arrays
    {
      && (forall a :: a in arrays ==> Owned(a[..], slices) && a !in slices && a != store.rules && a !in store.Repr)
      && store !in slices && this !in slices
      && store.rules !in slices && store.Repr !! slices
      && this !in store.Repr
    }

    ghost predicate Valid()
      reads this, store, store.rules, store.Repr, arrays
    {
      && store.Valid() && Apart()
      && store.Contents() == Expected(initial, replaced)
      && AnswersRight(glob, initial, replaced, answers)
    }

    /** What stands in the caller's arrays now. */
    ghost function Seen(): View
      requires Apart()
      reads this, store, arrays, slices
    {
      ViewOf(arrays, slices)
    }

    ghost function Past(): History
      reads this
    {
      History(replaced, answers)
    }

    constructor (store: Store, glob: Glob, arrays: seq<array<RuleStruct>>, ghost slices: set<object>)
      requires store.Valid()
      requires forall a :: a in arrays ==> Owned(a[..], slices) && a !in slices && a != store.rules && a !in store.Repr
      requires store !in slices && store.rules !in slices && store.Repr !! slices
      ensures Valid() && this.store == store && this.glob == glob && this.arrays == arrays && this.slices == slices
      ensures initial == store.Contents() && replaced == [] && answers == []
    {
      this.store, this.glob, this.arrays, this.slices := store, glob, arrays, slices;
      initial, replaced, answers := store.Contents(), [], [];
    }

    method StoreGiven(which: nat)
      requires Valid() && which < |arrays|
      modifies store
      ensures store.Valid() && Apart() && Seen() == old(Seen())
      ensures store.Contents() == SortRules(old(Seen()[which]))
    {
      hide AnswersRight, SortRules, Sorted, Expected;
      store.Replace(arrays[which], slices);
    }

    method Replace(which: nat)
      requires Valid()
      modifies this`replaced, store
      ensures Valid() && Seen() == old(Seen())
      ensures Past() == old(Recorded(glob, initial, Past(), ReplaceWith(which), Seen()))
    {
      if which < |arrays| {
        hide AnswersRight, SortRules, Sorted, Apart, ViewOf, Expected;
        ghost var given := Seen()[which];
        StoreGiven(which);
        Record(given);
      }
    }

    ghost method Record(given: seq<Rule>)
      requires store.Valid() && Apart() && store.Contents() == SortRules(given)
      requires AnswersRight(glob, initial, replaced, answers)
      modifies this`replaced
      ensures Valid() && Seen() == old(Seen())
      ensures replaced == old(replaced) + [given]
    {
      hide AnswersRight, SortRules, Sorted, Owned;
      AnswersStayRight(glob, initial, replaced, answers, given);
      replaced := replaced + [given];
    }

    method TakeSnapshot()
      requires Valid()
      modifies this`arrays, this`slices
      ensures Valid() && Seen() == old(Seen()) + [Expected(initial, replaced)]
      ensures old(slices) <= slices && fresh(slices - old(slices))
      ensures |arrays| == |old(arrays)| + 1 && arrays[..|arrays| - 1] == old(arrays) && fresh(arrays[|arrays| - 1])
    {
      hide AnswersRight, Expected, Sorted;
      var snapshot, own := store.Snapshot();
      assert ViewOf([snapshot], own)[0] == store.Contents();
      Keep(snapshot, own);
    }

    /** Adds an array that is apart from the store to what the caller can reach. */
    method Keep(array': array<RuleStruct>, ghost own: set<object>)
      requires Valid() && Owned(array'[..], own)
      requires array' != store.rules && array' !in store.Repr && array' !in slices && array' !in own
      requires own !! store.Repr && store !in own && this !in own && store.rules !in own
      requires forall a :: a in arrays ==> a !in own
      modifies this`arrays, this`slices
      ensures Valid() && Seen() == old(Seen()) + [ViewOf([array'], own)[0]]
      ensures arrays == old(arrays) + [array'] && slices == old(slices) + own
    {
      hide AnswersRight, Expected, Sorted, SortRules;
      ViewGrows(arrays, slices, slices + own);
      ViewGrows([array'], own, slices + own);
      ViewAppends(arrays, array', slices + own);
      arrays := arrays + [array'];
      slices := slices + own;
    }

    /** Hands the store's answer to the caller, and records it. */
    method Ask(input: MatchInput) returns (found: Option<RuleStruct>)
      requires Valid()
      modifies this`slices, this`answers
      ensures Valid() && Seen() == old(Seen())
      ensures old(slices) <= slices && fresh(slices - old(slices))
      ensures Past() == old(Recorded(glob, initial, Past(), Action.Ask(input), Seen()))
      ensures HandedLast(found)
    {
      hide AnswersRight, Selected, Expected;
      AnswersGrow(glob, initial, replaced, answers, input);
      ghost var answer;
      found, answer := AskStore(input);
      answers := answers + [Answer(|replaced|, input, answer)];
    }

    /** The store's answer, and the rule that the struct it handed out stands for. */
    method AskStore(input: MatchInput) returns (found: Option<RuleStruct>, ghost answer: Option<Rule>)
      requires Valid()
      modifies this`slices
      ensures Valid() && Seen() == old(Seen())
      ensures old(slices) <= slices && fresh(slices - old(slices))
      ensures answer == Selected(glob, Expected(initial, replaced), input)
      ensures found.Some? ==> Slices(found.value) <= slices
      ensures answer == if found.Some? then Some(ValueOf(found.value)) else None
    {
      hide Selected, Expected, AnswersRight;
      found := store.Match(glob, input);
      answer := if found.Some? then Some(ValueOf(found.value)) else None;
      if found.Some? {
        ViewGrows(arrays, slices, slices + Slices(found.value));
        slices := slices + Slices(found.value);
      }
    }

    /** Any contents into every reachable slice. */
    method OverwriteSlices()
      requires Valid()
      modifies slices
      ensures Valid() && SameShape(old(Seen()), Seen())
      ensures Past() == old(Past()) && arrays == old(arrays) && slices == old(slices)
    {
      modify slices;
    }

    method OverwriteRule(which: nat, index: nat, rule: RuleStruct)
      requires Valid() && Slices(rule) <= slices
      modifies arrays
      ensures Valid() && SameShape(old(Seen()), Seen())
    {
      if which < |arrays| && index < arrays[which].Length {
        arrays[which][index] := rule;
      }
    }

    method RenameRule(which: nat, index: nat, from: nat, at: nat, name: string, namespace: string, priority: int,
                      mode: Mode)
      requires Valid()
      modifies arrays
      ensures Valid() && SameShape(old(Seen()), Seen())
    {
      if from < |arrays| && at < arrays[from].Length {
        var rule := arrays[from][at];
        assert arrays[from] in arrays && rule in arrays[from][..];
        OverwriteRule(which, index, rule.(name := name, namespace := namespace, priority := priority, mode := mode));
      }
    }

    /** The struct in the caller's hands stands for the last recorded answer. */
    ghost predicate HandedLast(found: Option<RuleStruct>)
      reads this, slices
    {
      && answers != []
      && (found.Some? ==> Slices(found.value) <= slices)
      && answers[|answers| - 1].rule == match found
                                        case None => None
                                        case Some(r) => if Slices(r) <= slices then Some(ValueOf(r)) else None
    }

    /** One action, and what it hands out. */
    method Perform(action: Action) returns (found: Option<RuleStruct>)
      requires Valid()
      requires action.OverwriteRule? ==> Slices(action.rule) <= slices
      modifies this, store, arrays, slices
      ensures Valid() && ViewStep(initial, old(Past()), action, old(Seen()), Seen())
      ensures Past() == Recorded(glob, initial, old(Past()), action, old(Seen()))
      ensures action.Ask? ==> HandedLast(found)
      ensures old(slices) <= slices && fresh(slices - old(slices))
      ensures forall j :: 0 <= j < |arrays| ==> arrays[j] in old(arrays) || fresh(arrays[j])
    {
      hide Expected, Selected, Valid, HandedLast;
      found := None;
      match action
      case ReplaceWith(which) => Replace(which);
      case TakeSnapshot =>
        ghost var before := arrays;
        TakeSnapshot();
        assert arrays == before + [arrays[|arrays| - 1]];
      case Ask(input) => found := Ask(input);
      case OverwriteSlices => OverwriteSlices();
      case OverwriteRule(which, index, rule) => OverwriteRule(which, index, rule);
      case RenameRule(which, index, from, at, name, namespace, priority, mode) =>
        RenameRule(which, index, from, at, name, namespace, priority, mode);
    }

    /** Whatever the caller does, every replacement stores what then stood in the caller's
        array, every answer is that of the last replacement before it, every snapshot hands
        out a copy of it, and nothing else changes the store: the history is the one that the
        actions record, and the store holds the last replaced rules, sorted. A run that ends
        with a question hands out a struct that stands for the recorded answer. */
    method Run(actions: seq<Action>) returns (ghost views: seq<View>, found: Option<RuleStruct>)
      requires Valid()
      requires forall i :: 0 <= i < |actions| && actions[i].OverwriteRule? ==> Slices(actions[i].rule) <= slices
      modifies this, store, arrays, slices
      ensures Valid()
      ensures Follows(glob, initial, old(Past()), actions, views, |actions|)
      ensures views[0] == old(Seen()) && views[|actions|] == Seen()
      ensures Past() == HistoryAt(glob, initial, old(Past()), actions, views, |actions|)
      ensures store.Contents() == Expected(initial, replaced)
      ensures actions != [] && actions[|actions| - 1].Ask? ==> HandedLast(found)
    {
      found := None;
      ghost var past := Past();
      views := [Seen()];
      for i := 0 to |actions|
        invariant Valid()
        invariant old(slices) <= slices && fresh(slices - old(slices))
        invariant forall j :: 0 <= j < |arrays| ==> arrays[j] in old(arrays) || fresh(arrays[j])
        invariant Follows(glob, initial, past, actions, views, i)
        invariant views[0] == old(Seen()) && views[i] == Seen()
        invariant Past() == HistoryAt(glob, initial, past, actions, views, i)
        invariant i > 0 && actions[i - 1].Ask? ==> HandedLast(found)
      {
        hide Follows, HistoryAt, Recorded, ViewStep, Expected, HandedLast;
        found := Perform(actions[i]);
        FollowsOn(glob, initial, past, actions, views, i, Seen());
        views := views + [Seen()];
      }
    }
  }
}
