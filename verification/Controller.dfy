/** The rule controller: `pkg/rules/watcher.go`. */
module Controller {
  import opened Text
  import opened Sorting
  import opened Rules
  import opened RuleStore
  import opened RuleText

  // ---- rebuilding -------------------------------------------------------------

  /** The rule of a ConfigMap: none when it is not annotated, or not valid. */
  function RuleIn(glob: Glob, cm: ConfigMap): seq<Rule> {
    if IsRuleConfigMap(cm) && ParsedRule(glob, cm).Ok? then [ParsedRule(glob, cm).value] else []
  }

  /** The valid rules among listed ConfigMaps, in the order of the list. */
  function RulesOf(glob: Glob, listing: seq<ConfigMap>): seq<Rule> {
    if listing == [] then []
    else RulesOf(glob, listing[..|listing| - 1]) + RuleIn(glob, listing[|listing| - 1])
  }

  /** A rule struct with slices of its own. */
  method NewStruct(rule: Rule) returns (r: RuleStruct)
    ensures fresh(Slices(r)) && ValueOf(r) == rule
  {
    var namespaces := CopyToArray(rule.namespaces);
    var selectors := CopyToArray(rule.selectors);
    var labels := CopyToArray(rule.labels);
    var exclude := CopyToArray(rule.exclude);
    var includes := CopyToArray(rule.includes);
    var mutable := CopyToArray(rule.mutable);
    var users := CopyToArray(rule.users);
    r := RuleStruct(rule.name, rule.namespace, rule.priority, rule.mode, namespaces, selectors, labels, exclude,
                    includes, mutable, users, rule.bypass);
  }

  /** Parses one ConfigMap of a listing. */
  method ParseListed(glob: Glob, cm: ConfigMap) returns (rule: Option<Rule>)
    ensures RuleIn(glob, cm) == if rule.Some? then [rule.value] else []
  {
    hide ParsedRule;
    if !IsRuleConfigMap(cm) {
      return None;
    }
    var parsed := ParseConfigMap(glob, cm);
    rule := if parsed.Ok? then Some(parsed.value) else None;
  }

  class Controller {
    const store: Store
    const glob: Glob
    var ready: bool

    constructor (store: Store, glob: Glob)
      ensures this.store == store && this.glob == glob && !ready
    {
      this.store, this.glob, ready := store, glob, false;
    }

    /** Parses what was listed and replaces the stored rules; invalid rules are skipped. */
    method RebuildRules(configMaps: seq<ConfigMap>)
      modifies store
      ensures store.Valid() && fresh(store.rules) && fresh(store.Repr)
      ensures store.Contents() == SortRules(RulesOf(glob, configMaps))
    {
      hide RuleIn, SortRules;
      var validRules: seq<RuleStruct> := [];
      ghost var own: set<object> := {};
      for i := 0 to |configMaps|
        invariant fresh(own) && Owned(validRules, own)
        invariant ValuesOf(validRules, own) == RulesOf(glob, configMaps[..i])
      {
        assert configMaps[..i + 1][..i] == configMaps[..i];
        var rule := ParseListed(glob, configMaps[i]);
        if rule.None? {
          continue;
        }
        ghost var values := ValuesOf(validRules, own);
        var parsed := NewStruct(rule.value);
        validRules := validRules + [parsed];
        own := own + Slices(parsed);
        assert ValuesOf(validRules, own) == values + [rule.value];
      }
      assert configMaps[..|configMaps|] == configMaps;
      var given := CopyToArray(validRules);
      store.Replace(given, own);
    }

    /** What every event handler ends in. */
    method TriggerRebuild(configMaps: seq<ConfigMap>)
      requires store.Valid()
      modifies store
      ensures store.Valid()
      ensures store.Contents() == if ready then SortRules(RulesOf(glob, configMaps)) else old(store.Contents())
    {
      if !ready {
        return;
      }
      RebuildRules(configMaps);
    }

    /** The last part of Start, after the caches are in sync. */
    method Start(configMaps: seq<ConfigMap>)
      modifies this`ready, store
      ensures store.Valid() && ready
      ensures store.Contents() == SortRules(RulesOf(glob, configMaps))
    {
      RebuildRules(configMaps);
      ready := true;
    }

    /** The update handler: a resync, which leaves the resource version, is skipped. */
    method OnUpdate(oldVersion: string, newVersion: string, configMaps: seq<ConfigMap>)
      requires store.Valid()
      modifies store
      ensures store.Valid()
      ensures store.Contents()
           == if ready && oldVersion != newVersion then SortRules(RulesOf(glob, configMaps)) else old(store.Contents())
    {
      if oldVersion == newVersion {
        return;
      }
      TriggerRebuild(configMaps);
    }
  }

  // ---- the cache ------------------------------------------------------------------

  datatype Id = Id(namespace: string, name: string)

  /** The informer's cache: ConfigMaps under their own namespace and name. */
  type Cache = c: map<Id, ConfigMap> | forall id :: id in c ==> id == Id(c[id].namespace, c[id].name)
    witness map[]

  /** The lister returns every cached ConfigMap once, in any order. */
  ghost predicate ListingOf(listing: seq<ConfigMap>, cache: Cache) {
    multiset(listing) == multiset(cache.Values)
  }

  ghost function Listed(s: set<ConfigMap>): (listing: seq<ConfigMap>)
    ensures multiset(listing) == multiset(s)
    decreases |s|
  {
    if s == {} then []
    else
      var cm :| cm in s;
      assert s == (s - {cm}) + {cm};
      [cm] + Listed(s - {cm})
  }

  /** The rules a cache stands for, in the order the store keeps them. */
  ghost function CacheRules(glob: Glob, cache: Cache): seq<Rule> {
    SortRules(RulesOf(glob, Listed(cache.Values)))
  }

  function RuleBag(glob: Glob, cm: ConfigMap): multiset<Rule> {
    multiset(RuleIn(glob, cm))
  }

  lemma RulesOfLast(glob: Glob, init: seq<ConfigMap>, last: ConfigMap)
    ensures multiset(RulesOf(glob, init + [last])) == multiset(RulesOf(glob, init)) + RuleBag(glob, last)
  {
    hide RuleIn;
    assert (init + [last])[..|init|] == init;
  }

  lemma {:induction false} RulesOfRemoved(glob: Glob, before: seq<ConfigMap>, cm: ConfigMap, after: seq<ConfigMap>)
    ensures multiset(RulesOf(glob, before + [cm] + after))
         == multiset(RulesOf(glob, before + after)) + RuleBag(glob, cm)
    decreases |after|
  {
    hide RulesOf, RuleBag;
    if after == [] {
      assert before + [cm] + after == before + [cm] && before + after == before;
      RulesOfLast(glob, before, cm);
    } else {
      var init, last := after[..|after| - 1], after[|after| - 1];
      RulesOfRemoved(glob, before, cm, init);
      assert before + [cm] + after == before + [cm] + init + [last];
      assert before + after == before + init + [last];
      RulesOfLast(glob, before + [cm] + init, last);
      RulesOfLast(glob, before + init, last);
    }
  }

  lemma {:induction false} RulesOfPermutation(glob: Glob, listing: seq<ConfigMap>, other: seq<ConfigMap>)
    requires multiset(listing) == multiset(other)
    ensures multiset(RulesOf(glob, listing)) == multiset(RulesOf(glob, other))
    decreases |listing|
  {
    hide RulesOf, RuleBag;
    SameElements(listing, other);
    if listing == [] {
      assert other == [];
    } else {
      var init, cm := listing[..|listing| - 1], listing[|listing| - 1];
      var i := Position(other, cm);
      var before, after := other[..i], other[i + 1..];
      assert other == before + [cm] + after;
      assert listing == init + [cm];
      assert multiset(other) == multiset(before + after) + multiset{cm};
      assert multiset(init) == multiset(listing) - multiset{cm};
      RulesOfPermutation(glob, init, before + after);
      RulesOfRemoved(glob, before, cm, after);
      RulesOfLast(glob, init, cm);
    }
  }

  lemma Position(listing: seq<ConfigMap>, cm: ConfigMap) returns (i: nat)
    requires cm in multiset(listing)
    ensures i < |listing| && listing[i] == cm
  {
    i :| 0 <= i < |listing| && listing[i] == cm;
  }

  /** Where a rule comes from. */
  lemma {:induction false} RulesOfSource(glob: Glob, listing: seq<ConfigMap>, r: Rule) returns (cm: ConfigMap)
    requires r in RulesOf(glob, listing)
    ensures cm in listing && IsRuleConfigMap(cm) && ParsedRule(glob, cm) == Ok(r)
  {
    var init, last := listing[..|listing| - 1], listing[|listing| - 1];
    if r in RulesOf(glob, init) {
      cm := RulesOfSource(glob, init, r);
    } else {
      cm := last;
    }
  }

  lemma ParsedRuleNames(glob: Glob, cm: ConfigMap)
    requires ParsedRule(glob, cm).Ok?
    ensures ParsedRule(glob, cm).value.name == cm.name && ParsedRule(glob, cm).value.namespace == cm.namespace
    ensures IsValidMode(ParsedRule(glob, cm).value.mode)
  {
    hide ParsedSpec;
  }

  lemma ListingUnique(glob: Glob, listing: seq<ConfigMap>, cache: Cache)
    requires ListingOf(listing, cache)
    ensures UniqueNames(RulesOf(glob, listing))
  {
    var rules := RulesOf(glob, listing);
    forall l, r | l in rules && r in rules && l.namespace == r.namespace && l.name == r.name ensures l == r {
      var a := RulesOfSource(glob, listing, l);
      var b := RulesOfSource(glob, listing, r);
      ParsedRuleNames(glob, a);
      ParsedRuleNames(glob, b);
      assert a in multiset(listing) && b in multiset(listing);
      assert a in cache.Values && b in cache.Values;
    }
  }

  /** What a rebuild stores does not depend on the order of the listing. */
  lemma ListingIrrelevant(glob: Glob, listing: seq<ConfigMap>, cache: Cache)
    requires ListingOf(listing, cache)
    ensures SortRules(RulesOf(glob, listing)) == CacheRules(glob, cache)
  {
    ListingUnique(glob, listing, cache);
    RulesOfPermutation(glob, listing, Listed(cache.Values));
    ChoiceIgnoresListing(glob, RulesOf(glob, listing), RulesOf(glob, Listed(cache.Values)),
                         MatchInput("", "", "", map[]));
  }
}
