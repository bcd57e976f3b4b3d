/** Documents as Go lays them out, maps and slices behind references: the copy that `Strip`
    makes and the annotation that `removeAnnotation` deletes from it in place
    (`pkg/diff/strip.go`, `pkg/admission/validator.go`). */
module Linked {
  import opened Paths
  import opened Trees
  import opened Strip
  import opened Admission

  class JsonMap {
    var entries: map<string, Node>
    /** This map and all maps and lists below it. */
    ghost var Repr: set<object>

    constructor ()
      ensures entries == map[] && Repr == {this}
    {
      entries := map[];
      Repr := {this};
    }
  }

  class JsonList {
    var items: seq<Node>
    ghost var Repr: set<object>

    constructor (length: nat)
      ensures items == seq(length, _ => NullNode) && Repr == {this}
    {
      items := seq(length, _ => NullNode);
      Repr := {this};
    }
  }

  datatype Node =
    | NullNode
    | BoolNode(flag: bool)
    | NumberNode(number: real)
    | StringNode(text: string)
    | MapNode(map_: JsonMap)
    | ListNode(list: JsonList)

  ghost function Top(n: Node): set<object> {
    match n
    case MapNode(m) => {m}
    case ListNode(l) => {l}
    case _ => {}
  }

  /** All maps and lists of a node. */
  ghost function Reach(n: Node): set<object>
    reads Top(n)
  {
    match n
    case MapNode(m) => m.Repr
    case ListNode(l) => l.Repr
    case _ => {}
  }

  /** The node is a tree, sharing no map or list, and stands for the value. */
  ghost predicate Shows(n: Node, v: Json)
    reads Top(n), Reach(n)
    decreases v
  {
    match (n, v)
    case (NullNode, Null) => true
    case (BoolNode(b), Bool(c)) => b == c
    case (NumberNode(x), Number(y)) => x == y
    case (StringNode(s), String(t)) => s == t
    case (MapNode(m), Object(fields)) =>
      && MapApart(m)
      && m.entries.Keys == fields.Keys
      && forall k :: k in fields ==> Shows(m.entries[k], fields[k])
    case (ListNode(l), List(items)) =>
      && ListApart(l)
      && |l.items| == |items|
      && forall i :: 0 <= i < |items| ==> Shows(l.items[i], items[i])
    case _ => false
  }

  ghost predicate Below(n: Node, repr: set<object>)
    reads Top(n)
  {
    Top(n) <= Reach(n) <= repr
  }

  /** No two entries share a map or list with each other, or with the map itself. */
  ghost predicate MapApart(m: JsonMap)
    reads m, m.Repr
  {
    && m in m.Repr
    && (forall k :: k in m.entries ==> Top(m.entries[k]) <= m.Repr && Below(m.entries[k], m.Repr - {m}))
    && (forall j, k :: j in m.entries && k in m.entries && j != k ==> Reach(m.entries[j]) !! Reach(m.entries[k]))
  }

  ghost predicate ListApart(l: JsonList)
    reads l, l.Repr
  {
    && l in l.Repr
    && (forall i :: 0 <= i < |l.items| ==> Top(l.items[i]) <= l.Repr && Below(l.items[i], l.Repr - {l}))
    && (forall i, j :: 0 <= i < j < |l.items| ==> Reach(l.items[i]) !! Reach(l.items[j]))
  }

  lemma MapShown(m: JsonMap, fields: Fields)
    ensures Shows(MapNode(m), Object(fields)) <==>
              && MapApart(m) && m.entries.Keys == fields.Keys
              && forall k :: k in fields ==> Shows(m.entries[k], fields[k])
  {
  }

  lemma ListShown(l: JsonList, items: seq<Json>)
    ensures Shows(ListNode(l), List(items)) <==>
              && ListApart(l) && |l.items| == |items|
              && forall i :: 0 <= i < |items| ==> Shows(l.items[i], items[i])
  {
  }

  // ---- copying ----------------------------------------------------------------

  /** `stripValue`: what is kept is a copy that shares nothing with the original. */
  method StripNode(n: Node, ghost v: Json, patterns: seq<Path>, current: Path) returns (result: Node, keep: bool)
    requires Shows(n, v)
    ensures keep <==> Stripped(v, patterns, current).Some?
    ensures keep ==> Shows(result, Stripped(v, patterns, current).value) && fresh(Reach(result))
    decreases v, 3
  {
    var matched := MatchesAnyPath(current, patterns);
    if matched {
      return NullNode, false;
    }
    match n
    case MapNode(typed) =>
      result, keep := StripMap(typed, v.fields, patterns, current);
    case ListNode(typed) =>
      result, keep := StripList(typed, v.items, patterns, current);
    case _ =>
      return n, true;
  }

  /** A map under construction: all of `spec` but the pending keys. */
  ghost predicate ShowsKept(m: JsonMap, spec: Fields, pending: set<string>)
    reads m, m.Repr
  {
    MapApart(m) && m.entries.Keys == spec.Keys - pending && forall k :: k in m.entries ==> Shows(m.entries[k], spec[k])
  }

  method StripMap(typed: JsonMap, ghost source: Fields, patterns: seq<Path>, current: Path)
    returns (result: Node, keep: bool)
    requires Shows(MapNode(typed), Object(source)) && !MatchesSome(current, patterns)
    ensures keep <==> Stripped(Object(source), patterns, current).Some?
    ensures keep ==> Shows(result, Stripped(Object(source), patterns, current).value) && fresh(Reach(result))
    decreases Object(source), 2
  {
    hide Stripped, Shows, MapApart, MatchesSome;
    ghost var spec := StripsFields(source, patterns, current);
    var kept := StripEntries(typed, source, spec, patterns, current);
    MapShown(kept, spec);
    if |kept.entries| == 0 {
      assert spec == map[];
      return NullNode, false;
    }
    return MapNode(kept), true;
  }

  /** `spec` holds what stripping keeps of the fields. */
  ghost predicate KeepsFields(source: Fields, spec: Fields, patterns: seq<Path>, current: Path) {
    && (forall k :: k in spec <==> k in source && Stripped(source[k], patterns, current + [Field(k)]).Some?)
    && (forall k :: k in spec ==> spec[k] == Stripped(source[k], patterns, current + [Field(k)]).value)
  }

  method StripEntries(typed: JsonMap, ghost source: Fields, ghost spec: Fields, patterns: seq<Path>, current: Path)
    returns (kept: JsonMap)
    requires Shows(MapNode(typed), Object(source)) && KeepsFields(source, spec, patterns, current)
    ensures fresh(kept) && fresh(kept.Repr) && Shows(MapNode(kept), Object(spec))
    decreases Object(source), 1
  {
    hide KeepsFields, Stripped;
    MapShown(typed, source);
    kept := new JsonMap();
    NothingKept(kept, source, spec, patterns, current);
    var pending := typed.entries.Keys;
    while pending != {}
      invariant pending <= typed.entries.Keys
      invariant fresh(kept) && fresh(kept.Repr) && ShowsKept(kept, spec, pending)
    {
      hide ShowsKept, MapApart;
      var key :| key in pending;
      StripEntry(typed, source, key, kept, spec, pending, patterns, current);
      pending := pending - {key};
    }
    MapShown(kept, spec);
  }

  lemma NothingKept(kept: JsonMap, source: Fields, spec: Fields, patterns: seq<Path>, current: Path)
    requires kept.entries == map[] && kept.Repr == {kept} && KeepsFields(source, spec, patterns, current)
    ensures ShowsKept(kept, spec, source.Keys)
  {
  }

  method StripEntry(typed: JsonMap, ghost source: Fields, key: string, kept: JsonMap, ghost spec: Fields,
                    ghost pending: set<string>, patterns: seq<Path>, current: Path)
    requires Shows(MapNode(typed), Object(source)) && key in source && key in typed.entries && key in pending
    requires ShowsKept(kept, spec, pending) && KeepsFields(source, spec, patterns, current)
    modifies kept
    ensures ShowsKept(kept, spec, pending - {key}) && fresh(kept.Repr - old(kept.Repr))
    decreases Object(source), 0
  {
    hide Stripped, ShowsKept, MapApart;
    MapShown(typed, source);
    var child, keepChild := StripNode(typed.entries[key], source[key], patterns, current + [Field(key)]);
    if keepChild {
      AddEntry(kept, key, child, spec, pending);
    } else {
      SkipEntry(kept, key, spec, pending);
    }
  }

  lemma SkipEntry(kept: JsonMap, key: string, spec: Fields, pending: set<string>)
    requires ShowsKept(kept, spec, pending) && key !in spec
    ensures ShowsKept(kept, spec, pending - {key})
  {
    hide Shows, MapApart;
  }

  method AddEntry(kept: JsonMap, key: string, child: Node, ghost spec: Fields, ghost pending: set<string>)
    requires ShowsKept(kept, spec, pending)
    requires key in pending && key in spec && Shows(child, spec[key])
    requires Reach(child) !! kept.Repr
    modifies kept
    ensures ShowsKept(kept, spec, pending - {key})
    ensures kept.Repr == old(kept.Repr + Reach(child))
  {
    TopReached(child, spec[key]);
    kept.entries := kept.entries[key := child];
    kept.Repr := kept.Repr + Reach(child);
  }

  lemma TopReached(n: Node, v: Json)
    requires Shows(n, v)
    ensures Top(n) <= Reach(n)
  {
  }

  /** A list under construction, of which the first `n` items are filled in. */
  ghost predicate ShowsFilled(l: JsonList, spec: seq<Json>, n: nat)
    reads l, l.Repr
  {
    && ListApart(l)
    && |l.items| == |spec| && n <= |spec|
    && (forall i :: 0 <= i < n ==> Shows(l.items[i], spec[i]))
    && (forall i :: n <= i < |spec| ==> l.items[i] == NullNode)
  }

  method StripList(typed: JsonList, ghost source: seq<Json>, patterns: seq<Path>, current: Path)
    returns (result: Node, keep: bool)
    requires Shows(ListNode(typed), List(source)) && !MatchesSome(current, patterns)
    ensures keep && Stripped(List(source), patterns, current).Some?
    ensures Shows(result, Stripped(List(source), patterns, current).value) && fresh(Reach(result))
    decreases List(source), 0
  {
    hide Stripped, Shows, MatchesSome;
    StripsList(source, patterns, current);
    ListShown(typed, source);
    ghost var spec := Stripped(List(source), patterns, current).value.items;
    var kept := new JsonList(|typed.items|);
    for index := 0 to |typed.items|
      invariant fresh(kept.Repr) && ShowsFilled(kept, spec, index)
    {
      hide ShowsFilled, ListApart;
      ListShown(typed, source);
      var child, keepChild := StripNode(typed.items[index], source[index], patterns, current + [Index(index)]);
      if keepChild {
        SetItem(kept, index, child, spec);
      } else {
        LeaveNull(kept, index, spec);
      }
    }
    ListShown(kept, spec);
    return ListNode(kept), true;
  }

  method SetItem(kept: JsonList, index: nat, child: Node, ghost spec: seq<Json>)
    requires index < |spec| && ShowsFilled(kept, spec, index) && Shows(child, spec[index])
    requires Reach(child) !! kept.Repr
    modifies kept
    ensures ShowsFilled(kept, spec, index + 1)
    ensures kept.Repr == old(kept.Repr + Reach(child))
  {
    hide Shows;
    TopReached(child, spec[index]);
    kept.items := kept.items[index := child];
    kept.Repr := kept.Repr + Reach(child);
  }

  lemma LeaveNull(kept: JsonList, index: nat, spec: seq<Json>)
    requires index < |spec| && ShowsFilled(kept, spec, index) && spec[index] == Null
    ensures ShowsFilled(kept, spec, index + 1)
  {
    hide ListApart;
  }

  /** `cloneObject`: a strip without patterns. */
  method CloneObject(obj: JsonMap, ghost fields: Fields) returns (clone: JsonMap)
    requires Shows(MapNode(obj), Object(fields))
    ensures fresh(clone.Repr) && Shows(MapNode(clone), Object(StrippedObject(fields, [])))
  {
    var value, keep := StripNode(MapNode(obj), Object(fields), [], []);
    if !keep {
      clone := new JsonMap();
      return;
    }
    match value
    case MapNode(stripped) => return stripped;
    case _ => clone := new JsonMap();
  }

  // ---- deleting in place ----------------------------------------------------------

  method DeleteEntry(m: JsonMap, ghost fields: Fields, key: string)
    requires Shows(MapNode(m), Object(fields))
    modifies m
    ensures Shows(MapNode(m), Object(fields - {key}))
    ensures m.entries == old(m.entries) - {key} && m.Repr == old(m.Repr)
  {
    hide Shows;
    MapShown(m, fields);
    m.entries := m.entries - {key};
    MapShown(m, fields - {key});
  }

  /** What a map shows when one entry comes to show another value. */
  lemma EntryChanged(m: JsonMap, fields: Fields, key: string, v: Json)
    requires MapApart(m) && m.entries.Keys == fields.Keys && key in fields
    requires forall k :: k in fields && k != key ==> Shows(m.entries[k], fields[k])
    requires Shows(m.entries[key], v)
    ensures Shows(MapNode(m), Object(fields[key := v]))
  {
    hide Shows, MapApart;
    MapShown(m, fields[key := v]);
  }

  /** Deletes below one entry of a map; the other entries are out of reach. */
  method DeleteBelow(m: JsonMap, ghost fields: Fields, entry: string, key: string)
    requires Shows(MapNode(m), Object(fields))
    requires entry in fields && fields[entry].Object? && entry in m.entries && m.entries[entry].MapNode?
    modifies m.entries[entry].map_
    ensures m.entries == old(m.entries) && m.Repr == old(m.Repr)
    ensures Shows(MapNode(m), Object(fields[entry := Object(fields[entry].fields - {key})]))
    ensures m.entries[entry].map_.entries == old(m.entries[entry].map_.entries) - {key}
  {
    hide Shows;
    MapShown(m, fields);
    MapKind(m, fields, entry);
    ghost var values := fields[entry].fields;
    DeleteEntry(m.entries[entry].map_, values, key);
    EntryChanged(m, fields, entry, Object(values - {key}));
  }

  lemma MapKind(m: JsonMap, fields: Fields, key: string)
    requires Shows(MapNode(m), Object(fields))
    ensures key in m.entries <==> key in fields
    ensures key in fields ==> (m.entries[key].MapNode? <==> fields[key].Object?)
    ensures key in fields && fields[key].Object? ==>
              && m.entries[key].map_ in m.entries[key].map_.Repr && m.entries[key].map_.Repr <= m.Repr - {m}
              && m.entries[key].map_.entries.Keys == fields[key].fields.Keys
  {
  }

  /** The part of `removeAnnotation` below the metadata. */
  method RemoveFromMetadata(metadata: JsonMap, ghost fields: Fields, key: string)
    requires Shows(MapNode(metadata), Object(fields))
    modifies metadata.Repr
    ensures Shows(MapNode(metadata), Object(MetadataWithout(fields, key)))
    ensures metadata.Repr == old(metadata.Repr)
  {
    hide Shows, MapApart, Reach;
    MapKind(metadata, fields, "annotations");
    if "annotations" !in metadata.entries || !metadata.entries["annotations"].MapNode? {
      return;
    }
    var annotations := metadata.entries["annotations"].map_;
    ghost var values := fields["annotations"].fields;
    InRepr(metadata, fields);
    DeleteBelow(metadata, fields, "annotations", key);
    assert annotations.entries.Keys == (values - {key}).Keys;
    if |annotations.entries| == 0 {
      DeleteEntry(metadata, fields["annotations" := Object(values - {key})], "annotations");
      assert fields["annotations" := Object(values - {key})] - {"annotations"} == fields - {"annotations"};
    }
  }

  lemma InRepr(m: JsonMap, fields: Fields)
    requires Shows(MapNode(m), Object(fields))
    ensures m in m.Repr
  {
  }

  /** `removeAnnotation` */
  method RemoveAnnotationInPlace(obj: JsonMap, ghost fields: Fields, key: string)
    requires Shows(MapNode(obj), Object(fields))
    modifies obj.Repr
    ensures Shows(MapNode(obj), Object(WithoutAnnotation(fields, key)))
    ensures obj.Repr == old(obj.Repr)
  {
    hide MetadataWithout, Shows;
    MapShown(obj, fields);
    MapKind(obj, fields, "metadata");
    if "metadata" !in obj.entries || !obj.entries["metadata"].MapNode? {
      return;
    }
    var metadata := obj.entries["metadata"].map_;
    ghost var values := fields["metadata"].fields;
    RemoveFromMetadata(metadata, values, key);
    EntryChanged(obj, fields, "metadata", Object(MetadataWithout(values, key)));
  }

  method CopyWithout(obj: JsonMap, ghost fields: Fields, key: string) returns (without: JsonMap)
    requires Shows(MapNode(obj), Object(fields))
    ensures fresh(without.Repr) && Shows(MapNode(without), Object(WithoutBypass(fields, key)))
  {
    hide Shows, WithoutAnnotation, StrippedObject;
    without := CloneObject(obj, fields);
    RemoveAnnotationInPlace(without, StrippedObject(fields, []), key);
  }

  /** The start of `diffWithoutBypassAnnotation`: the object to compare is built on the
      side, and the request's own object still stands for the same value. */
  method PrepareWithoutBypass(obj: JsonMap, ghost fields: Fields, key: string) returns (without: JsonMap)
    requires Shows(MapNode(obj), Object(fields))
    ensures fresh(without.Repr) && Shows(MapNode(without), Object(WithoutBypass(fields, key)))
    ensures Shows(MapNode(obj), Object(fields)) && unchanged(obj.Repr)
  {
    hide WithoutBypass;
    without := CopyWithout(obj, fields, key);
    assert Reach(MapNode(obj)) == obj.Repr;
  }
}
