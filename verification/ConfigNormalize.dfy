/**
 Rewriting relaxed property names to the spelling of the schema
 (crates/containerproxy/src/config/loader.rs).
 */
module ConfigNormalize {
  import opened Naturals
  import opened Wrappers
  import opened ConfigTree
  import opened ConfigLayers
  import opened ConfigSchema

  function Height(value: Value): nat {
    match value
    case Object(entries) => 1 + EntriesHeight(entries)
    case Array(items) => 1 + ItemsHeight(items)
    case _ => 0
  }

  function EntriesHeight(entries: seq<Entry>): (h: nat)
    ensures forall entry | entry in entries :: Height(entry.value) <= h
  {
    if entries == [] then 0 else Max(Height(entries[0].value), EntriesHeight(entries[1..]))
  }

  function ItemsHeight(items: seq<Value>): (h: nat)
    ensures forall item | item in items :: Height(item) <= h
  {
    if items == [] then 0 else Max(Height(items[0]), ItemsHeight(items[1..]))
  }

  /** Removing an entry fills the gap with the last one. */
  function SwapRemove(entries: seq<Entry>, i: nat): seq<Entry>
    requires i < |entries|
  {
    var last := |entries| - 1;
    if i == last then entries[..last] else entries[..last][i := entries[last]]
  }

  /** Inserting replaces the value of a key that is there, or else adds the key at the end. */
  function Insert(entries: seq<Entry>, key: string, value: Value): seq<Entry> {
    var i := ExactIndex(entries, key);
    if i < |entries| then entries[i := Entry(key, value)] else entries + [Entry(key, value)]
  }

  /** The spelling that a key gets. */
  function Target(schema: Schema, path: string, key: string): string {
    var spelling := CanonicalSegment(schema, ChildPath(path, key));
    if spelling.Some? then spelling.value else key
  }

  predicate IsFreeForm(schema: Schema, path: string, key: string) {
    var definition := Find(schema, ChildPath(path, key));
    definition.Some? && definition.value.isMap
  }

  lemma HeightsAtMost(entries: seq<Entry>, limit: nat)
    requires forall entry | entry in entries :: Height(entry.value) <= limit
    ensures EntriesHeight(entries) <= limit
  {
  }

  lemma RemovedEntries(entries: seq<Entry>, i: nat)
    requires i < |entries|
    ensures forall entry | entry in SwapRemove(entries, i) :: entry in entries
  {
  }

  lemma InsertedEntries(entries: seq<Entry>, key: string, value: Value)
    ensures forall entry | entry in Insert(entries, key, value) :: entry in entries || entry == Entry(key, value)
  {
  }

  function Normalize(schema: Schema, value: Value, path: string): (r: Value)
    ensures Height(r) <= Height(value)
    decreases Height(value), 2, 0
  {
    match value
    case Object(entries) =>
      Object(NormalizeKeys(schema, entries, entries, path, EntriesHeight(entries)))
    case Array(items) => Array(NormalizeItems(schema, items, path + "[]"))
    case _ => value
  }

  function NormalizeItems(schema: Schema, items: seq<Value>, path: string): (r: seq<Value>)
    ensures |r| == |items| && ItemsHeight(r) <= ItemsHeight(items)
    ensures forall i | 0 <= i < |items| :: r[i] == Normalize(schema, items[i], path)
    decreases ItemsHeight(items), 3, |items|
  {
    if items == [] then []
    else [Normalize(schema, items[0], path)] + NormalizeItems(schema, items[1..], path)
  }

  /** One entry, as it is found under its key, gets its spelling and moves to the end. */
  function NormalizeKey(schema: Schema, entries: seq<Entry>, key: string, path: string, ghost height: nat)
      : (r: seq<Entry>)
    requires EntriesHeight(entries) <= height
    ensures EntriesHeight(r) <= height
    decreases height, 3, 0
  {
    var i := ExactIndex(entries, key);
    var child := if i < |entries| then entries[i].value else Null;
    var rest := if i < |entries| then SwapRemove(entries, i) else entries;
    var target := Target(schema, path, key);
    assert i < |entries| ==> entries[i] in entries;
    var value := NormalizeChild(schema, child, path, key);
    InsertedEntries(rest, target, value);
    if i < |entries| then
      RemovedEntries(entries, i);
      HeightsAtMost(Insert(rest, target, value), height);
      Insert(rest, target, value)
    else
      HeightsAtMost(Insert(rest, target, value), height);
      Insert(rest, target, value)
  }

  function NormalizeChild(schema: Schema, child: Value, path: string, key: string): (r: Value)
    ensures Height(r) <= Height(child)
    decreases Height(child), 2, 1
  {
    if IsFreeForm(schema, path, key) then child
    else Normalize(schema, child, ChildPath(path, Target(schema, path, key)))
  }

  /** The keys that a map had at first, one after the other. */
  function NormalizeKeys(schema: Schema, entries: seq<Entry>, keys: seq<Entry>, path: string, ghost height: nat)
      : (r: seq<Entry>)
    requires EntriesHeight(entries) <= height
    ensures EntriesHeight(r) <= height
    decreases height, 4, |keys|
  {
    if keys == [] then entries
    else NormalizeKeys(schema, NormalizeKey(schema, entries, keys[0].key, path, height), keys[1..], path, height)
  }

  method NormalizeTree(schema: Schema, value: Value, path: string) returns (r: Value)
    ensures r == Normalize(schema, value, path)
    decreases Height(value)
  {
    hide ExactIndex, Target, IsFreeForm, ChildPath, Insert, SwapRemove, EntriesHeight, ItemsHeight, NormalizeItems;
    match value {
      case Object(keys) =>
        var entries := keys;
        ghost var height := EntriesHeight(keys);
        for k := 0 to |keys|
          invariant EntriesHeight(entries) <= height
          invariant NormalizeKeys(schema, entries, keys[k..], path, height)
                 == NormalizeKeys(schema, keys, keys, path, height)
        {
          assert keys[k..][1..] == keys[k + 1..];
          var key := keys[k].key;
          var target := Target(schema, path, key);
          var isMap := IsFreeForm(schema, path, key);
          var child := Null;
          var i := ExactIndex(entries, key);
          ghost var before := entries;
          if i < |entries| {
            assert entries[i] in entries;
            child := entries[i].value;
            entries := SwapRemove(entries, i);
          }
          if !isMap {
            child := NormalizeTree(schema, child, ChildPath(path, target));
          }
          entries := Insert(entries, target, child);
          assert entries == NormalizeKey(schema, before, key, path, height);
        }
        return Object(entries);
      case Array(items) =>
        var normalized := [];
        for i := 0 to |items|
          invariant |normalized| == i
          invariant forall j | 0 <= j < i :: normalized[j] == Normalize(schema, items[j], path + "[]")
        {
          assert items[i] in items;
          var item := NormalizeTree(schema, items[i], path + "[]");
          normalized := normalized + [item];
        }
        assert normalized == NormalizeItems(schema, items, path + "[]");
        return Array(normalized);
      case _ =>
        return value;
    }
  }

  // What normalising does to a map with good keys.

  /** Keys are plain, have a name, and no two of a map have the same one. */
  predicate HaveGoodKeys(entries: seq<Entry>) {
    DistinctNames(entries) && forall i | 0 <= i < |entries| :: IsGoodKey(entries[i].key)
  }

  /** All maps have good keys, but for free-form maps and what is below them. */
  predicate IsTidy(schema: Schema, value: Value, path: string)
    decreases value
  {
    match value
    case Object(entries) =>
      && HaveGoodKeys(entries)
      && forall i | 0 <= i < |entries| ::
           IsFreeForm(schema, path, entries[i].key)
           || IsTidy(schema, entries[i].value, ChildPath(path, Target(schema, path, entries[i].key)))
    case Array(items) => forall i | 0 <= i < |items| :: IsTidy(schema, items[i], path + "[]")
    case _ => true
  }

  function Renamed(schema: Schema, path: string, entry: Entry): Entry {
    Entry(Target(schema, path, entry.key), NormalizeChild(schema, entry.value, path, entry.key))
  }

  /** The new spelling is one of the same name. */
  lemma TargetIsSameName(schema: Schema, path: string, key: string)
    requires IsWellFormed(schema) && AreGoodNames(Names(path)) && IsGoodKey(key)
    ensures SameName(Target(schema, path, key), key) && IsGoodKey(Target(schema, path, key))
    ensures Names(ChildPath(path, Target(schema, path, key))) == Names(ChildPath(path, key))
    ensures AreGoodNames(Names(ChildPath(path, key)))
  {
    hide Canonical, IsGoodKey, Names, SpellingOf, IsWellFormed, ChildPath, Join;
    var names := Names(ChildPath(path, key));
    NamesOfChild(path, key);
    SpellingIsSameName(schema, names);
    NamesOfChild(path, Target(schema, path, key));
  }

  lemma OnlyExactIndex(entries: seq<Entry>, i: nat, key: string)
    requires DistinctNames(entries) && i < |entries| && entries[i].key == key
    ensures ExactIndex(entries, key) == i
  {
    hide Canonical;
    assert SameName(entries[i].key, key);
  }

  /** Renaming one key of a map with distinct names: one entry changes, and only the order besides. */
  lemma NormalizeOne(schema: Schema, entries: seq<Entry>, entry: Entry, path: string, height: nat)
    requires EntriesHeight(entries) <= height && DistinctNames(entries) && entry in entries
    requires SameName(Target(schema, path, entry.key), entry.key)
    ensures var after := NormalizeKey(schema, entries, entry.key, path, height);
      && DistinctNames(after) && |after| == |entries|
      && Renamed(schema, path, entry) in after
      && (forall other | other in entries && other != entry :: other in after)
      && (forall other | other in after ::
            other == Renamed(schema, path, entry) || (other in entries && other != entry))
  {
    hide Canonical, Target, NormalizeChild, ExactIndex;
    var i :| 0 <= i < |entries| && entries[i] == entry;
    OnlyExactIndex(entries, i, entry.key);
    var renamed := Renamed(schema, path, entry);
    Removed(entries, i);
    var rest := SwapRemove(entries, i);
    forall j | 0 <= j < |rest|
      ensures !SameName(rest[j].key, renamed.key)
    {
      assert rest[j] in rest;
    }
    Inserted(rest, renamed);
  }

  lemma Removed(entries: seq<Entry>, i: nat)
    requires DistinctNames(entries) && i < |entries|
    ensures var rest := SwapRemove(entries, i);
      && DistinctNames(rest) && |rest| == |entries| - 1
      && (forall other | other in entries && other != entries[i] :: other in rest)
      && (forall other | other in rest ::
            other in entries && other != entries[i] && !SameName(other.key, entries[i].key))
  {
    hide Canonical;
    var rest := SwapRemove(entries, i);
    var last := |entries| - 1;
    forall other | other in entries && other != entries[i]
      ensures other in rest
    {
      var j :| 0 <= j < |entries| && entries[j] == other;
      assert rest[if j == last then i else j] == other;
    }
    forall a | 0 <= a < |rest|
      ensures rest[a] == entries[if a == i then last else a]
    {
    }
    forall other | other in rest
      ensures other in entries && other != entries[i] && !SameName(other.key, entries[i].key)
    {
      var a :| 0 <= a < |rest| && rest[a] == other;
      var j := if a == i then last else a;
      assert entries[j] == other;
      assert if j < i then !SameName(entries[j].key, entries[i].key) else !SameName(entries[i].key, entries[j].key);
    }
  }

  lemma Inserted(rest: seq<Entry>, entry: Entry)
    requires DistinctNames(rest) && forall j | 0 <= j < |rest| :: !SameName(rest[j].key, entry.key)
    ensures Insert(rest, entry.key, entry.value) == rest + [entry]
    ensures DistinctNames(rest + [entry])
  {
    hide Canonical;
    var i := ExactIndex(rest, entry.key);
    assert i < |rest| ==> SameName(rest[i].key, entry.key);
  }
}
