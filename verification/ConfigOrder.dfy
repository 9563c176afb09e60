/**
 The order in which normalising leaves the entries of a map (crates/containerproxy/src/config/loader.rs): every key is
 taken out, which moves the last entry into its place, and is put in again at the end.
 */
module ConfigOrder {
  import opened ConfigTree
  import opened ConfigLayers
  import opened ConfigSchema
  import opened ConfigNormalize
  import opened ConfigNormalForm
  import opened ConfigPlaces

  function AllRenamed(schema: Schema, path: string, entries: seq<Entry>): (r: seq<Entry>)
    ensures |r| == |entries|
  {
    seq(|entries|, i requires 0 <= i < |entries| => Renamed(schema, path, entries[i]))
  }

  /** One key of a map with distinct names: its entry is taken out and added behind all others. */
  lemma OneKeyMoves(schema: Schema, state: seq<Entry>, i: nat, path: string, height: nat)
    requires EntriesHeight(state) <= height && DistinctNames(state) && i < |state|
    requires SameName(Target(schema, path, state[i].key), state[i].key)
    ensures var after := NormalizeKey(schema, state, state[i].key, path, height);
      after == SwapRemove(state, i) + [Renamed(schema, path, state[i])] && DistinctNames(after)
  {
    hide Canonical, Target, NormalizeChild, ExactIndex, Insert, SwapRemove, DistinctNames;
    var renamed := Renamed(schema, path, state[i]);
    OnlyExactIndex(state, i, state[i].key);
    Removed(state, i);
    var rest := SwapRemove(state, i);
    forall j | 0 <= j < |rest|
      ensures !SameName(rest[j].key, renamed.key)
    {
      assert rest[j] in rest;
    }
    Inserted(rest, renamed);
  }

  /** The entries when some keys have been rewritten, but not the last. */
  function Halfway(schema: Schema, path: string, entries: seq<Entry>, done: nat): seq<Entry>
    requires 0 < done < |entries|
  {
    [entries[|entries| - 1]] + AllRenamed(schema, path, entries[..done - 1]) + entries[done..|entries| - 1]
    + [Renamed(schema, path, entries[done - 1])]
  }

  /** The entries when all have: in their order, but the one before the last comes first. */
  function Reordered(schema: Schema, path: string, entries: seq<Entry>): seq<Entry> {
    var n := |entries|;
    if n < 2 then AllRenamed(schema, path, entries) else
    [Renamed(schema, path, entries[n - 2])] + AllRenamed(schema, path, entries[..n - 2])
    + [Renamed(schema, path, entries[n - 1])]
  }

  lemma SwapInside(first: Entry, a: seq<Entry>, taken: Entry, b: seq<Entry>, last: Entry)
    ensures ([first] + a + ([taken] + b) + [last])[1 + |a|] == taken
    ensures SwapRemove([first] + a + ([taken] + b) + [last], 1 + |a|) == [first] + (a + [last]) + b
  {
  }

  lemma SwapFirst(first: Entry, a: seq<Entry>, last: Entry)
    ensures SwapRemove([first] + a + [last], 0) == [last] + a
  {
  }

  lemma HalfwayMoves(schema: Schema, path: string, entries: seq<Entry>, done: nat)
    requires 0 < done < |entries|
    ensures var state, next := Halfway(schema, path, entries, done), Renamed(schema, path, entries[done]);
      if done < |entries| - 1 then
        && state[done] == entries[done]
        && SwapRemove(state, done) + [next] == Halfway(schema, path, entries, done + 1)
      else
        && state[0] == entries[done]
        && SwapRemove(state, 0) + [next] == Reordered(schema, path, entries)
  {
    hide Renamed, SwapRemove;
    var n := |entries|;
    var a := AllRenamed(schema, path, entries[..done - 1]);
    var last := Renamed(schema, path, entries[done - 1]);
    if done < n - 1 {
      assert entries[done..n - 1] == [entries[done]] + entries[done + 1..n - 1];
      SwapInside(entries[n - 1], a, entries[done], entries[done + 1..n - 1], last);
      assert a + [last] == AllRenamed(schema, path, entries[..done]);
    } else {
      assert entries[done..n - 1] == [] && [entries[done]] + a + [] == [entries[done]] + a;
      SwapFirst(entries[done], a, last);
    }
  }

  lemma FirstMoves(schema: Schema, path: string, entries: seq<Entry>)
    requires |entries| >= 2
    ensures SwapRemove(entries, 0) + [Renamed(schema, path, entries[0])] == Halfway(schema, path, entries, 1)
  {
    hide Renamed;
  }

  lemma {:induction false} OrderFrom(schema: Schema, path: string, entries: seq<Entry>, done: nat, height: nat)
    requires IsContext(schema, path) && HaveGoodKeys(entries) && 0 < done < |entries|
    requires var state := Halfway(schema, path, entries, done);
      DistinctNames(state) && EntriesHeight(state) <= height
    ensures NormalizeKeys(schema, Halfway(schema, path, entries, done), entries[done..], path, height)
         == Reordered(schema, path, entries)
    decreases |entries| - done
  {
    hide IsGoodKey, Canonical, IsWellFormed, Names, Target, NormalizeKey, Halfway, Reordered, Renamed, DistinctNames;
    hide SwapRemove, NormalizeKeys;
    var state := Halfway(schema, path, entries, done);
    KeysUnfold(schema, state, entries[done..], path, height);
    var place := if done < |entries| - 1 then done else 0;
    HalfwayMoves(schema, path, entries, done);
    HalfwaySize(schema, path, entries, done);
    TargetIsSameName(schema, path, entries[done].key);
    OneKeyMoves(schema, state, place, path, height);
    assert entries[done..][1..] == entries[done + 1..] && entries[done..][0] == entries[done];
    if done < |entries| - 1 {
      OrderFrom(schema, path, entries, done + 1, height);
    } else {
      assert entries[done + 1..] == [];
      KeysUnfold(schema, Reordered(schema, path, entries), [], path, height);
    }
  }

  lemma HalfwaySize(schema: Schema, path: string, entries: seq<Entry>, done: nat)
    requires 0 < done < |entries|
    ensures |Halfway(schema, path, entries, done)| == |entries|
  {
  }

  lemma KeysUnfold(schema: Schema, state: seq<Entry>, keys: seq<Entry>, path: string, height: nat)
    requires EntriesHeight(state) <= height
    ensures NormalizeKeys(schema, state, keys, path, height)
         == if keys == [] then state
            else NormalizeKeys(schema, NormalizeKey(schema, state, keys[0].key, path, height), keys[1..], path, height)
  {
    hide NormalizeKey;
  }

  /** The entry before the last moves to the front, all others stay in their order. */
  lemma OrderIsExact(schema: Schema, path: string, entries: seq<Entry>)
    requires IsContext(schema, path) && HaveGoodKeys(entries)
    ensures Normalize(schema, Object(entries), path) == Object(Reordered(schema, path, entries))
  {
    hide IsGoodKey, Canonical, IsWellFormed, Names, Target, NormalizeKey, Halfway, Renamed, DistinctNames, SwapRemove;
    hide NormalizeKeys, Reordered;
    var height := EntriesHeight(entries);
    KeysUnfold(schema, entries, entries, path, height);
    if entries != [] {
      TargetIsSameName(schema, path, entries[0].key);
      OneKeyMoves(schema, entries, 0, path, height);
    }
    if |entries| >= 2 {
      FirstMoves(schema, path, entries);
      OrderFrom(schema, path, entries, 1, height);
    } else {
      FewMoves(schema, path, entries);
      KeysUnfold(schema, Reordered(schema, path, entries), [], path, height);
    }
  }

  lemma FewMoves(schema: Schema, path: string, entries: seq<Entry>)
    requires |entries| < 2
    ensures entries == [] ==> Reordered(schema, path, entries) == []
    ensures entries != [] ==>
      && entries[1..] == []
      && SwapRemove(entries, 0) + [Renamed(schema, path, entries[0])] == Reordered(schema, path, entries)
  {
    hide Renamed;
  }

  // Whatever the keys are.

  /** No key comes twice in a map, even if several keys of it get one spelling. */
  lemma {:induction false} NormalizedIsTree(schema: Schema, value: Value, path: string)
    requires IsTree(value)
    ensures IsTree(Normalize(schema, value, path))
    decreases Height(value), 2, 0
  {
    hide NormalizeKeys;
    match value
    case Object(entries) =>
      KeysAreTrees(schema, entries, entries, path, EntriesHeight(entries));
    case Array(items) =>
      forall i | 0 <= i < |items|
        ensures IsTree(Normalize(schema, items[i], path + "[]"))
      {
        assert items[i] in items;
        NormalizedIsTree(schema, items[i], path + "[]");
      }
    case _ =>
  }

  lemma {:induction false} KeysAreTrees(
      schema: Schema, state: seq<Entry>, keys: seq<Entry>, path: string, height: nat)
    requires AreTrees(state) && EntriesHeight(state) <= height
    ensures AreTrees(NormalizeKeys(schema, state, keys, path, height))
    decreases height, 4, |keys|
  {
    hide AreTrees, NormalizeKey, NormalizeKeys;
    KeysUnfold(schema, state, keys, path, height);
    if keys != [] {
      KeyIsTree(schema, state, keys[0].key, path, height);
      KeysAreTrees(schema, NormalizeKey(schema, state, keys[0].key, path, height), keys[1..], path, height);
    }
  }

  lemma {:induction false} KeyIsTree(schema: Schema, state: seq<Entry>, key: string, path: string, height: nat)
    requires AreTrees(state) && EntriesHeight(state) <= height
    ensures AreTrees(NormalizeKey(schema, state, key, path, height))
    decreases height, 3, 0
  {
    hide AreTrees, IsFreeForm, Target, Normalize, ChildPath, Insert, SwapRemove, ExactIndex;
    var i := ExactIndex(state, key);
    var child := if i < |state| then state[i].value else Null;
    var rest := if i < |state| then SwapRemove(state, i) else state;
    if i < |state| {
      assert state[i] in state;
      RemovedAreTrees(state, i);
    }
    if !IsFreeForm(schema, path, key) {
      NormalizedIsTree(schema, child, ChildPath(path, Target(schema, path, key)));
    }
    InsertedAreTrees(rest, Target(schema, path, key), NormalizeChild(schema, child, path, key));
  }

  lemma RemovedAreTrees(entries: seq<Entry>, i: nat)
    requires AreTrees(entries) && i < |entries|
    ensures IsTree(entries[i].value) && AreTrees(SwapRemove(entries, i))
  {
    hide IsTree;
  }

  lemma InsertedAreTrees(entries: seq<Entry>, key: string, value: Value)
    requires AreTrees(entries) && IsTree(value)
    ensures AreTrees(Insert(entries, key, value))
  {
    hide IsTree;
  }

  /** Of two keys with one spelling the second survives, unless it has that spelling already: then the first does. */
  lemma OneKeySurvives(schema: Schema, path: string, a: Entry, b: Entry)
    requires a.key != b.key && Target(schema, path, a.key) == Target(schema, path, b.key)
    ensures var key := Target(schema, path, b.key);
      var first := NormalizeChild(schema, a.value, path, a.key);
      Normalize(schema, Object([a, b]), path)
        == Object([Entry(key, if key == b.key then NormalizeChild(schema, first, path, key)
                              else NormalizeChild(schema, b.value, path, b.key))])
  {
    hide NormalizeKeys, NormalizeKey, NormalizeChild, Target, EntriesHeight;
    var entries, height := [a, b], EntriesHeight([a, b]);
    var key := Target(schema, path, b.key);
    var first := Entry(key, NormalizeChild(schema, a.value, path, a.key));
    KeysUnfold(schema, entries, entries, path, height);
    var once := NormalizeKey(schema, entries, a.key, path, height);
    FirstOfTwo(schema, path, a, b, height);
    assert entries[1..] == [b] && [b][1..] == [];
    KeysUnfold(schema, once, [b], path, height);
    var twice := NormalizeKey(schema, once, b.key, path, height);
    KeysUnfold(schema, twice, [], path, height);
    if key == b.key {
      OnlyKey(schema, path, first, height);
    } else {
      SecondOfTwo(schema, path, b, first, height);
    }
  }

  lemma FirstOfTwo(schema: Schema, path: string, a: Entry, b: Entry, height: nat)
    requires a.key != b.key && EntriesHeight([a, b]) <= height
    ensures var first := Entry(Target(schema, path, a.key), NormalizeChild(schema, a.value, path, a.key));
      NormalizeKey(schema, [a, b], a.key, path, height) == if first.key == b.key then [first] else [b, first]
  {
    hide NormalizeChild, Target;
    assert SwapRemove([a, b], 0) == [b];
  }

  lemma OnlyKey(schema: Schema, path: string, only: Entry, height: nat)
    requires EntriesHeight([only]) <= height
    ensures NormalizeKey(schema, [only], only.key, path, height)
         == [Entry(Target(schema, path, only.key), NormalizeChild(schema, only.value, path, only.key))]
  {
    hide NormalizeChild, Target;
    assert SwapRemove([only], 0) == [];
  }

  lemma SecondOfTwo(schema: Schema, path: string, b: Entry, first: Entry, height: nat)
    requires first.key == Target(schema, path, b.key) && first.key != b.key && EntriesHeight([b, first]) <= height
    ensures NormalizeKey(schema, [b, first], b.key, path, height)
         == [Entry(first.key, NormalizeChild(schema, b.value, path, b.key))]
  {
    hide NormalizeChild, Target;
    assert SwapRemove([b, first], 0) == [first];
  }
}
