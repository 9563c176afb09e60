/** Flattening a tree into paths and scalars, and building it again (crates/containerproxy/src/config/tree.rs). */
module ConfigFlatten {
  import opened Wrappers
  import opened ConfigPaths
  import opened ConfigTree
  import opened ConfigLayers

  function FlattenFrom(value: Value, prefix: string): seq<Setting>
    decreases value, 1
  {
    match value
    case Object(entries) => FlattenEntries(entries, prefix)
    case Array(items) => FlattenItems(items, prefix)
    case _ => [Setting(prefix, value)]
  }

  function FlattenEntries(entries: seq<Entry>, prefix: string): seq<Setting>
    decreases entries, 0
  {
    if entries == [] then [] else
    var init, last := entries[..|entries| - 1], entries[|entries| - 1];
    FlattenEntries(init, prefix) + FlattenFrom(last.value, Extend(prefix, Key(last.key)))
  }

  function FlattenItems(items: seq<Value>, prefix: string): seq<Setting>
    decreases items, 0
  {
    if items == [] then [] else
    var init, last := items[..|items| - 1], items[|items| - 1];
    FlattenItems(init, prefix) + FlattenFrom(last, Extend(prefix, Index(|init|)))
  }

  lemma NothingFlattened(prefix: string)
    ensures FlattenEntries([], prefix) == [] && FlattenItems([], prefix) == []
  {
  }

  lemma OneMoreEntry(entries: seq<Entry>, prefix: string, i: nat)
    requires i < |entries|
    ensures FlattenEntries(entries[..i + 1], prefix)
         == FlattenEntries(entries[..i], prefix) + FlattenFrom(entries[i].value, Extend(prefix, Key(entries[i].key)))
  {
    hide FlattenFrom, Extend;
    assert entries[..i + 1][..i] == entries[..i];
  }

  lemma OneMoreItem(items: seq<Value>, prefix: string, i: nat)
    requires i < |items|
    ensures FlattenItems(items[..i + 1], prefix)
         == FlattenItems(items[..i], prefix) + FlattenFrom(items[i], Extend(prefix, Index(i)))
  {
    hide FlattenFrom, Extend;
    assert items[..i + 1][..i] == items[..i];
  }

  method FlattenInto(value: Value, prefix: string, settings: seq<Setting>) returns (out: seq<Setting>)
    ensures out == settings + FlattenFrom(value, prefix)
    decreases value
  {
    hide Extend, FlattenEntries, FlattenItems;
    out := settings;
    NothingFlattened(prefix);
    match value {
      case Object(entries) =>
        for i := 0 to |entries|
          invariant out == settings + FlattenEntries(entries[..i], prefix)
        {
          OneMoreEntry(entries, prefix, i);
          out := FlattenInto(entries[i].value, Extend(prefix, Key(entries[i].key)), out);
        }
        assert entries[..|entries|] == entries;
      case Array(items) =>
        for i := 0 to |items|
          invariant out == settings + FlattenItems(items[..i], prefix)
        {
          OneMoreItem(items, prefix, i);
          out := FlattenInto(items[i], Extend(prefix, Index(i)), out);
        }
        assert items[..|items|] == items;
      case _ =>
        out := out + [Setting(prefix, value)];
    }
  }

  method Flatten(root: Value) returns (settings: seq<Setting>)
    ensures settings == FlattenFrom(root, "")
  {
    settings := FlattenInto(root, "", []);
  }

  /** Trees that a list of paths and scalars can describe. */
  predicate IsRebuildable(value: Value)
    decreases value
  {
    match value
    case Object(entries) =>
      && entries != [] && DistinctNames(entries)
      && forall i | 0 <= i < |entries| :: IsPlain(Key(entries[i].key)) && IsRebuildable(entries[i].value)
    case Array(items) =>
      && 0 < |items| <= USIZE_LIMIT
      && forall i | 0 <= i < |items| :: IsRebuildable(items[i])
    case _ => true
  }

  function GetOrNull(root: Value, path: seq<Segment>): Value {
    if GetAt(root, path).Some? then GetAt(root, path).value else Null
  }

  /** Setting below a place is setting in what is there. */
  lemma {:induction false} SetBelow(root: Value, path: seq<Segment>, below: seq<Segment>, value: Value)
    ensures SetAt(root, path + below, value) == SetAt(root, path, SetAt(GetOrNull(root, path), below, value))
    decreases |path|
  {
    if path == [] {
      assert path + below == below;
    } else {
      hide Put, Down;
      assert (path + below)[1..] == path[1..] + below;
      SetBelow(ChildOrNull(root, path[0]), path[1..], below, value);
      ChildOfNothing(path[1..]);
    }
  }

  lemma ChildOfNothing(path: seq<Segment>)
    ensures GetOrNull(Null, path) == Null
  {
  }

  lemma {:induction false} GetBelow(root: Value, path: seq<Segment>, below: Segment)
    ensures GetAt(root, path + [below])
         == if GetAt(root, path).Some? then Down(GetAt(root, path).value, below) else None
    decreases |path|
  {
    hide Down;
    if path == [] {
      assert path + [below] == [below] && [below][1..] == [];
    } else {
      assert (path + [below])[1..] == path[1..] + [below];
      if Down(root, path[0]).Some? {
        GetBelow(Down(root, path[0]).value, path[1..], below);
      }
    }
  }

  lemma {:induction false} ApplyConcat(tree: Value, a: seq<Setting>, b: seq<Setting>)
    ensures Apply(tree, a + b) == Apply(Apply(tree, a), b)
    decreases |b|
  {
    hide SetAt, Segments;
    if b == [] {
      assert a + b == a;
    } else {
      var init := b[..|b| - 1];
      assert (a + b)[..|a + b| - 1] == a + init;
      ApplyConcat(tree, a, init);
    }
  }

  /** Building what was flattened, at a place where nothing is yet. */
  lemma {:induction false} RebuildAt(root: Value, prefix: string, value: Value)
    requires IsRebuildable(value) && GetOrNull(root, Segments(prefix)) == Null
    ensures Apply(root, FlattenFrom(value, prefix)) == SetAt(root, Segments(prefix), value)
    decreases value, 1
  {
    match value
    case Object(entries) => RebuildEntries(root, prefix, entries);
    case Array(items) => RebuildItems(root, prefix, items);
    case _ => OneSetting(root, Setting(prefix, value));
  }

  lemma OneSetting(root: Value, setting: Setting)
    ensures Apply(root, [setting]) == SetAt(root, Segments(setting.path), setting.value)
  {
    hide SetAt, Segments;
    assert [setting][..0] == [];
  }

  /** One more entry or item of a container that is being built. */
  lemma RebuildOneMore(root: Value, prefix: string, settings: seq<Setting>, built: Value, segment: Segment,
    value: Value)
    requires IsPlain(segment)
    requires Apply(root, settings) == SetAt(root, Segments(prefix), built)
        || (settings == [] && GetOrNull(root, Segments(prefix)) == built)
    requires var tree := Apply(root, settings);
      GetOrNull(tree, Segments(prefix) + [segment]) == Null ==>
        Apply(tree, FlattenFrom(value, Extend(prefix, segment))) == SetAt(tree, Segments(prefix) + [segment], value)
    requires Down(built, segment).None?
    ensures Apply(root, settings + FlattenFrom(value, Extend(prefix, segment)))
         == SetAt(root, Segments(prefix), SetAt(built, [segment], value))
  {
    hide SetAt, GetAt, Segments, Down, Apply, FlattenFrom, Extend;
    var path := Segments(prefix);
    var tree := Apply(root, settings);
    ApplyConcat(root, settings, FlattenFrom(value, Extend(prefix, segment)));
    ApplyNothing(root);
    GetAfterSet(root, path, built);
    GetBelow(tree, path, segment);
    NothingBelow(segment);
    SetBelow(tree, path, [segment], value);
    SetTwice(root, path, built, SetAt(built, [segment], value));
  }

  lemma ApplyNothing(root: Value)
    ensures Apply(root, []) == root
  {
  }

  lemma NothingBelow(segment: Segment)
    ensures Down(Null, segment) == None
  {
  }

  lemma {:induction false} RebuildEntries(root: Value, prefix: string, entries: seq<Entry>)
    requires IsRebuildable(Object(entries)) && GetOrNull(root, Segments(prefix)) == Null
    ensures Apply(root, FlattenEntries(entries, prefix)) == SetAt(root, Segments(prefix), Object(entries))
    decreases entries, 0
  {
    hide SetAt, GetAt, Segments, Apply, FlattenFrom, Canonical, Extend, IsRebuildable, GetOrNull;
    InitIsRebuildable(entries);
    var init, last := entries[..|entries| - 1], entries[|entries| - 1];
    var built := if init == [] then Null else Object(init);
    if init != [] {
      RebuildEntries(root, prefix, init);
    } else {
      ApplyNothing(root);
    }
    var tree := Apply(root, FlattenEntries(init, prefix));
    SegmentsExtend(prefix, Key(last.key));
    if GetOrNull(tree, Segments(Extend(prefix, Key(last.key)))) == Null {
      RebuildAt(tree, Extend(prefix, Key(last.key)), last.value);
    }
    assert init + [last] == entries;
    NewEntry(init, last);
    RebuildOneMore(root, prefix, FlattenEntries(init, prefix), built, Key(last.key), last.value);
  }

  lemma InitIsRebuildable(entries: seq<Entry>)
    requires IsRebuildable(Object(entries))
    ensures |entries| > 0 && DistinctNames(entries)
    ensures IsPlain(Key(entries[|entries| - 1].key)) && IsRebuildable(entries[|entries| - 1].value)
    ensures |entries| > 1 ==> IsRebuildable(Object(entries[..|entries| - 1]))
  {
  }

  lemma NewEntry(init: seq<Entry>, last: Entry)
    requires DistinctNames(init + [last])
    ensures var built := if init == [] then Null else Object(init);
      Down(built, Key(last.key)).None? && SetAt(built, [Key(last.key)], last.value) == Object(init + [last])
  {
    hide Canonical;
    forall i | 0 <= i < |init|
      ensures !SameName(init[i].key, last.key)
    {
      assert (init + [last])[i] == init[i] && (init + [last])[|init|] == last;
    }
    assert [Key(last.key)][1..] == [];
  }

  lemma {:induction false} RebuildItems(root: Value, prefix: string, items: seq<Value>)
    requires IsRebuildable(Array(items)) && GetOrNull(root, Segments(prefix)) == Null
    ensures Apply(root, FlattenItems(items, prefix)) == SetAt(root, Segments(prefix), Array(items))
    decreases items, 0
  {
    hide SetAt, GetAt, Segments, Apply, FlattenFrom, Extend, IsRebuildable, GetOrNull;
    InitItemsAreRebuildable(items);
    var init, last := items[..|items| - 1], items[|items| - 1];
    var built := if init == [] then Null else Array(init);
    if init != [] {
      RebuildItems(root, prefix, init);
    } else {
      ApplyNothing(root);
    }
    var tree := Apply(root, FlattenItems(init, prefix));
    SegmentsExtend(prefix, Index(|init|));
    if GetOrNull(tree, Segments(Extend(prefix, Index(|init|)))) == Null {
      RebuildAt(tree, Extend(prefix, Index(|init|)), last);
    }
    assert init + [last] == items;
    NewItem(init, last);
    RebuildOneMore(root, prefix, FlattenItems(init, prefix), built, Index(|init|), last);
  }

  lemma InitItemsAreRebuildable(items: seq<Value>)
    requires IsRebuildable(Array(items))
    ensures |items| > 0 && IsRebuildable(items[|items| - 1]) && IsPlain(Index(|items| - 1))
    ensures |items| > 1 ==> IsRebuildable(Array(items[..|items| - 1]))
  {
  }

  lemma NewItem(init: seq<Value>, last: Value)
    ensures var built := if init == [] then Null else Array(init);
      Down(built, Index(|init|)).None? && SetAt(built, [Index(|init|)], last) == Array(init + [last])
  {
    assert [Index(|init|)][1..] == [];
    assert Padded(init, |init| + 1)[|init| := last] == init + [last];
  }

  /** Setting the flattened scalars one by one, starting from nothing, gives the tree again. */
  lemma Rebuild(root: Value)
    requires IsRebuildable(root)
    ensures Apply(Null, FlattenFrom(root, "")) == root
  {
    NothingInPath();
    RebuildAt(Null, "", root);
  }
}
