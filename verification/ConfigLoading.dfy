/**
 The stages of loading one after the other (crates/containerproxy/src/config/loader.rs): layers, spelling of the
 keys, placeholders.
 */
module ConfigLoading {
  import opened Wrappers
  import opened ConfigPaths
  import opened ConfigTree
  import opened ConfigLayers
  import opened ConfigFlatten
  import opened ConfigPlaces
  import opened ConfigOrder
  import opened ConfigSchema
  import opened ConfigNormalize
  import opened ConfigNormalForm
  import opened ConfigPlaceholders

  // Tidiness depends on the names along the way, not on how they are spelled.

  lemma SameWay(schema: Schema, p: string, a: string, q: string, b: string)
    requires IsContext(schema, p) && Names(p) == Names(q) && IsGoodKey(a) && IsGoodKey(b) && SameName(a, b)
    ensures IsContext(schema, q) && IsFreeForm(schema, p, a) == IsFreeForm(schema, q, b)
    ensures Names(ChildPath(p, Target(schema, p, a))) == Names(ChildPath(q, Target(schema, q, b)))
    ensures IsContext(schema, ChildPath(p, Target(schema, p, a)))
  {
    hide Canonical, IsGoodKey, Names, IsWellFormed, ChildPath, Join, Target, FindCanonical, Find;
    NamesOfChild(p, a);
    NamesOfChild(q, b);
    TargetIsSameName(schema, p, a);
    TargetIsSameName(schema, q, b);
    SameDefinition(schema, ChildPath(p, a), ChildPath(q, b));
  }

  lemma SameDefinition(schema: Schema, p: string, q: string)
    requires Names(p) == Names(q)
    ensures Find(schema, p) == Find(schema, q)
  {
    hide Names, FindCanonical;
  }

  lemma {:induction false} TidyByNames(schema: Schema, value: Value, p: string, q: string)
    requires IsContext(schema, p) && Names(p) == Names(q) && IsTidy(schema, value, p)
    ensures IsTidy(schema, value, q)
    decreases value
  {
    hide Canonical, IsGoodKey, Names, IsContext, ChildPath, Target, IsFreeForm, DistinctNames;
    match value
    case Object(entries) =>
      forall i | 0 <= i < |entries|
        ensures IsFreeForm(schema, q, entries[i].key)
             || IsTidy(schema, entries[i].value, ChildPath(q, Target(schema, q, entries[i].key)))
      {
        var key := entries[i].key;
        SameSpelling(key);
        SameWay(schema, p, key, q, key);
        if !IsFreeForm(schema, p, key) {
          TidyByNames(schema, entries[i].value, ChildPath(p, Target(schema, p, key)),
            ChildPath(q, Target(schema, q, key)));
        }
      }
    case Array(items) =>
      MarkedContext(schema, p);
      NamesOfMarked(p);
      NamesOfMarked(q);
      forall i | 0 <= i < |items|
        ensures IsTidy(schema, items[i], q + "[]")
      {
        TidyByNames(schema, items[i], p + "[]", q + "[]");
      }
    case _ =>
  }

  lemma SameSpelling(key: string)
    ensures SameName(key, key)
  {
  }

  // Every layer keeps the tree tidy.

  /** What may stand under a key. */
  predicate IsTidyChild(schema: Schema, path: string, key: string, value: Value) {
    IsFreeForm(schema, path, key) || IsTidy(schema, value, ChildPath(path, Target(schema, path, key)))
  }

  lemma ChildBySameName(schema: Schema, path: string, a: string, b: string, value: Value)
    requires IsContext(schema, path) && IsGoodKey(a) && IsGoodKey(b) && SameName(a, b)
    requires IsTidyChild(schema, path, a, value)
    ensures IsTidyChild(schema, path, b, value)
  {
    hide Canonical, IsGoodKey, Names, IsContext, ChildPath, Target, IsFreeForm, IsTidy;
    SameWay(schema, path, a, path, b);
    if !IsFreeForm(schema, path, a) {
      TidyByNames(schema, value, ChildPath(path, Target(schema, path, a)), ChildPath(path, Target(schema, path, b)));
    }
  }

  predicate AreTidy(schema: Schema, path: string, entries: seq<Entry>) {
    HaveGoodKeys(entries) && forall entry | entry in entries :: IsTidyChild(schema, path, entry.key, entry.value)
  }

  lemma TidyMap(schema: Schema, path: string, entries: seq<Entry>)
    ensures IsTidy(schema, Object(entries), path) <==> AreTidy(schema, path, entries)
  {
    hide HaveGoodKeys, IsFreeForm, ChildPath, Target;
    if AreTidy(schema, path, entries) {
      forall i | 0 <= i < |entries|
        ensures IsFreeForm(schema, path, entries[i].key)
             || IsTidy(schema, entries[i].value, ChildPath(path, Target(schema, path, entries[i].key)))
      {
        assert entries[i] in entries;
      }
    }
  }

  lemma PutIsTidy(schema: Schema, path: string, entries: seq<Entry>, key: string, value: Value)
    requires IsContext(schema, path) && AreTidy(schema, path, entries)
    requires IsGoodKey(key) && IsTidyChild(schema, path, key, value)
    ensures AreTidy(schema, path, Put(entries, key, value))
  {
    hide Canonical, IsGoodKey, IsContext, IsTidyChild, RelaxedIndex;
    var i := RelaxedIndex(entries, key);
    PutKeepsNames(entries, key, value);
    if i < |entries| {
      ChildBySameName(schema, path, key, entries[i].key, value);
    }
  }

  lemma PutKeepsNames(entries: seq<Entry>, key: string, value: Value)
    requires HaveGoodKeys(entries) && IsGoodKey(key)
    ensures HaveGoodKeys(Put(entries, key, value))
  {
    hide Canonical, IsGoodKey;
    PutKeepsDistinct(entries, key, value);
  }

  /** The value under any spelling of a key is what may stand under that key. */
  lemma TidyChildOf(schema: Schema, path: string, entries: seq<Entry>, key: string)
    requires IsContext(schema, path) && AreTidy(schema, path, entries) && IsGoodKey(key)
    ensures Child(entries, key).Some? ==> IsTidyChild(schema, path, key, Child(entries, key).value)
  {
    hide Canonical, IsGoodKey, IsContext, IsTidyChild, RelaxedIndex;
    ChildAt(entries, key);
    var i := RelaxedIndex(entries, key);
    if i < |entries| {
      assert entries[i] in entries;
      ChildBySameName(schema, path, entries[i].key, key, entries[i].value);
    }
  }

  lemma {:induction false} MergeIsTidy(schema: Schema, path: string, base: Value, overlay: Value)
    requires IsContext(schema, path) && IsTidy(schema, base, path) && IsTidy(schema, overlay, path)
    ensures IsTidy(schema, Merge(base, overlay), path)
    decreases overlay, 1
  {
    hide IsContext, IsTidy, AreTidy, MergeEntries;
    if base.Object? && overlay.Object? {
      TidyMap(schema, path, base.entries);
      TidyMap(schema, path, overlay.entries);
      MergedEntriesAreTidy(schema, path, base.entries, overlay.entries);
      TidyMap(schema, path, MergeEntries(base.entries, overlay.entries));
    }
  }

  lemma {:induction false} MergedEntriesAreTidy(schema: Schema, path: string, base: seq<Entry>, overlay: seq<Entry>)
    requires IsContext(schema, path) && AreTidy(schema, path, base) && AreTidy(schema, path, overlay)
    ensures AreTidy(schema, path, MergeEntries(base, overlay))
    decreases overlay, 0
  {
    hide IsContext, IsTidy, AreTidy, Put, Merge, IsFreeForm, Target, ChildPath, Child;
    if overlay != [] {
      var entry := overlay[0];
      FirstIsTidy(schema, path, overlay);
      TidyChildOf(schema, path, base, entry.key);
      if Child(base, entry.key).Some? && !IsFreeForm(schema, path, entry.key) {
        ChildContext(schema, path, entry.key);
        MergeIsTidy(schema, ChildPath(path, Target(schema, path, entry.key)), Child(base, entry.key).value,
          entry.value);
      }
      PutIsTidy(schema, path, base, entry.key, Merged(Child(base, entry.key), entry.value));
      MergedEntriesAreTidy(schema, path, MergeEntry(base, entry), overlay[1..]);
    }
  }

  lemma FirstIsTidy(schema: Schema, path: string, entries: seq<Entry>)
    requires AreTidy(schema, path, entries) && entries != []
    ensures IsGoodKey(entries[0].key) && IsTidyChild(schema, path, entries[0].key, entries[0].value)
    ensures AreTidy(schema, path, entries[1..])
  {
    hide Canonical, IsGoodKey, IsTidyChild;
    var rest := entries[1..];
    forall i, j | 0 <= i < j < |rest|
      ensures !SameName(rest[i].key, rest[j].key)
    {
      assert !SameName(entries[i + 1].key, entries[j + 1].key);
    }
  }

  /** A property whose keys are good, as far as they are outside free-form maps. */
  predicate IsTidySetting(schema: Schema, path: string, at: seq<Segment>, value: Value)
    decreases |at|
  {
    if at == [] then IsTidy(schema, value, path) else
    match at[0]
    case Key(key) =>
      && IsGoodKey(key)
      && (IsFreeForm(schema, path, key)
        || IsTidySetting(schema, ChildPath(path, Target(schema, path, key)), at[1..], value))
    case Index(_) => IsTidySetting(schema, path + "[]", at[1..], value)
  }

  lemma {:induction false} SetIsTidy(schema: Schema, path: string, root: Value, at: seq<Segment>, value: Value)
    requires IsContext(schema, path) && IsTidy(schema, root, path) && IsTidySetting(schema, path, at, value)
    ensures IsTidy(schema, SetAt(root, at, value), path)
    decreases |at|
  {
    hide IsContext, IsTidy, AreTidy, Put, IsFreeForm, Target, ChildPath, Child, IsGoodKey;
    if at != [] {
      match at[0]
      case Key(key) =>
        NullIsTidy(schema, ChildPath(path, Target(schema, path, key)));
        EntriesAreTidy(schema, path, root);
        TidyChildOf(schema, path, EntriesOf(root), key);
        if !IsFreeForm(schema, path, key) {
          ChildContext(schema, path, key);
          NoChild(key);
          SetIsTidy(schema, ChildPath(path, Target(schema, path, key)), ChildOrNull(root, at[0]), at[1..], value);
        }
        PutIsTidy(schema, path, EntriesOf(root), key, SetAt(ChildOrNull(root, at[0]), at[1..], value));
        TidyMap(schema, path, Put(EntriesOf(root), key, SetAt(ChildOrNull(root, at[0]), at[1..], value)));
      case Index(index) =>
        MarkedContext(schema, path);
        ItemIsTidy(schema, path, root, index);
        SetIsTidy(schema, path + "[]", ChildOrNull(root, at[0]), at[1..], value);
        SetItemIsTidy(schema, path, root, index, SetAt(ChildOrNull(root, at[0]), at[1..], value));
    }
  }

  lemma NullIsTidy(schema: Schema, path: string)
    ensures IsTidy(schema, Null, path)
  {
  }

  lemma EntriesAreTidy(schema: Schema, path: string, root: Value)
    requires IsTidy(schema, root, path)
    ensures AreTidy(schema, path, EntriesOf(root))
  {
    hide IsTidy;
    if root.Object? {
      TidyMap(schema, path, root.entries);
    }
  }

  lemma ItemIsTidy(schema: Schema, path: string, root: Value, index: nat)
    requires IsTidy(schema, root, path)
    ensures IsTidy(schema, ChildOrNull(root, Index(index)), path + "[]")
  {
  }

  lemma SetItemIsTidy(schema: Schema, path: string, root: Value, index: nat, child: Value)
    requires IsTidy(schema, root, path) && IsTidy(schema, child, path + "[]")
    ensures IsTidy(schema, WithChild(root, Index(index), child), path)
  {
    NullIsTidy(schema, path + "[]");
  }

  predicate AreTidySettings(schema: Schema, settings: seq<Setting>) {
    forall setting | setting in settings :: IsTidySetting(schema, "", Segments(setting.path), setting.value)
  }

  /** Loading tidy layers makes a tidy tree. */
  lemma LoadIsTidy(
      schema: Schema, file: Value, profiles: seq<Value>, environment: seq<Setting>, arguments: seq<Setting>)
    requires IsContext(schema, "") && IsTidy(schema, file, "")
        && forall profile | profile in profiles :: IsTidy(schema, profile, "")
    requires AreTidySettings(schema, environment) && AreTidySettings(schema, arguments)
    ensures IsTidy(schema, Load(file, profiles, environment, arguments), "")
  {
    hide IsContext, IsTidy, AreTidySettings;
    MergeAllIsTidy(schema, file, profiles);
    ApplyIsTidy(schema, MergeAll(file, profiles), environment);
    ApplyIsTidy(schema, Apply(MergeAll(file, profiles), environment), arguments);
  }

  lemma {:induction false} MergeAllIsTidy(schema: Schema, file: Value, profiles: seq<Value>)
    requires IsContext(schema, "") && IsTidy(schema, file, "")
        && forall profile | profile in profiles :: IsTidy(schema, profile, "")
    ensures IsTidy(schema, MergeAll(file, profiles), "")
    decreases |profiles|
  {
    hide IsContext, IsTidy, Merge;
    if profiles != [] {
      var last := |profiles| - 1;
      MergeAllIsTidy(schema, file, profiles[..last]);
      MergeIsTidy(schema, "", MergeAll(file, profiles[..last]), profiles[last]);
    }
  }

  lemma {:induction false} ApplyIsTidy(schema: Schema, tree: Value, settings: seq<Setting>)
    requires IsContext(schema, "") && IsTidy(schema, tree, "") && AreTidySettings(schema, settings)
    ensures IsTidy(schema, Apply(tree, settings), "")
    decreases |settings|
  {
    hide IsContext, IsTidy, SetAt, Segments, IsTidySetting;
    if settings != [] {
      var last := |settings| - 1;
      ApplyIsTidy(schema, tree, settings[..last]);
      SetIsTidy(schema, "", Apply(tree, settings[..last]), Segments(settings[last].path), settings[last].value);
    }
  }

  // Every layer keeps the tree one that there can be in memory.

  lemma PutIsTree(entries: seq<Entry>, key: string, value: Value)
    requires AreTrees(entries) && IsTree(value)
    ensures AreTrees(Put(entries, key, value))
  {
    hide Canonical, IsTree;
    var after, n := Put(entries, key, value), RelaxedIndex(entries, key);
    forall i, j | 0 <= i < j < |after|
      ensures after[i].key != after[j].key
    {
      if j == |entries| {
        assert !SameName(entries[i].key, key);
      }
    }
  }

  lemma ChildIsTree(entries: seq<Entry>, key: string)
    requires AreTrees(entries)
    ensures Child(entries, key).Some? ==> IsTree(Child(entries, key).value)
  {
    hide IsTree, RelaxedIndex;
  }

  lemma {:induction false} MergeIsTree(base: Value, overlay: Value)
    requires IsTree(base) && IsTree(overlay)
    ensures IsTree(Merge(base, overlay))
    decreases overlay, 1
  {
    hide MergeEntries;
    if base.Object? && overlay.Object? {
      assert AreTrees(base.entries) && AreTrees(overlay.entries);
      MergedEntriesAreTrees(base.entries, overlay.entries);
    }
  }

  lemma {:induction false} MergedEntriesAreTrees(base: seq<Entry>, overlay: seq<Entry>)
    requires AreTrees(base) && AreTrees(overlay)
    ensures AreTrees(MergeEntries(base, overlay))
    decreases overlay, 0
  {
    hide Put, Merge, IsTree, Child;
    if overlay != [] {
      var entry := overlay[0];
      ChildIsTree(base, entry.key);
      if Child(base, entry.key).Some? {
        MergeIsTree(Child(base, entry.key).value, entry.value);
      }
      PutIsTree(base, entry.key, Merged(Child(base, entry.key), entry.value));
      MergedEntriesAreTrees(MergeEntry(base, entry), overlay[1..]);
    }
  }

  lemma {:induction false} SetIsTree(root: Value, at: seq<Segment>, value: Value)
    requires IsTree(root) && IsTree(value) && forall segment | segment in at :: IsRead(segment)
    ensures IsTree(SetAt(root, at, value))
    decreases |at|
  {
    hide IsTree, IsRead, WithChild, ChildOrNull;
    if at != [] {
      var child := ChildOrNull(root, at[0]);
      assert at[0] in at;
      ChildOrNullIsTree(root, at[0]);
      SetIsTree(child, at[1..], value);
      WithChildIsTree(root, at[0], SetAt(child, at[1..], value));
    }
  }

  lemma ChildOrNullIsTree(root: Value, segment: Segment)
    requires IsTree(root)
    ensures IsTree(ChildOrNull(root, segment))
  {
    hide RelaxedIndex;
  }

  lemma WithChildIsTree(root: Value, segment: Segment, child: Value)
    requires IsTree(root) && IsTree(child) && IsRead(segment)
    ensures IsTree(WithChild(root, segment, child))
  {
    hide Put;
    if segment.Key? {
      if root.Object? {
        assert AreTrees(root.entries);
      }
      PutIsTree(EntriesOf(root), segment.name, child);
    }
  }

  predicate AreTreeSettings(settings: seq<Setting>) {
    forall setting | setting in settings :: IsTree(setting.value)
  }

  lemma LoadIsTree(file: Value, profiles: seq<Value>, environment: seq<Setting>, arguments: seq<Setting>)
    requires IsTree(file) && forall profile | profile in profiles :: IsTree(profile)
    requires AreTreeSettings(environment) && AreTreeSettings(arguments)
    ensures IsTree(Load(file, profiles, environment, arguments))
  {
    hide IsTree;
    MergeAllIsTree(file, profiles);
    ApplyIsTree(MergeAll(file, profiles), environment);
    ApplyIsTree(Apply(MergeAll(file, profiles), environment), arguments);
  }

  lemma {:induction false} MergeAllIsTree(file: Value, profiles: seq<Value>)
    requires IsTree(file) && forall profile | profile in profiles :: IsTree(profile)
    ensures IsTree(MergeAll(file, profiles))
    decreases |profiles|
  {
    hide IsTree, Merge;
    if profiles != [] {
      var last := |profiles| - 1;
      MergeAllIsTree(file, profiles[..last]);
      MergeIsTree(MergeAll(file, profiles[..last]), profiles[last]);
    }
  }

  lemma {:induction false} ApplyIsTree(tree: Value, settings: seq<Setting>)
    requires IsTree(tree) && AreTreeSettings(settings)
    ensures IsTree(Apply(tree, settings))
    decreases |settings|
  {
    hide IsTree, SetAt, Segments;
    if settings != [] {
      var last := |settings| - 1;
      ApplyIsTree(tree, settings[..last]);
      ReadHasNoDot(settings[last].path);
      SetIsTree(Apply(tree, settings[..last]), Segments(settings[last].path), settings[last].value);
    }
  }

  // Normalising keeps what the placeholders need.

  /** A way that leads into a free-form map did so before. */
  lemma {:induction false} EnteredBefore(schema: Schema, value: Value, path: string, at: seq<Segment>)
    requires IsContext(schema, path) && IsTidy(schema, value, path)
    ensures EntersFreeForm(schema, Normalize(schema, value, path), path, at) ==> EntersFreeForm(schema, value, path, at)
    decreases |at|
  {
    hide IsGoodKey, Canonical, NormalizeKeys, Target, IsContext, IsFreeForm, ChildPath, HaveGoodKeys, Normalize;
    if EntersFreeForm(schema, Normalize(schema, value, path), path, at) {
      match at[0]
      case Key(name) =>
        NormalizedKinds(schema, value, path);
        var entry := NormalizedEntry(schema, path, value.entries, name);
        if !IsFreeForm(schema, path, entry.key) {
          ChildContext(schema, path, entry.key);
          EnteredBefore(schema, entry.value, ChildPath(path, Target(schema, path, entry.key)), at[1..]);
        }
      case Index(index) =>
        NormalizedKinds(schema, value, path);
        MarkedContext(schema, path);
        EnteredBefore(schema, value.items[index], path + "[]", at[1..]);
    }
  }

  lemma NormalizedKinds(schema: Schema, value: Value, path: string)
    ensures var after := Normalize(schema, value, path);
      && after.Object? == value.Object? && after.Array? == value.Array?
      && (value.Array? ==> |after.items| == |value.items|)
      && (value.Array? ==> forall i | 0 <= i < |value.items| ::
        after.items[i] == Normalize(schema, value.items[i], path + "[]"))
  {
  }

  /** The entry that a key refers to is the renamed one of what it referred to. */
  lemma NormalizedEntry(schema: Schema, path: string, entries: seq<Entry>, name: string) returns (entry: Entry)
    requires IsContext(schema, path) && IsTidy(schema, Object(entries), path)
    requires var after := Normalize(schema, Object(entries), path).entries; RelaxedIndex(after, name) < |after|
    ensures RelaxedIndex(entries, name) < |entries| && entry == entries[RelaxedIndex(entries, name)]
    ensures var after := Normalize(schema, Object(entries), path).entries;
      |after| == |entries| && after[RelaxedIndex(after, name)] == Renamed(schema, path, entry)
    ensures IsGoodKey(entry.key) && Renamed(schema, path, entry).key == Target(schema, path, entry.key)
    ensures Target(schema, path, Target(schema, path, entry.key)) == Target(schema, path, entry.key)
    ensures IsFreeForm(schema, path, Target(schema, path, entry.key)) == IsFreeForm(schema, path, entry.key)
    ensures IsFreeForm(schema, path, entry.key)
        || IsTidy(schema, entry.value, ChildPath(path, Target(schema, path, entry.key)))
  {
    hide IsGoodKey, Canonical, NormalizeKeys, Target, IsContext, IsFreeForm, ChildPath, DistinctNames,
      NormalizeChild, Normalize;
    NormalizedIsMap(schema, entries, path);
    EntriesAreRenamed(schema, path, entries);
    var after := Normalize(schema, Object(entries), path).entries;
    var j := RelaxedIndex(after, name);
    assert after[j] in after;
    entry :| entry in entries && after[j] == Renamed(schema, path, entry);
    var i :| 0 <= i < |entries| && entries[i] == entry;
    RenamedName(schema, path, entry);
    TargetIsStable(schema, path, entry.key);
    SameNames(after[j].key, entry.key, name);
    OnlyIndex(entries, i, name);
  }

  lemma SameNames(a: string, b: string, c: string)
    requires SameName(a, b) && SameName(a, c)
    ensures SameName(b, c)
  {
  }

  // The whole of loading.

  /** Outside free-form maps the keys on the way to a place are readable. */
  lemma {:induction false} GoodSteps(schema: Schema, value: Value, path: string, at: seq<Segment>)
    requires IsTidy(schema, value, path) && !EntersFreeForm(schema, value, path, at) && Locate(value, at).Some?
    ensures At(value, Locate(value, at).value).Some? && AreReadable(Steps(value, Locate(value, at).value))
    decreases |at|
  {
    hide IsGoodKey, Target, IsFreeForm, ChildPath, RelaxedIndex, IsReadable, DistinctNames;
    if at != [] {
      var i := Choose(value, at[0]).value;
      var child, rest := Nth(value, i), Locate(Nth(value, i), at[1..]).value;
      assert ([i] + rest)[1..] == rest;
      if value.Object? {
        var key := value.entries[i].key;
        GoodIsReadable(key);
        GoodSteps(schema, child, ChildPath(path, Target(schema, path, key)), at[1..]);
      } else {
        GoodSteps(schema, child, path + "[]", at[1..]);
      }
    }
  }

  lemma GoodIsReadable(key: string)
    requires IsGoodKey(key)
    ensures IsReadable(key)
  {
    hide Segments;
    SegmentsExtend("", Key(key));
    NothingInPath();
    assert [] + [Key(key)] == [Key(key)];
  }

  /** What becomes of a property: placeholders are resolved, in a free-form map perhaps not; all else stays. */
  predicate IsLoaded(before: Option<Value>, after: Option<Value>, resolver: string -> Option<string>, freeForm: bool) {
    if HasPlaceholder(before) then
      || (freeForm && after == before)
      || (resolver(before.value.text).Some? && after == Some(Text(resolver(before.value.text).value)))
    else Alike(after, before)
  }

  /** The tree that `load` makes of the merged layers; None if a placeholder has no value. */
  function Finish(schema: Schema, merged: Value, env: map<string, string>, json: Value -> string): Option<Value> {
    var tree := Normalize(schema, merged, "");
    UpdateAll(tree, Resolver(tree, env, json), tree, FlattenFrom(tree, ""))
  }

  lemma PlaceIsLoaded(tree: Value, resolver: string -> Option<string>, place: Place, freeForm: bool)
    requires IsTree(tree) && At(tree, place).Some? && (freeForm || AreReadable(Steps(tree, place)))
    ensures var result := UpdateAll(tree, resolver, tree, FlattenFrom(tree, ""));
      result.Some? ==> IsLoaded(At(tree, place), At(result.value, place), resolver, freeForm)
  {
    hide Segments, FlattenFrom, Steps, Locate, AreReadable, UpdateAll, Patch, IsTree, HasPlaceholder, Chosen;
    var leaves := FlattenFrom(tree, "");
    var chosen := Chosen(tree, leaves);
    TreeIsPatched(tree, resolver, leaves);
    PatchedAt(tree, [], chosen, resolver, place);
    assert [] + place == place;
    var before := At(tree, place);
    if HasPlaceholder(before) {
      KeysDecide(tree, place);
      if UpdateAll(tree, resolver, tree, leaves).Some? {
        PatchedText(before.value, place, chosen, resolver);
      }
    } else {
      PatchedOther(before.value, place, chosen, resolver);
    }
  }

  lemma PatchedText(value: Value, here: Place, chosen: set<Place>, resolver: string -> Option<string>)
    requires HasPlaceholder(Some(value)) && (here in chosen ==> resolver(value.text).Some?)
    ensures Patch(value, here, chosen, resolver) == if here in chosen then Text(resolver(value.text).value) else value
  {
  }

  lemma PatchedOther(value: Value, here: Place, chosen: set<Place>, resolver: string -> Option<string>)
    requires !value.Text? || here !in chosen
    ensures Alike(Some(Patch(value, here, chosen, resolver)), Some(value))
  {
  }

  lemma LoadedAlike(
      merged: Option<Value>, before: Option<Value>, after: Option<Value>, resolver: string -> Option<string>,
      freeForm: bool)
    requires Alike(before, merged) && IsLoaded(before, after, resolver, freeForm)
    ensures IsLoaded(merged, after, resolver, freeForm)
  {
  }

  /** Every property of the merged layers is in the final tree, with its placeholders resolved. */
  lemma FinishAnswers(
      schema: Schema, merged: Value, env: map<string, string>, json: Value -> string, at: seq<Segment>)
    requires IsContext(schema, "") && IsTidy(schema, merged, "") && IsTree(merged)
    ensures var result := Finish(schema, merged, env, json);
      result.Some? ==>
        IsLoaded(GetAt(merged, at), GetAt(result.value, at), Resolver(Normalize(schema, merged, ""), env, json),
                 EntersFreeForm(schema, merged, "", at))
  {
    hide IsContext, IsTidy, IsTree, GetAt, At, IsLoaded, Normalize, FlattenFrom, UpdateAll, Locate, Resolver,
      EntersFreeForm, Patch, Alike, Chosen, IsTidyAlong;
    var tree := Normalize(schema, merged, "");
    var resolver := Resolver(tree, env, json);
    var leaves := FlattenFrom(tree, "");
    var freeForm := EntersFreeForm(schema, merged, "", at);
    TidyEverywhere(schema, merged, "", at);
    LookupsAreKept(schema, merged, "", at);
    NormalizedIsTidy(schema, merged, "");
    NormalizedIsTree(schema, merged, "");
    EnteredBefore(schema, merged, "", at);
    GetIsAt(tree, at);
    TreeIsPatched(tree, resolver, leaves);
    PatchKeepsPlaces(tree, [], Chosen(tree, leaves), resolver, at);
    var result := Finish(schema, merged, env, json);
    if result.Some? {
      GetIsAt(result.value, at);
      if Locate(tree, at).Some? {
        var place := Locate(tree, at).value;
        PlaceIsThere(tree, at);
        if !freeForm {
          GoodSteps(schema, tree, "", at);
        }
        PlaceIsLoaded(tree, resolver, place, freeForm);
      } else {
        NothingIsLoaded(resolver, freeForm);
      }
      LoadedAlike(GetAt(merged, at), GetAt(tree, at), GetAt(result.value, at), resolver, freeForm);
    }
  }

  lemma {:induction false} PlaceIsThere(value: Value, at: seq<Segment>)
    requires Locate(value, at).Some?
    ensures At(value, Locate(value, at).value).Some?
    decreases |at|
  {
    hide RelaxedIndex;
    if at != [] {
      var i := Choose(value, at[0]).value;
      var rest := Locate(Nth(value, i), at[1..]).value;
      PlaceIsThere(Nth(value, i), at[1..]);
      assert ([i] + rest)[1..] == rest;
    }
  }

  lemma NothingIsLoaded(resolver: string -> Option<string>, freeForm: bool)
    ensures IsLoaded(None, None, resolver, freeForm)
  {
  }

  /** Loading as a whole. A property that no setting touches is what the last file that decides it says, and one
      from the environment or the command line that no later one touches is what that says, with the placeholders
      resolved. */
  lemma LoadAnswers(
      schema: Schema, file: Value, profiles: seq<Value>, environment: seq<Setting>, arguments: seq<Setting>,
      env: map<string, string>, json: Value -> string)
    requires IsContext(schema, "") && IsTidy(schema, file, "") && IsTree(file)
    requires forall profile | profile in profiles :: IsTidy(schema, profile, "") && IsTree(profile)
    requires AreTidySettings(schema, environment) && AreTidySettings(schema, arguments)
    requires AreTreeSettings(environment) && AreTreeSettings(arguments)
    ensures var merged := Load(file, profiles, environment, arguments);
      var result := Finish(schema, merged, env, json);
      result.Some? ==>
        var resolver := Resolver(Normalize(schema, merged, ""), env, json);
        && (forall at | Untouched(environment + arguments, at) && AreDistinctAlong(file, profiles, at) ::
              var before := LayeredAnswer(GetAt(file, at), profiles, at);
              || IsLoaded(before, GetAt(result.value, at), resolver, EntersFreeForm(schema, merged, "", at))
              || (before.None? && GetAt(result.value, at) == Some(Null) && IsPadded(environment + arguments, at)))
        && (forall i | 0 <= i < |environment|
                && Untouched(environment[i + 1..] + arguments, Segments(environment[i].path)) ::
              var at := Segments(environment[i].path);
              IsLoaded(Some(environment[i].value), GetAt(result.value, at), resolver,
                EntersFreeForm(schema, merged, "", at)))
        && (forall i | 0 <= i < |arguments| && Untouched(arguments[i + 1..], Segments(arguments[i].path)) ::
              var at := Segments(arguments[i].path);
              IsLoaded(Some(arguments[i].value), GetAt(result.value, at), resolver,
                EntersFreeForm(schema, merged, "", at)))
  {
    hide IsContext, IsTidy, IsTree, GetAt, IsLoaded, Normalize, Finish, Load, EntersFreeForm, Resolver, Untouched,
      IsPadded, Segments, AreTidySettings, AreTreeSettings, AreDistinctAlong, LayeredAnswer;
    var merged := Load(file, profiles, environment, arguments);
    LoadIsTidy(schema, file, profiles, environment, arguments);
    LoadIsTree(file, profiles, environment, arguments);
    Precedence(file, profiles, environment, arguments);
    forall at
      ensures var result := Finish(schema, merged, env, json);
        result.Some? ==>
          IsLoaded(GetAt(merged, at), GetAt(result.value, at), Resolver(Normalize(schema, merged, ""), env, json),
                   EntersFreeForm(schema, merged, "", at))
    {
      FinishAnswers(schema, merged, env, json, at);
    }
    NullStays();
  }

  lemma NullStays()
    ensures forall after: Option<Value>, resolver: string -> Option<string>, freeForm: bool ::
              IsLoaded(Some(Null), after, resolver, freeForm) ==> after == Some(Null)
  {
  }
}
