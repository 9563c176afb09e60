/**
 Layers of configuration (crates/containerproxy/src/config/tree.rs, loader.rs): profile files are merged
 into the main file, then single properties are set.
 */
module ConfigLayers {
  import opened Wrappers
  import opened ConfigPaths
  import opened ConfigTree

  /** Maps are merged entry by entry, everything else is replaced. */
  function Merge(base: Value, overlay: Value): Value
    decreases overlay, 1
  {
    if base.Object? && overlay.Object? then Object(MergeEntries(base.entries, overlay.entries)) else overlay
  }

  function MergeEntries(base: seq<Entry>, overlay: seq<Entry>): seq<Entry>
    decreases overlay, 0
  {
    if overlay == [] then base
    else MergeEntries(MergeEntry(base, overlay[0]), overlay[1..])
  }

  function MergeEntry(base: seq<Entry>, entry: Entry): seq<Entry>
    decreases entry, 0
  {
    Put(base, entry.key, Merged(Child(base, entry.key), entry.value))
  }

  /** A value on top of the one that may be there. */
  function Merged(base: Option<Value>, overlay: Value): Value
    decreases overlay, 2
  {
    if base.Some? then Merge(base.value, overlay) else overlay
  }

  method MergeTrees(base: Value, overlay: Value) returns (merged: Value)
    ensures merged == Merge(base, overlay)
    decreases overlay
  {
    if !base.Object? || !overlay.Object? {
      return overlay;
    }
    var entries := base.entries;
    for i := 0 to |overlay.entries|
      invariant MergeEntries(entries, overlay.entries[i..]) == MergeEntries(base.entries, overlay.entries)
    {
      var entry := overlay.entries[i];
      assert overlay.entries[i..][1..] == overlay.entries[i + 1..];
      var at := RelaxedIndex(entries, entry.key);
      MergeEntryCases(entries, entry);
      if at < |entries| {
        var value := MergeTrees(entries[at].value, entry.value);
        entries := entries[at := Entry(entries[at].key, value)];
      } else {
        entries := entries + [entry];
      }
    }
    return Object(entries);
  }

  lemma MergeEntryCases(entries: seq<Entry>, entry: Entry)
    ensures var at := RelaxedIndex(entries, entry.key);
      MergeEntry(entries, entry)
        == if at < |entries| then entries[at := Entry(entries[at].key, Merge(entries[at].value, entry.value))]
           else entries + [entry]
  {
  }

  // Maps without two keys of the same name.

  predicate DistinctNames(entries: seq<Entry>) {
    forall i, j :: 0 <= i < j < |entries| ==> !SameName(entries[i].key, entries[j].key)
  }

  /** No map above the end of the path has two keys of the same name. */
  predicate IsDistinctAlong(value: Value, path: seq<Segment>)
    decreases |path|
  {
    value.Object? && path != [] && path[0].Key? ==>
      && DistinctNames(value.entries)
      && var child := Child(value.entries, path[0].name);
      (child.Some? ==> IsDistinctAlong(child.value, path[1..]))
  }

  /** How the entries of a map combine. */
  function Overlaid(base: Option<Value>, overlay: Option<Value>): Option<Value> {
    if overlay.Some? then Some(Merged(base, overlay.value)) else base
  }

  lemma OnlyIndex(entries: seq<Entry>, i: nat, key: string)
    requires DistinctNames(entries) && i < |entries| && SameName(entries[i].key, key)
    ensures RelaxedIndex(entries, key) == i
  {
    hide Canonical;
  }

  /** In such a map, keys of the same name are the same key. */
  lemma SameChild(entries: seq<Entry>, a: string, b: string)
    requires DistinctNames(entries) && SameName(a, b)
    ensures Child(entries, a) == Child(entries, b)
  {
    hide Canonical;
    var i := RelaxedIndex(entries, a);
    if i < |entries| {
      OnlyIndex(entries, i, b);
    }
  }

  lemma PutKeepsDistinct(entries: seq<Entry>, key: string, value: Value)
    requires DistinctNames(entries)
    ensures DistinctNames(Put(entries, key, value))
  {
    hide Canonical;
    var after := Put(entries, key, value);
    forall i, j | 0 <= i < j < |after|
      ensures !SameName(after[i].key, after[j].key)
    {
      assert j < |entries| ==> !SameName(entries[i].key, entries[j].key);
    }
  }

  lemma NoSuchChild(entries: seq<Entry>, key: string)
    requires forall i | 0 <= i < |entries| :: !SameName(entries[i].key, key)
    ensures Child(entries, key) == None
  {
  }

  lemma ChildOfTail(entries: seq<Entry>, key: string)
    requires entries != [] && DistinctNames(entries)
    ensures DistinctNames(entries[1..])
    ensures SameName(entries[0].key, key) ==>
      Child(entries, key) == Some(entries[0].value) && Child(entries[1..], key) == None
    ensures !SameName(entries[0].key, key) ==> Child(entries, key) == Child(entries[1..], key)
  {
    hide Canonical, Child;
    if SameName(entries[0].key, key) {
      OnlyIndex(entries, 0, key);
      ChildAt(entries, key);
      forall i | 0 <= i < |entries[1..]|
        ensures !SameName(entries[1..][i].key, key)
      {
        assert !SameName(entries[0].key, entries[i + 1].key);
      }
      NoSuchChild(entries[1..], key);
    } else {
      var i := RelaxedIndex(entries[1..], key);
      ChildAt(entries, key);
      ChildAt(entries[1..], key);
      if i < |entries| - 1 {
        OnlyIndex(entries, i + 1, key);
      } else {
        assert forall j | 0 < j < |entries| :: entries[j] == entries[1..][j - 1];
      }
    }
  }

  lemma ChildAt(entries: seq<Entry>, key: string)
    ensures var i := RelaxedIndex(entries, key);
      Child(entries, key) == if i < |entries| then Some(entries[i].value) else None
  {
  }

  /** The children of a merged map. */
  lemma {:induction false} MergedChild(base: seq<Entry>, overlay: seq<Entry>, key: string)
    requires DistinctNames(base) && DistinctNames(overlay)
    ensures Child(MergeEntries(base, overlay), key) == Overlaid(Child(base, key), Child(overlay, key))
    ensures DistinctNames(MergeEntries(base, overlay))
    decreases |overlay|
  {
    hide Put, Child, Canonical, Merged, DistinctNames;
    if overlay == [] {
      NoSuchChild(overlay, key);
    } else {
      var entry := overlay[0];
      PutKeepsDistinct(base, entry.key, Merged(Child(base, entry.key), entry.value));
      ChildOfTail(overlay, key);
      MergedChild(MergeEntry(base, entry), overlay[1..], key);
      if SameName(entry.key, key) {
        SameChild(base, entry.key, key);
        PutThenChild(base, entry.key, Merged(Child(base, entry.key), entry.value));
        SameChild(MergeEntry(base, entry), entry.key, key);
      } else {
        PutElsewhere(base, entry.key, Merged(Child(base, entry.key), entry.value), key);
      }
    }
  }

  /** Merging makes no second key of the same name. */
  lemma {:induction false} MergeKeepsDistinct(base: Value, overlay: Value, path: seq<Segment>)
    requires IsDistinctAlong(base, path) && IsDistinctAlong(overlay, path)
    ensures IsDistinctAlong(Merge(base, overlay), path)
    decreases |path|
  {
    hide Child, MergeEntries, DistinctNames;
    if base.Object? && overlay.Object? && path != [] && path[0].Key? {
      var below, above := Child(base.entries, path[0].name), Child(overlay.entries, path[0].name);
      MergedChild(base.entries, overlay.entries, path[0].name);
      if below.Some? && above.Some? {
        MergeKeepsDistinct(below.value, above.value, path[1..]);
      }
    }
  }

  // What an overlay says about a path.

  datatype Verdict =
    | Silent                            // nothing: the map that would hold the next key does not
    | Decides(answer: Option<Value>)    // there is something other than a map on the way, or at the end
    | Extends(map_: Value)              // there is a map at the end

  function Says(overlay: Value, path: seq<Segment>): Verdict
    decreases |path|
  {
    if !overlay.Object? then Decides(GetAt(overlay, path))
    else if path == [] then Extends(overlay)
    else match path[0]
      case Index(_) => Decides(None)
      case Key(key) =>
        if Child(overlay.entries, key).None? then Silent
        else Says(Child(overlay.entries, key).value, path[1..])
  }

  /** The answer of a tree with an overlay. */
  function Answer(base: Option<Value>, verdict: Verdict): Option<Value> {
    match verdict
    case Silent => base
    case Decides(answer) => answer
    case Extends(map_) => Some(Merged(base, map_))
  }

  /** A merged tree answers from the overlay where that decides, and from the base where it is silent. */
  lemma {:induction false} MergeAnswers(base: Value, overlay: Value, path: seq<Segment>)
    requires IsDistinctAlong(base, path) && IsDistinctAlong(overlay, path)
    ensures GetAt(Merge(base, overlay), path) == Answer(GetAt(base, path), Says(overlay, path))
    decreases |path|
  {
    hide Child, MergeEntries, DistinctNames;
    if overlay.Object? && path != [] && path[0].Key? {
      var key := path[0].name;
      if base.Object? {
        MergedChild(base.entries, overlay.entries, key);
        var below, above := Child(base.entries, key), Child(overlay.entries, key);
        if below.Some? && above.Some? {
          MergeAnswers(below.value, above.value, path[1..]);
        } else if above.Some? {
          OverlayAnswers(above.value, path[1..]);
        }
      } else {
        OverlayAnswers(overlay, path);
      }
    }
  }

  /** An overlay on nothing answers for itself. */
  lemma {:induction false} OverlayAnswers(overlay: Value, path: seq<Segment>)
    ensures GetAt(overlay, path) == Answer(None, Says(overlay, path))
    decreases |path|
  {
    hide Child;
    if overlay.Object? && path != [] && path[0].Key? && Child(overlay.entries, path[0].name).Some? {
      OverlayAnswers(Child(overlay.entries, path[0].name).value, path[1..]);
    }
  }

  // All layers together.

  function MergeAll(base: Value, layers: seq<Value>): Value {
    if layers == [] then base
    else Merge(MergeAll(base, layers[..|layers| - 1]), layers[|layers| - 1])
  }

  /** A property from the environment or the command line. */
  datatype Setting = Setting(path: string, value: Value)

  function Apply(tree: Value, settings: seq<Setting>): Value {
    if settings == [] then tree
    else
      var last := settings[|settings| - 1];
      SetAt(Apply(tree, settings[..|settings| - 1]), Segments(last.path), last.value)
  }

  /** The configuration: the main file, the profile files, the environment, the command line. */
  function Load(file: Value, profiles: seq<Value>, environment: seq<Setting>, arguments: seq<Setting>): Value {
    Apply(Apply(MergeAll(file, profiles), environment), arguments)
  }

  method LoadLayers(file: Value, profiles: seq<Value>, environment: seq<Setting>, arguments: seq<Setting>)
      returns (merged: Value)
    ensures merged == Load(file, profiles, environment, arguments)
  {
    hide Merge, Segments, SetAt;
    merged := file;
    for i := 0 to |profiles|
      invariant merged == MergeAll(file, profiles[..i])
    {
      assert profiles[..i + 1][..i] == profiles[..i];
      merged := MergeTrees(merged, profiles[i]);
    }
    assert profiles[..|profiles|] == profiles;
    ghost var files := merged;
    for i := 0 to |environment|
      invariant merged == Apply(files, environment[..i])
    {
      assert environment[..i + 1][..i] == environment[..i];
      merged := SetAt(merged, Segments(environment[i].path), environment[i].value);
    }
    assert environment[..|environment|] == environment;
    ghost var variables := merged;
    for i := 0 to |arguments|
      invariant merged == Apply(variables, arguments[..i])
    {
      assert arguments[..i + 1][..i] == arguments[..i];
      merged := SetAt(merged, Segments(arguments[i].path), arguments[i].value);
    }
    assert arguments[..|arguments|] == arguments;
  }

  /** No setting is of the property itself, of one below it or of one above it. */
  predicate Untouched(settings: seq<Setting>, path: seq<Segment>) {
    forall i :: 0 <= i < |settings| ==> Apart(Segments(settings[i].path), path)
  }

  /** A setting of a later element of the array may pad it up to this one. */
  predicate IsPadded(settings: seq<Setting>, path: seq<Segment>) {
    exists i :: 0 <= i < |settings| && Pads(Segments(settings[i].path), path)
  }

  lemma {:induction false} UntouchedAnswers(tree: Value, settings: seq<Setting>, path: seq<Segment>)
    requires Untouched(settings, path)
    ensures IsKept(GetAt(tree, path), GetAt(Apply(tree, settings), path), IsPadded(settings, path))
  {
    if settings != [] {
      hide GetAt, SetAt, Apart, Pads, Segments;
      var init, last := settings[..|settings| - 1], settings[|settings| - 1];
      UntouchedAnswers(tree, init, path);
      SetApart(Apply(tree, init), Segments(last.path), last.value, path);
    }
  }

  /** The last setting of a property decides it, unless a later one touches the same place. */
  lemma {:induction false} SettingAnswers(tree: Value, settings: seq<Setting>, i: nat)
    requires i < |settings| && Untouched(settings[i + 1..], Segments(settings[i].path))
    ensures GetAt(Apply(tree, settings), Segments(settings[i].path)) == Some(settings[i].value)
    decreases |settings|
  {
    hide GetAt, SetAt, Apart, Segments;
    var init, last := settings[..|settings| - 1], settings[|settings| - 1];
    var path := Segments(settings[i].path);
    if i == |settings| - 1 {
      GetAfterSet(Apply(tree, init), path, last.value);
    } else {
      assert settings[i + 1..][|settings| - i - 2] == last;
      assert init[i + 1..] == settings[i + 1..][..|settings| - i - 2];
      SettingAnswers(tree, init, i);
      SetApart(Apply(tree, init), Segments(last.path), last.value, path);
    }
  }

  /** The answer of the profiles on top of the main file: the last profile first. */
  function LayeredAnswer(base: Option<Value>, layers: seq<Value>, path: seq<Segment>): Option<Value> {
    if layers == [] then base
    else Answer(LayeredAnswer(base, layers[..|layers| - 1], path), Says(layers[|layers| - 1], path))
  }

  predicate AreDistinctAlong(base: Value, layers: seq<Value>, path: seq<Segment>) {
    IsDistinctAlong(base, path) && forall layer | layer in layers :: IsDistinctAlong(layer, path)
  }

  lemma {:induction false} LayersAnswer(base: Value, layers: seq<Value>, path: seq<Segment>)
    requires AreDistinctAlong(base, layers, path)
    ensures IsDistinctAlong(MergeAll(base, layers), path)
    ensures GetAt(MergeAll(base, layers), path) == LayeredAnswer(GetAt(base, path), layers, path)
  {
    hide GetAt, Merge, Says, Answer, IsDistinctAlong;
    if layers != [] {
      var init, last := layers[..|layers| - 1], layers[|layers| - 1];
      LayersAnswer(base, init, path);
      MergeKeepsDistinct(MergeAll(base, init), last, path);
      MergeAnswers(MergeAll(base, init), last, path);
    }
  }

  /** The last layer that decides, decides. */
  lemma {:induction false} LastDecides(base: Option<Value>, layers: seq<Value>, path: seq<Segment>, i: nat)
    requires i < |layers| && Says(layers[i], path).Decides?
    requires forall j :: i < j < |layers| ==> Says(layers[j], path).Silent?
    ensures LayeredAnswer(base, layers, path) == Says(layers[i], path).answer
    decreases |layers|
  {
    hide Says;
    if i < |layers| - 1 {
      LastDecides(base, layers[..|layers| - 1], path, i);
    }
  }

  lemma {:induction false} AllSilent(base: Option<Value>, layers: seq<Value>, path: seq<Segment>)
    requires forall j :: 0 <= j < |layers| ==> Says(layers[j], path).Silent?
    ensures LayeredAnswer(base, layers, path) == base
  {
    hide Says;
    if layers != [] {
      AllSilent(base, layers[..|layers| - 1], path);
    }
  }

  /** Arguments before environment before profiles before the main file. */
  lemma Precedence(file: Value, profiles: seq<Value>, environment: seq<Setting>, arguments: seq<Setting>)
    ensures var tree := Load(file, profiles, environment, arguments);
      && (forall i | 0 <= i < |arguments| && Untouched(arguments[i + 1..], Segments(arguments[i].path)) ::
            GetAt(tree, Segments(arguments[i].path)) == Some(arguments[i].value))
      && (forall i | 0 <= i < |environment|
              && Untouched(environment[i + 1..] + arguments, Segments(environment[i].path)) ::
            GetAt(tree, Segments(environment[i].path)) == Some(environment[i].value))
      && (forall path | Untouched(environment + arguments, path) && AreDistinctAlong(file, profiles, path) ::
            IsKept(LayeredAnswer(GetAt(file, path), profiles, path), GetAt(tree, path),
                   IsPadded(environment + arguments, path)))
  {
    hide GetAt, SetAt, Segments, Says, Answer, LayeredAnswer, Untouched, IsPadded, AreDistinctAlong;
    var files := MergeAll(file, profiles);
    var variables := Apply(files, environment);
    forall i | 0 <= i < |arguments| && Untouched(arguments[i + 1..], Segments(arguments[i].path))
      ensures GetAt(Apply(variables, arguments), Segments(arguments[i].path)) == Some(arguments[i].value)
    {
      SettingAnswers(variables, arguments, i);
    }
    forall i | 0 <= i < |environment| && Untouched(environment[i + 1..] + arguments, Segments(environment[i].path))
      ensures GetAt(Apply(variables, arguments), Segments(environment[i].path)) == Some(environment[i].value)
    {
      UntouchedParts(environment[i + 1..], arguments, Segments(environment[i].path));
      SettingAnswers(files, environment, i);
      UntouchedAnswers(variables, arguments, Segments(environment[i].path));
    }
    forall path | Untouched(environment + arguments, path) && AreDistinctAlong(file, profiles, path)
      ensures IsKept(LayeredAnswer(GetAt(file, path), profiles, path), GetAt(Apply(variables, arguments), path),
                     IsPadded(environment + arguments, path))
    {
      UntouchedParts(environment, arguments, path);
      UntouchedAnswers(variables, arguments, path);
      UntouchedAnswers(files, environment, path);
      LayersAnswer(file, profiles, path);
    }
  }

  lemma UntouchedParts(a: seq<Setting>, b: seq<Setting>, path: seq<Segment>)
    requires Untouched(a + b, path)
    ensures Untouched(a, path) && Untouched(b, path)
    ensures IsPadded(a, path) || IsPadded(b, path) ==> IsPadded(a + b, path)
  {
    hide Apart, Pads, Segments;
    assert forall i :: 0 <= i < |a| ==> (a + b)[i] == a[i];
    forall i | 0 <= i < |b|
      ensures Apart(Segments(b[i].path), path)
      ensures Pads(Segments(b[i].path), path) ==> IsPadded(a + b, path)
    {
      assert (a + b)[|a| + i] == b[i];
    }
  }
}
